/**
 Why the code ring never fails in practice: blocks of at most a fortieth of the pool.

 `SmallAlwaysServed`: over every sequence of requests of at most `SMALL` pages, every allocation finds its
 room. A reset of the ring can only fail when the oldest block lies closer to the pool end than the request
 is long. Every window after the first starts where the eviction of a quarter of the pool from the window
 before it stopped, give or take what earlier rounds left unused there; `Tidy` bounds that slack: unused pages
 lie only around the quarter marks of the pool, they never grow past a few blocks, and so the fourth window
 always starts early enough to take in the whole pool end.
 */
module SmallBlocks {
  import opened CodeRing
  import opened Wrappers

  /** A fortieth of the pool: 816 KiB of code for one block. */
  const SMALL: nat := 204

  /** Unused pages [a, b) between two neighbours of a run, around quarter mark `k`: they end within 3 k - 1
      block lengths past the mark, or within 3 k if there are fewer of them than in a block (2660 is
      QUARTER + 3 * SMALL). */
  predicate GapAt(a: nat, b: nat, k: nat) {
    QUARTER * k < a + 204 && (b <= 2660 * k - 204 || (b < a + 204 && b <= 2660 * k))
  }

  predicate Gap(a: nat, b: nat) { GapAt(a, b, 1) || GapAt(a, b, 2) || GapAt(a, b, 3) }

  /** Neighbours in the queue: adjacent, around a quarter mark, or the start of a new round. */
  predicate Linked(x: Block, y: Block) { y.lo == 0 || x.hi == y.lo || Gap(x.hi, y.lo) }

  /** No block has unused pages on both sides. */
  predicate OneSided(x: Block, y: Block, z: Block) { y.lo == 0 || z.lo == 0 || x.hi == y.lo || y.hi == z.lo }

  predicate LinkedAt(funcs: seq<Block>, i: nat) { i + 1 < |funcs| ==> Linked(funcs[i], funcs[i + 1]) }

  predicate OneSidedAt(funcs: seq<Block>, i: nat) { i + 2 < |funcs| ==> OneSided(funcs[i], funcs[i + 1], funcs[i + 2]) }

  predicate Small(b: Block) { b.hi - b.lo <= 204 || b.hi == POOL }

  ghost predicate Chain(funcs: seq<Block>) {
    && (forall i: nat :: i < |funcs| ==> Small(funcs[i]))
    && (forall i: nat :: i < |funcs| ==> LinkedAt(funcs, i))
    && (forall i: nat :: i < |funcs| ==> OneSidedAt(funcs, i))
  }

  /** A window that ends at `e` while the oldest block above it starts at `b`, past quarter mark `k`. */
  predicate WindowAt(e: nat, b: nat, k: nat) {
    QUARTER * k <= e <= b && (b <= 2660 * k - 204 || (b == e && b <= 2660 * k))
  }

  predicate Window(e: nat, b: nat) { WindowAt(e, b, 1) || WindowAt(e, b, 2) || WindowAt(e, b, 3) }

  function Last(funcs: seq<Block>): Block
    requires funcs != []
  {
    funcs[|funcs| - 1]
  }

  /** Unused pages before the newest block: its window has just begun. */
  predicate NewestOk(r: Ring) {
    && (r.funcs != [] ==> Last(r.funcs).hi == r.start)
    && (|r.funcs| >= 2 && r.funcs[|r.funcs| - 2].hi != Last(r.funcs).lo && Last(r.funcs).lo != 0 ==>
          r.end == POOL || r.end - Last(r.funcs).lo >= QUARTER)
  }

  ghost predicate Tidy(r: Ring) {
    && RingInv(r) && Chain(r.funcs) && NewestOk(r)
    && (r.end < POOL ==> r.funcs != [] && Window(r.end, r.funcs[0].lo))
  }

  // ---------------------------------------------------------------------------------------------
  // Where the next window starts

  /** Evicting from `t`, which is past mark `k - 1`, until a quarter is free: the block [lo, e) is the last to
      go, `p` is where the one before it ended, and `b` is where the next one starts. */
  lemma NextWindow(t: nat, k: nat, p: nat, lo: nat, e: nat, b: nat)
    requires 1 <= k <= 3 && QUARTER * (k - 1) <= t <= 2660 * (k - 1)
    requires p < t + QUARTER <= e && p <= lo < e <= lo + 204 && e <= b
    requires p == lo || Gap(p, lo)
    requires e == b || Gap(e, b)
    requires p == lo || e == b
    ensures WindowAt(e, b, k)
  {
    if e == b {
      if p != lo {
        if GapAt(p, lo, 1) { BeforeMark(t, k, p, lo, e, 1); }
        else if GapAt(p, lo, 2) { BeforeMark(t, k, p, lo, e, 2); }
        else { BeforeMark(t, k, p, lo, e, 3); }
      }
    } else {
      if GapAt(e, b, 1) { AfterMark(t, k, e, b, 1); }
      else if GapAt(e, b, 2) { AfterMark(t, k, e, b, 2); }
      else { AfterMark(t, k, e, b, 3); }
    }
  }

  /** The last evicted block lies behind unused pages. */
  lemma BeforeMark(t: nat, k: nat, p: nat, lo: nat, e: nat, g: nat)
    requires 1 <= k <= 3 && 1 <= g <= 3 && QUARTER * (k - 1) <= t <= 2660 * (k - 1)
    requires p < t + QUARTER <= e <= lo + 204 && GapAt(p, lo, g)
    ensures WindowAt(e, e, k)
  {
    assert g <= k;
  }

  /** Unused pages follow the last evicted block. */
  lemma AfterMark(t: nat, k: nat, e: nat, b: nat, g: nat)
    requires 1 <= k <= 3 && 1 <= g <= 3 && QUARTER * (k - 1) <= t <= 2660 * (k - 1)
    requires t + QUARTER <= e < t + QUARTER + 204 && e <= b && GapAt(e, b, g)
    ensures WindowAt(e, b, k)
  {
    assert g <= k;
  }

  /** What a window leaves unused when it is full, seen from the next round. */
  lemma WindowLeavesGap(start: nat, pages: nat, e: nat, b: nat)
    requires pages <= 204 && start <= e < start + pages && Window(e, b)
    ensures Gap(start, b)
  {
  }

  // ---------------------------------------------------------------------------------------------
  // Chains

  lemma ChainDrop(funcs: seq<Block>, n: nat)
    requires Chain(funcs) && n <= |funcs|
    ensures Chain(funcs[n..])
  {
    var rest := funcs[n..];
    forall i: nat | i < |rest| ensures Small(rest[i]) && LinkedAt(rest, i) && OneSidedAt(rest, i) {
      assert Small(funcs[n + i]) && LinkedAt(funcs, n + i) && OneSidedAt(funcs, n + i);
    }
  }

  lemma ChainPush(funcs: seq<Block>, b: Block)
    requires Chain(funcs) && Small(b) && (funcs != [] ==> Linked(Last(funcs), b))
    requires |funcs| >= 2 ==> OneSided(funcs[|funcs| - 2], Last(funcs), b)
    ensures Chain(funcs + [b])
  {
    var all := funcs + [b];
    forall i: nat | i < |all| ensures Small(all[i]) && LinkedAt(all, i) && OneSidedAt(all, i) {
      if i < |funcs| { assert Small(funcs[i]) && LinkedAt(funcs, i) && OneSidedAt(funcs, i); }
    }
  }

  /** The newest block absorbs the pool tail. */
  lemma ChainAbsorb(funcs: seq<Block>, grown: seq<Block>)
    requires Chain(funcs) && funcs != [] && grown == funcs[|funcs| - 1 := Last(funcs).(hi := POOL)]
    ensures Chain(grown)
  {
    forall i: nat | i < |grown| ensures Small(grown[i]) && LinkedAt(grown, i) && OneSidedAt(grown, i) {
      assert Small(funcs[i]) && LinkedAt(funcs, i) && OneSidedAt(funcs, i);
    }
  }

  // ---------------------------------------------------------------------------------------------
  // One allocation

  /** The blocks around the eviction are in address order. */
  predicate Climbs(funcs: seq<Block>, n: nat)
    requires 1 <= n < |funcs|
  {
    && funcs[n - 1].lo < funcs[n - 1].hi <= funcs[n].lo
    && (n > 1 ==> 0 < funcs[n - 2].hi <= funcs[n - 1].lo)
  }

  lemma Ascends(funcs: seq<Block>, k: nat, n: nat)
    requires 1 <= n < k <= |funcs| && Ascending(funcs[..k], funcs[0].lo)
    ensures Climbs(funcs, n)
  {
    var run := funcs[..k];
    assert run[n - 1] == funcs[n - 1] && run[n] == funcs[n];
    if n > 1 { assert run[n - 2] == funcs[n - 2]; }
  }

  /** After an eviction from `t` past mark `k - 1` that does not reach the pool end. */
  lemma EvictedWindow(funcs: seq<Block>, n: nat, k: nat)
    requires Chain(funcs) && 1 <= n < |funcs| && 1 <= k <= 3
    requires QUARTER * (k - 1) <= funcs[0].lo <= 2660 * (k - 1)
    requires funcs[n - 1].hi - funcs[0].lo >= QUARTER && funcs[n - 1].hi < POOL && Climbs(funcs, n)
    requires n > 1 ==> funcs[n - 2].hi - funcs[0].lo < QUARTER
    ensures WindowAt(funcs[n - 1].hi, funcs[n].lo, k)
  {
    assert Small(funcs[n - 1]) && LinkedAt(funcs, n - 1);
    assert LinkedAt(funcs, n - 2) && OneSidedAt(funcs, n - 2);
    NextWindow(funcs[0].lo, k, funcs[n - 2].hi, funcs[n - 1].lo, funcs[n - 1].hi, funcs[n].lo);
  }

  /** The block that an allocation pushes is in line with the chain. */
  lemma PushedTidy(u: Ring, funcs: seq<Block>, b: Block)
    requires RingInv(u) && Chain(funcs) && u.funcs == funcs + [b] && b.hi == u.start && Small(b)
    requires funcs != [] ==> Linked(Last(funcs), b)
    requires |funcs| >= 2 ==> OneSided(funcs[|funcs| - 2], Last(funcs), b)
    requires u.end == POOL || u.end - b.lo >= QUARTER || (funcs != [] && Last(funcs).hi == b.lo)
    requires u.end < POOL ==> Window(u.end, u.funcs[0].lo)
    ensures Tidy(u)
  {
    ChainPush(funcs, b);
  }

  lemma FitsInWindow(r: Ring, pages: nat, pc: nat, pcEnd: nat)
    requires Tidy(r) && 1 <= pages <= SMALL && r.start + pages <= r.end
    ensures Allocate(r, pages).Some? && Tidy(Push(Allocate(r, pages).value, pages, pc, pcEnd))
  {
    AllocateKeeps(r, pages, pc, pcEnd);
    PushedTidy(Push(Allocate(r, pages).value, pages, pc, pcEnd), r.funcs, Block(pc, pcEnd, r.start, r.start + pages));
  }

  /** The ring after an allocation that resets it: `funcs` are its blocks once the tail is absorbed, the first
      `n` of them are evicted. */
  lemma AfterReset(r: Ring, pages: nat, pc: nat, pcEnd: nat) returns (funcs: seq<Block>, n: nat, b: Block, u: Ring)
    requires RingInv(r) && 1 <= pages <= SMALL && r.start + pages > r.end && r.funcs != []
    requires r.funcs[0].lo + pages <= POOL && (Highs(r, |r.funcs|) > 0 ==> r.start + pages <= POOL)
    ensures AbsorbTail(r, pages) == Some(r.(funcs := funcs)) && 1 <= n <= |funcs| && funcs[0].lo == r.funcs[0].lo
    ensures b == Block(pc, pcEnd, r.funcs[0].lo, r.funcs[0].lo + pages)
    ensures u == Ring(b.hi, funcs[n - 1].hi, funcs[n..] + [b])
    ensures Allocate(r, pages).Some? && Push(Allocate(r, pages).value, pages, pc, pcEnd) == u
    ensures funcs[n - 1].hi - funcs[0].lo >= QUARTER || funcs[n - 1].hi == POOL
    ensures n > 1 ==> funcs[n - 2].hi - funcs[0].lo < QUARTER
    ensures Highs(r, |r.funcs|) > 0 ==> funcs == r.funcs && n <= Highs(r, |r.funcs|)
  {
    var r1, t, m := ResetWindow(r, pages);
    funcs, n, b := r1.funcs, m, Block(pc, pcEnd, t.start, t.start + pages);
    u := Ring(b.hi, t.end, t.funcs + [b]);
    assert Push(Allocate(r, pages).value, pages, pc, pcEnd) == u by {
      AllocateFitsIff(r, pages);
      AllocateAfterReset(r, pages, r1, t, m);
    }
  }

  lemma PushedInOrder(r: Ring, pages: nat, pc: nat, pcEnd: nat, u: Ring)
    requires RingInv(r) && 1 <= pages <= SMALL && Allocate(r, pages).Some?
    requires Push(Allocate(r, pages).value, pages, pc, pcEnd) == u
    ensures RingInv(u)
  {
    AllocateKeeps(r, pages, pc, pcEnd);
  }

  lemma ResetTidy(funcs: seq<Block>, n: nat, b: Block, u: Ring)
    requires RingInv(u) && Chain(funcs) && 1 <= n <= |funcs| && u == Ring(b.hi, funcs[n - 1].hi, funcs[n..] + [b])
    requires Small(b) && Linked(Last(funcs), b) && (|funcs| >= 2 ==> OneSided(funcs[|funcs| - 2], Last(funcs), b))
    requires u.end == POOL || (u.end - b.lo >= QUARTER && n < |funcs| && Window(u.end, funcs[n].lo))
    ensures Tidy(u)
  {
    var left := funcs[n..];
    ChainDrop(funcs, n);
    assert n < |funcs| ==> Last(left) == Last(funcs);
    assert n + 1 < |funcs| ==> left[|left| - 2] == funcs[|funcs| - 2];
    PushedTidy(u, left, b);
  }

  /** A ring that has not wrapped starts over at the pool start. */
  lemma FirstReset(r: Ring, pages: nat, pc: nat, pcEnd: nat)
    requires Tidy(r) && 1 <= pages <= SMALL && r.start + pages > r.end && r.end == POOL
    ensures Allocate(r, pages).Some? && Tidy(Push(Allocate(r, pages).value, pages, pc, pcEnd))
  {
    NoHighs(r);
    var funcs, n, b, u := AfterReset(r, pages, pc, pcEnd);
    PushedInOrder(r, pages, pc, pcEnd, u);
    ChainAbsorb(r.funcs, funcs);
    if u.end < POOL { FirstWindow(r, pages, funcs, n); }
    ResetTidy(funcs, n, b, u);
  }

  lemma FirstWindow(r: Ring, pages: nat, funcs: seq<Block>, n: nat)
    requires RingInv(r) && Highs(r, |r.funcs|) == 0 && r.start + pages > r.end && pages <= SMALL
    requires AbsorbTail(r, pages) == Some(r.(funcs := funcs)) && Chain(funcs) && 1 <= n <= |funcs|
    requires funcs[n - 1].hi < POOL && funcs[n - 1].hi - funcs[0].lo >= QUARTER
    requires n > 1 ==> funcs[n - 2].hi - funcs[0].lo < QUARTER
    ensures n < |funcs| && Window(funcs[n - 1].hi, funcs[n].lo)
  {
    var r1 := FirstRound(r, pages);
    assert funcs[..|funcs|] == funcs;
    Ascends(funcs, |funcs|, n);
    EvictedWindow(funcs, n, 1);
  }

  lemma NoHighs(r: Ring)
    requires RingInv(r) && r.end == POOL
    ensures Highs(r, |r.funcs|) == 0
  {
    assert forall i :: 0 <= i < |r.funcs| ==> BlockOk(r, r.funcs[i]) && Low(r, r.funcs[i]);
    HighsIs(r, |r.funcs|, 0);
  }

  /** A ring that has wrapped opens its next window at the oldest block. */
  lemma NextReset(r: Ring, pages: nat, pc: nat, pcEnd: nat)
    requires Tidy(r) && 1 <= pages <= SMALL && r.start + pages > r.end && r.end < POOL
    ensures Allocate(r, pages).Some? && Tidy(Push(Allocate(r, pages).value, pages, pc, pcEnd))
  {
    var funcs, n, b, u := AfterReset(r, pages, pc, pcEnd);
    PushedInOrder(r, pages, pc, pcEnd, u);
    NewIsLinked(r, pages, b);
    if u.end < POOL { NextWindowOpens(r, n); }
    ResetTidy(funcs, n, b, u);
  }

  lemma NextWindowOpens(r: Ring, n: nat)
    requires Tidy(r) && r.end < POOL && 1 <= n <= Highs(r, |r.funcs|)
    requires QUARTER <= r.funcs[n - 1].hi - r.funcs[0].lo && r.funcs[n - 1].hi < POOL
    requires n > 1 ==> r.funcs[n - 2].hi - r.funcs[0].lo < QUARTER
    ensures n < |r.funcs| && Window(r.funcs[n - 1].hi, r.funcs[n].lo)
  {
    var h := HighRun(r);
    Ascends(r.funcs, h, n);
    PastNextMark(r, n);
  }

  /** The window was left with less than a block unused, and did not start with unused pages before it. */
  lemma NewIsLinked(r: Ring, pages: nat, b: Block)
    requires Tidy(r) && r.end < POOL && 1 <= pages <= SMALL && r.start + pages > r.end && b.lo == r.funcs[0].lo
    ensures Linked(Last(r.funcs), b)
    ensures |r.funcs| >= 2 ==> OneSided(r.funcs[|r.funcs| - 2], Last(r.funcs), b)
  {
    WindowLeavesGap(r.start, pages, r.end, r.funcs[0].lo);
    assert Small(Last(r.funcs)) && BlockOk(r, Last(r.funcs));
  }

  /** From a window past one mark the eviction stops past the next one; past the third there is none left. */
  lemma PastNextMark(r: Ring, n: nat)
    requires Tidy(r) && r.end < POOL && 1 <= n < |r.funcs| && Climbs(r.funcs, n)
    requires QUARTER <= r.funcs[n - 1].hi - r.funcs[0].lo && r.funcs[n - 1].hi < POOL
    requires n > 1 ==> r.funcs[n - 2].hi - r.funcs[0].lo < QUARTER
    ensures Window(r.funcs[n - 1].hi, r.funcs[n].lo)
  {
    if WindowAt(r.end, r.funcs[0].lo, 1) {
      EvictedWindow(r.funcs, n, 2);
    } else if WindowAt(r.end, r.funcs[0].lo, 2) {
      EvictedWindow(r.funcs, n, 3);
    }
  }

  // ---------------------------------------------------------------------------------------------
  // Every run

  lemma ServesSmall(r: Ring, pages: nat, pc: nat, pcEnd: nat)
    requires Tidy(r) && 1 <= pages <= SMALL
    ensures Allocate(r, pages).Some? && Tidy(Push(Allocate(r, pages).value, pages, pc, pcEnd))
  {
    if r.start + pages <= r.end {
      FitsInWindow(r, pages, pc, pcEnd);
    } else if r.end == POOL {
      FirstReset(r, pages, pc, pcEnd);
    } else {
      NextReset(r, pages, pc, pcEnd);
    }
  }

  lemma {:induction false} SmallServedFrom(r: Ring, requests: seq<Request>)
    requires Tidy(r) && forall i :: 0 <= i < |requests| ==> 1 <= requests[i].pages <= SMALL
    ensures Serve(r, requests).Some?
    decreases |requests|
  {
    if requests != [] {
      var q := requests[0];
      ServesSmall(r, q.pages, q.guestPc, q.guestPcEnd);
      SmallServedFrom(Push(Allocate(r, q.pages).value, q.pages, q.guestPc, q.guestPcEnd), requests[1..]);
    }
  }

  /** A reset always makes room: no sequence of small requests ever fails. */
  lemma SmallAlwaysServed(requests: seq<Request>)
    requires forall i :: 0 <= i < |requests| ==> 1 <= requests[i].pages <= SMALL
    ensures Serve(Fresh(), requests).Some?
  {
    FreshInOrder();
    SmallServedFrom(Fresh(), requests);
  }
}
