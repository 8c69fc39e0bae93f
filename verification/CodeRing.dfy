/**
 The ring allocator of compiled code, in pool pages: a bump window, and the live blocks in allocation
 order, oldest first.

 Main results:
 - `AllocateKeeps`: over every sequence of requests, live blocks are pairwise disjoint, in address order
   with at most one wrap, and disjoint from the window (`BlocksDisjoint`, `AtMostOneWrap`);
 - `ResetWindow`: a reset yields a window that is at least a quarter of the pool or ends at its end;
 - `AllocateFitsIff`: a request of up to a quarter of the pool succeeds exactly when it fits between the
   oldest block and the pool end. The comment that a reset always makes room does not hold for requests of
   that size (`AllocateCanFail`); module SmallBlocks proves it for the sizes of real blocks.
 */
module CodeRing {
  import opened Wrappers

  const POOL := 8192
  const QUARTER := POOL / 4

  /** A compiled block: its guest span and its pages [lo, hi) of the pool. */
  datatype Block = Block(guestPc: nat, guestPcEnd: nat, lo: nat, hi: nat)

  datatype Ring = Ring(start: nat, end: nat, funcs: seq<Block>)

  function Fresh(): Ring { Ring(0, POOL, []) }

  /** What the eviction loop ends with: the blocks left, the blocks dropped and the end of the window. */
  datatype Evicted = Evicted(left: seq<Block>, dropped: seq<Block>, freedEnd: nat)

  /** The loop of `reset_blocks`, from the block after the oldest. None where the code unwraps an empty
      queue. */
  function EvictMore(funcs: seq<Block>, freedStart: nat, freedEnd: nat): Option<Evicted>
    decreases |funcs|
  {
    if freedEnd - freedStart >= QUARTER then Some(Evicted(funcs, [], freedEnd))
    else if funcs == [] then None
    else if funcs[0].hi < freedStart then Some(Evicted(funcs, [], freedEnd))
    else
      match EvictMore(funcs[1..], freedStart, funcs[0].hi)
      case None => None
      case Some(e) => Some(e.(dropped := [funcs[0]] + e.dropped))
  }

  /** `reset_blocks`: the ring and the evicted blocks, oldest first. */
  function ResetBlocks(r: Ring): Option<(Ring, seq<Block>)> {
    if r.funcs == [] then None
    else
      var oldest := r.funcs[0];
      match EvictMore(r.funcs[1..], oldest.lo, oldest.hi)
      case None => None
      case Some(e) => Some((Ring(oldest.lo, e.freedEnd, e.left), [oldest] + e.dropped))
  }

  /** The last block absorbs the tail of the pool when a request runs over the pool end. */
  function AbsorbTail(r: Ring, pages: nat): Option<Ring> {
    if r.start + pages <= POOL then Some(r)
    else if r.funcs == [] then None
    else
      var last := |r.funcs| - 1;
      Some(r.(funcs := r.funcs[last := r.funcs[last].(hi := POOL)]))
  }

  /** `allocate_block`: the address, the ring with the window advanced, and the evicted blocks. None
      where the code panics, or where the window it assumes to be large enough is not. */
  datatype Allocated = Allocated(addr: nat, ring: Ring, evicted: seq<Block>)

  function Allocate(r: Ring, pages: nat): Option<Allocated> {
    if r.start + pages <= r.end then Some(Allocated(r.start, r.(start := r.start + pages), []))
    else
      match AbsorbTail(r, pages)
      case None => None
      case Some(r1) =>
        match ResetBlocks(r1)
        case None => None
        case Some((r2, evicted)) =>
          if r2.start + pages <= r2.end
          then Some(Allocated(r2.start, r2.(start := r2.start + pages), evicted))
          else None
  }

  /** The allocation with the metadata that is pushed right after it. */
  function Push(a: Allocated, pages: nat, guestPc: nat, guestPcEnd: nat): Ring {
    a.ring.(funcs := a.ring.funcs + [Block(guestPc, guestPcEnd, a.addr, a.addr + pages)])
  }

  // ---------------------------------------------------------------------------------------------
  // The invariant

  /** Above the window: left over from the previous round. */
  predicate High(r: Ring, b: Block) { r.end <= b.lo }

  /** Below the window: allocated in this round. */
  predicate Low(r: Ring, b: Block) { b.hi <= r.start }

  predicate BlockOk(r: Ring, b: Block) {
    && b.lo < b.hi <= POOL
    && (High(r, b) || Low(r, b))
    && (b.hi - b.lo <= QUARTER || b.hi == POOL)
  }

  /** In allocation order: first the high blocks, ascending, then the low ones, ascending. */
  predicate InOrder(r: Ring, a: Block, b: Block) {
    if Low(r, a) == Low(r, b) then a.hi <= b.lo else Low(r, b)
  }

  ghost predicate Shape(r: Ring) {
    && r.start <= r.end <= POOL
    && (forall i :: 0 <= i < |r.funcs| ==> BlockOk(r, r.funcs[i]))
    && (forall i, j :: 0 <= i < j < |r.funcs| ==> InOrder(r, r.funcs[i], r.funcs[j]))
  }

  /** The number of high blocks: where the ring wraps. */
  function Highs(r: Ring, n: nat): (k: nat)
    requires n <= |r.funcs|
    ensures k <= n
  {
    if n == 0 then 0
    else if !Low(r, r.funcs[n - 1]) then n
    else Highs(r, n - 1)
  }

  /** The high blocks reach the pool end, the low ones start at the pool start, and the newest block
      ends where the window starts. */
  ghost predicate Anchored(r: Ring) {
    var k := Highs(r, |r.funcs|);
    && (if k == 0 then r.end == POOL else r.funcs[k - 1].hi == POOL)
    && (k < |r.funcs| ==> r.funcs[k].lo == 0)
    && (r.funcs != [] ==> k < |r.funcs|)
    && (r.funcs == [] ==> r.start == 0)
  }

  ghost predicate RingInv(r: Ring) {
    Shape(r) && Anchored(r)
  }

  lemma {:induction false} HighsSplit(r: Ring, n: nat)
    requires Shape(r) && n <= |r.funcs|
    ensures forall i :: 0 <= i < n ==> (Low(r, r.funcs[i]) <==> Highs(r, n) <= i)
    decreases n
  {
    if n > 0 {
      HighsSplit(r, n - 1);
      if !Low(r, r.funcs[n - 1]) {
        forall i | 0 <= i < n - 1 ensures !Low(r, r.funcs[i]) {
          assert InOrder(r, r.funcs[i], r.funcs[n - 1]);
        }
      }
    }
  }

  /** Live blocks occupy disjoint pages, none of them in the window. */
  lemma BlocksDisjoint(r: Ring, i: nat, j: nat)
    requires RingInv(r) && i < j < |r.funcs|
    ensures var a, b := r.funcs[i], r.funcs[j];
            && (a.hi <= b.lo || b.hi <= a.lo)
            && (a.hi <= r.start || r.end <= a.lo) && (b.hi <= r.start || r.end <= b.lo)
  {
    assert InOrder(r, r.funcs[i], r.funcs[j]) && BlockOk(r, r.funcs[i]) && BlockOk(r, r.funcs[j]);
  }

  /** The queue is two ascending runs: the blocks above the window, then the blocks below it. */
  lemma AtMostOneWrap(r: Ring)
    requires RingInv(r)
    ensures var k := Highs(r, |r.funcs|);
            && (forall i :: 0 <= i < k ==> r.end <= r.funcs[i].lo)
            && (forall i :: k <= i < |r.funcs| ==> r.funcs[i].hi <= r.start)
            && (forall i, j :: 0 <= i < j < k ==> r.funcs[i].hi <= r.funcs[j].lo)
            && (forall i, j :: k <= i < j < |r.funcs| ==> r.funcs[i].hi <= r.funcs[j].lo)
  {
    var k := Highs(r, |r.funcs|);
    HighsSplit(r, |r.funcs|);
    forall i | 0 <= i < k ensures r.end <= r.funcs[i].lo { assert BlockOk(r, r.funcs[i]); }
    forall i, j | 0 <= i < j < |r.funcs| && (j < k || k <= i) ensures r.funcs[i].hi <= r.funcs[j].lo {
      assert InOrder(r, r.funcs[i], r.funcs[j]);
    }
  }

  // ---------------------------------------------------------------------------------------------
  // Eviction

  /** Where the window ends once `n` blocks of an ascending run are evicted. */
  function EndAfter(run: seq<Block>, n: nat, freedEnd: nat): nat
    requires n <= |run|
  {
    if n == 0 then freedEnd else run[n - 1].hi
  }

  ghost predicate Ascending(run: seq<Block>, from: nat) {
    && (forall i :: 0 <= i < |run| ==> from <= run[i].lo < run[i].hi <= POOL)
    && (forall i, j :: 0 <= i < j < |run| ==> run[i].hi <= run[j].lo)
  }

  lemma AscendingTail(run: seq<Block>, from: nat)
    requires run != [] && Ascending(run, from)
    ensures Ascending(run[1..], run[0].hi)
  {}

  /** Evicting from an ascending run that reaches the pool end: a prefix of the run is dropped, and the
      window is a quarter of the pool or reaches the pool end. */
  lemma {:induction false} EvictAscending(run: seq<Block>, rest: seq<Block>, freedStart: nat, freedEnd: nat)
    returns (n: nat)
    requires freedStart <= freedEnd <= POOL && Ascending(run, freedEnd)
    requires EndAfter(run, |run|, freedEnd) == POOL
    requires POOL - freedStart >= QUARTER || (rest != [] && rest[0].hi < freedStart)
    ensures n <= |run|
    ensures EvictMore(run + rest, freedStart, freedEnd)
            == Some(Evicted(run[n..] + rest, run[..n], EndAfter(run, n, freedEnd)))
    ensures EndAfter(run, n, freedEnd) - freedStart >= QUARTER || n == |run|
    ensures n > 0 ==> EndAfter(run, n - 1, freedEnd) - freedStart < QUARTER
    decreases |run|
  {
    if freedEnd - freedStart >= QUARTER || run == [] {
      n := 0;
      assert run[0..] == run;
    } else {
      assert run[1..] == [] ==> EndAfter(run[1..], 0, run[0].hi) == POOL;
      AscendingTail(run, freedEnd);
      var m := EvictAscending(run[1..], rest, freedStart, run[0].hi);
      n := m + 1;
      EvictStep(run, rest, freedStart, freedEnd, m);
    }
  }

  /** One turn of the eviction loop that drops a block. */
  lemma EvictStep(run: seq<Block>, rest: seq<Block>, freedStart: nat, freedEnd: nat, m: nat)
    requires run != [] && m < |run| && freedEnd - freedStart < QUARTER && freedStart <= run[0].hi
    requires EvictMore(run[1..] + rest, freedStart, run[0].hi)
             == Some(Evicted(run[1..][m..] + rest, run[1..][..m], EndAfter(run[1..], m, run[0].hi)))
    ensures EvictMore(run + rest, freedStart, freedEnd) == Some(Evicted(run[m + 1..] + rest, run[..m + 1], run[m].hi))
    ensures EndAfter(run[1..], m, run[0].hi) == run[m].hi
    ensures m > 0 ==> EndAfter(run[1..], m - 1, run[0].hi) == run[m - 1].hi
  {
    assert (run + rest)[1..] == run[1..] + rest && (run + rest)[0] == run[0];
    TailOf(run, m);
  }

  lemma TailOf(run: seq<Block>, m: nat)
    requires run != [] && m <= |run| - 1
    ensures run[1..][m..] == run[m + 1..] && [run[0]] + run[1..][..m] == run[..m + 1]
  {}

  // ---------------------------------------------------------------------------------------------
  // Reset and allocation

  /** What a reset of a ring in order leaves: the oldest run without its first `n` blocks. */
  ghost predicate ResetTo(r: Ring, t: Ring, n: nat) {
    && 1 <= n <= |r.funcs|
    && t == Ring(r.funcs[0].lo, r.funcs[n - 1].hi, r.funcs[n..])
    && ResetBlocks(r) == Some((t, r.funcs[..n]))
  }

  /** Evicting from the front run [0, k) of the queue. */
  lemma ResetRun(r: Ring, k: nat) returns (n: nat)
    requires 1 <= k <= |r.funcs| && Ascending(r.funcs[..k], r.funcs[0].lo) && r.funcs[k - 1].hi == POOL
    requires POOL - r.funcs[0].lo >= QUARTER || (k < |r.funcs| && r.funcs[k].hi < r.funcs[0].lo)
    ensures 1 <= n <= k && ResetTo(r, Ring(r.funcs[0].lo, r.funcs[n - 1].hi, r.funcs[n..]), n)
    ensures r.funcs[n - 1].hi - r.funcs[0].lo >= QUARTER || n == k
    ensures n > 1 ==> r.funcs[n - 2].hi - r.funcs[0].lo < QUARTER
  {
    var first, front := r.funcs[0], r.funcs[..k];
    assert front[0] == first;
    AscendingTail(front, first.lo);
    var m := EvictAscending(front[1..], r.funcs[k..], first.lo, first.hi);
    n := m + 1;
    FrontEvicted(r, k, m);
  }

  /** Evicting the first `m` blocks behind the oldest one, as a reset. */
  lemma FrontEvicted(r: Ring, k: nat, m: nat)
    requires 1 <= k <= |r.funcs| && m < k
    requires var first, later := r.funcs[0], r.funcs[..k][1..];
             EvictMore(later + r.funcs[k..], first.lo, first.hi)
             == Some(Evicted(later[m..] + r.funcs[k..], later[..m], EndAfter(later, m, first.hi)))
    ensures ResetTo(r, Ring(r.funcs[0].lo, r.funcs[m].hi, r.funcs[m + 1..]), m + 1)
    ensures EndAfter(r.funcs[..k][1..], m, r.funcs[0].hi) == r.funcs[m].hi
    ensures m > 0 ==> EndAfter(r.funcs[..k][1..], m - 1, r.funcs[0].hi) == r.funcs[m - 1].hi
  {
    RunSlices(r.funcs, k, m);
  }

  lemma RunSlices(s: seq<Block>, k: nat, m: nat)
    requires 1 <= k <= |s| && m < k
    ensures s[..k][1..] + s[k..] == s[1..]
    ensures s[..k][1..][m..] + s[k..] == s[m + 1..]
    ensures [s[0]] + s[..k][1..][..m] == s[..m + 1]
  {}

  lemma ResetKeepsShape(r: Ring, t: Ring, n: nat)
    requires Shape(r) && ResetTo(r, t, n) && r.start <= t.start
    requires forall i :: 0 <= i < n ==> !Low(r, r.funcs[i])
    ensures Shape(t)
    ensures forall i :: 0 <= i < |t.funcs| ==> (Low(t, t.funcs[i]) <==> Low(r, r.funcs[n + i]))
  {
    forall i | 0 <= i < |t.funcs|
      ensures BlockOk(t, t.funcs[i]) && (Low(t, t.funcs[i]) <==> Low(r, r.funcs[n + i]))
    {
      assert t.funcs[i] == r.funcs[n + i] && BlockOk(r, r.funcs[n + i]);
      if !Low(r, r.funcs[n + i]) {
        assert InOrder(r, r.funcs[n - 1], r.funcs[n + i]) && InOrder(r, r.funcs[0], r.funcs[n + i]);
      }
    }
    assert BlockOk(r, r.funcs[n - 1]) && BlockOk(r, r.funcs[0]);
    if n > 1 { assert InOrder(r, r.funcs[0], r.funcs[n - 1]); }
    forall i, j | 0 <= i < j < |t.funcs| ensures InOrder(t, t.funcs[i], t.funcs[j]) {
      assert InOrder(r, r.funcs[n + i], r.funcs[n + j]);
    }
  }

  lemma {:induction false} HighsIs(r: Ring, n: nat, k: nat)
    requires k <= n <= |r.funcs| && forall i :: 0 <= i < n ==> (Low(r, r.funcs[i]) <==> k <= i)
    ensures Highs(r, n) == k
    decreases n
  {
    if k < n { HighsIs(r, n - 1, k); }
  }

  /** The front run of a ring that has wrapped. */
  lemma HighRun(r: Ring) returns (k: nat)
    requires RingInv(r) && Highs(r, |r.funcs|) > 0
    ensures k == Highs(r, |r.funcs|) && 1 <= k < |r.funcs| && r.funcs[k - 1].hi == POOL
    ensures Ascending(r.funcs[..k], r.funcs[0].lo) && r.start <= r.end <= r.funcs[0].lo
    ensures POOL - r.funcs[0].lo >= QUARTER || r.funcs[k].hi < r.funcs[0].lo
  {
    k := Highs(r, |r.funcs|);
    AtMostOneWrap(r);
    HighsSplit(r, |r.funcs|);
    assert Ascending(r.funcs[..k], r.funcs[0].lo) by {
      forall i | 0 <= i < k ensures r.funcs[0].lo <= r.funcs[i].lo < r.funcs[i].hi <= POOL {
        assert BlockOk(r, r.funcs[i]) && BlockOk(r, r.funcs[0]);
      }
    }
    assert BlockOk(r, r.funcs[k]) && BlockOk(r, r.funcs[0]);
  }

  /** The whole queue of a ring that has not wrapped, once the last block took the pool tail. */
  lemma FirstRound(r: Ring, pages: nat) returns (r1: Ring)
    requires RingInv(r) && Highs(r, |r.funcs|) == 0 && r.start + pages > r.end && pages <= QUARTER
    ensures AbsorbTail(r, pages) == Some(r1) && r1.funcs != [] && |r1.funcs| == |r.funcs|
    ensures Ascending(r1.funcs, 0) && r1.funcs[0].lo == 0 && r1.funcs[|r1.funcs| - 1].hi == POOL
    ensures forall i :: 0 <= i < |r1.funcs| ==>
              r1.funcs[i].hi - r1.funcs[i].lo <= QUARTER || r1.funcs[i].hi == POOL
    ensures forall i :: 0 <= i < |r.funcs| - 1 ==> r1.funcs[i] == r.funcs[i]
  {
    r1 := AbsorbTail(r, pages).value;
    AtMostOneWrap(r);
    forall i | 0 <= i < |r.funcs| ensures r.funcs[i].lo < r.funcs[i].hi <= POOL { assert BlockOk(r, r.funcs[i]); }
    forall i | 0 <= i < |r1.funcs| ensures r1.funcs[i].hi - r1.funcs[i].lo <= QUARTER || r1.funcs[i].hi == POOL {
      assert BlockOk(r, r.funcs[i]);
    }
  }

  lemma {:induction false} EvictBound(funcs: seq<Block>, freedStart: nat, freedEnd: nat)
    requires freedEnd <= POOL && forall i :: 0 <= i < |funcs| ==> funcs[i].hi <= POOL
    ensures EvictMore(funcs, freedStart, freedEnd).Some? ==> EvictMore(funcs, freedStart, freedEnd).value.freedEnd <= POOL
    decreases |funcs|
  {
    if funcs != [] { EvictBound(funcs[1..], freedStart, funcs[0].hi); }
  }

  /** A reset of a ring in order yields a window that is at least a quarter of the pool or ends at the
      pool end, starting at the oldest block, and evicts no more than that takes. A ring that has wrapped has
      no tail to give away: its newest block is not the one before the pool end. */
  lemma ResetWindow(r: Ring, pages: nat) returns (r1: Ring, t: Ring, n: nat)
    requires RingInv(r) && 1 <= pages <= QUARTER && r.start + pages > r.end
    requires Highs(r, |r.funcs|) > 0 ==> r.start + pages <= POOL
    ensures AbsorbTail(r, pages) == Some(r1) && ResetTo(r1, t, n)
    ensures r1.funcs[0].lo == r.funcs[0].lo && (n > 1 ==> r1.funcs[n - 2].hi - r1.funcs[0].lo < QUARTER)
    ensures t.start == r.funcs[0].lo && (t.end - t.start >= QUARTER || t.end == POOL)
    ensures Highs(r, |r.funcs|) == 0 ==> t.start == 0 && t.end >= QUARTER
    ensures Highs(r, |r.funcs|) > 0 ==> r1 == r && n <= Highs(r, |r.funcs|)
  {
    if Highs(r, |r.funcs|) == 0 {
      r1, n := ResetFirstRound(r, pages);
    } else {
      var k := HighRun(r);
      r1 := r;
      n := ResetRun(r1, k);
    }
    t := Ring(r1.funcs[0].lo, r1.funcs[n - 1].hi, r1.funcs[n..]);
  }

  lemma ResetFirstRound(r: Ring, pages: nat) returns (r1: Ring, n: nat)
    requires RingInv(r) && 1 <= pages <= QUARTER && r.start + pages > r.end && Highs(r, |r.funcs|) == 0
    ensures AbsorbTail(r, pages) == Some(r1) && 1 <= n <= |r1.funcs| && r1.funcs[0].lo == r.funcs[0].lo == 0
    ensures ResetTo(r1, Ring(0, r1.funcs[n - 1].hi, r1.funcs[n..]), n) && r1.funcs[n - 1].hi >= QUARTER
    ensures n > 1 ==> r1.funcs[n - 2].hi - r1.funcs[0].lo < QUARTER
  {
    r1 := FirstRound(r, pages);
    assert r1.funcs[..|r1.funcs|] == r1.funcs;
    n := ResetRun(r1, |r1.funcs|);
    if |r.funcs| == 1 { assert r1.funcs[0].lo == r.funcs[0].lo; }
  }

  /** A request of up to a quarter of the pool succeeds exactly when the window has room, or when it
      fits between the oldest live block and the end of the pool. */
  lemma AllocateFitsIff(r: Ring, pages: nat)
    requires RingInv(r) && 1 <= pages <= QUARTER
    ensures Allocate(r, pages).Some? <==>
              r.start + pages <= r.end || (r.funcs != [] && r.funcs[0].lo + pages <= POOL)
  {
    if r.start + pages > r.end {
      if r.funcs != [] && r.funcs[0].lo + pages <= POOL {
        if Highs(r, |r.funcs|) > 0 { var k := HighRun(r); }
        var r1, t, n := ResetWindow(r, pages);
      } else {
        DoesNotFit(r, pages);
      }
    }
  }

  lemma DoesNotFit(r: Ring, pages: nat)
    requires RingInv(r) && r.start + pages > r.end && r.funcs != [] && r.funcs[0].lo + pages > POOL
    ensures Allocate(r, pages).None?
  {
    forall i | 0 <= i < |r.funcs| ensures r.funcs[i].hi <= POOL { assert BlockOk(r, r.funcs[i]); }
    var r1 := AbsorbTail(r, pages).value;
    assert r1.funcs[0].lo == r.funcs[0].lo;
    EvictBound(r1.funcs[1..], r1.funcs[0].lo, r1.funcs[0].hi);
  }

  /** Pushing a block at the start of the window. */
  lemma PushKeepsShape(t: Ring, pages: nat, pc: nat, pcEnd: nat) returns (u: Ring)
    requires Shape(t) && 1 <= pages <= QUARTER && t.start + pages <= t.end
    ensures u == Ring(t.start + pages, t.end, t.funcs + [Block(pc, pcEnd, t.start, t.start + pages)]) && Shape(u)
    ensures forall i :: 0 <= i < |t.funcs| ==> (Low(u, u.funcs[i]) <==> Low(t, t.funcs[i]))
    ensures Low(u, u.funcs[|t.funcs|])
  {
    u := Ring(t.start + pages, t.end, t.funcs + [Block(pc, pcEnd, t.start, t.start + pages)]);
    forall i | 0 <= i < |t.funcs| ensures BlockOk(u, u.funcs[i]) && (Low(u, u.funcs[i]) <==> Low(t, t.funcs[i])) {
      assert BlockOk(t, t.funcs[i]);
    }
    forall i, j | 0 <= i < j < |u.funcs| ensures InOrder(u, u.funcs[i], u.funcs[j]) {
      assert BlockOk(t, t.funcs[i]);
      if j < |t.funcs| { assert InOrder(t, t.funcs[i], t.funcs[j]); }
    }
  }

  /** A ring whose window is about to receive a block: `k` high blocks reaching the pool end, and the
      low ones, if any, from the pool start. */
  ghost predicate Ready(t: Ring, k: nat) {
    && k <= |t.funcs|
    && (forall i :: 0 <= i < |t.funcs| ==> (Low(t, t.funcs[i]) <==> k <= i))
    && (if k == 0 then t.end == POOL else t.funcs[k - 1].hi == POOL)
    && (if k < |t.funcs| then t.funcs[k].lo == 0 else t.start == 0)
  }

  lemma PushKeepsInv(t: Ring, k: nat, pages: nat, pc: nat, pcEnd: nat)
    requires Shape(t) && Ready(t, k) && 1 <= pages <= QUARTER && t.start + pages <= t.end
    ensures RingInv(Ring(t.start + pages, t.end, t.funcs + [Block(pc, pcEnd, t.start, t.start + pages)]))
  {
    var u := PushKeepsShape(t, pages, pc, pcEnd);
    HighsIs(u, |u.funcs|, k);
  }

  lemma InvIsReady(r: Ring)
    requires RingInv(r)
    ensures Ready(r, Highs(r, |r.funcs|))
  {
    HighsSplit(r, |r.funcs|);
  }

  lemma WrappedShape(r: Ring, t: Ring, n: nat, k: nat)
    requires RingInv(r) && ResetTo(r, t, n) && n <= k == Highs(r, |r.funcs|)
    ensures Shape(t) && forall i :: 0 <= i < |t.funcs| ==> (Low(t, t.funcs[i]) <==> k - n <= i)
  {
    HighsSplit(r, |r.funcs|);
    assert BlockOk(r, r.funcs[0]);
    ResetKeepsShape(r, t, n);
    forall i | 0 <= i < |t.funcs| ensures Low(t, t.funcs[i]) <==> k - n <= i {
      assert t.funcs[i] == r.funcs[n + i];
    }
  }

  lemma WrappedIsReady(r: Ring, t: Ring, n: nat, k: nat)
    requires Anchored(r) && ResetTo(r, t, n) && n <= k == Highs(r, |r.funcs|)
    requires forall i :: 0 <= i < |t.funcs| ==> (Low(t, t.funcs[i]) <==> k - n <= i)
    ensures Ready(t, k - n)
  {
    assert k < |r.funcs| && r.funcs[k].lo == 0;
    assert n < k ==> t.funcs[k - n - 1] == r.funcs[k - 1];
    assert t.funcs[k - n] == r.funcs[k];
    assert n == k ==> t.end == r.funcs[k - 1].hi;
  }

  /** What an allocation that resets the ring amounts to. */
  lemma AllocateAfterReset(r: Ring, pages: nat, r1: Ring, t: Ring, n: nat)
    requires r.start + pages > r.end && AbsorbTail(r, pages) == Some(r1) && ResetTo(r1, t, n)
    requires t.start + pages <= t.end
    ensures Allocate(r, pages) == Some(Allocated(t.start, t.(start := t.start + pages), r1.funcs[..n]))
  {}

  /** The block lands at the start of the window it was allocated from. */
  lemma KeepsIfReady(t: Ring, k: nat, pages: nat, evicted: seq<Block>, pc: nat, pcEnd: nat)
    requires Shape(t) && Ready(t, k) && 1 <= pages <= QUARTER && t.start + pages <= t.end
    ensures RingInv(Push(Allocated(t.start, t.(start := t.start + pages), evicted), pages, pc, pcEnd))
  {
    PushKeepsInv(t, k, pages, pc, pcEnd);
  }

  /** Every successful allocation keeps the ring in order. */
  lemma AllocateKeeps(r: Ring, pages: nat, pc: nat, pcEnd: nat)
    requires RingInv(r) && 1 <= pages <= QUARTER && Allocate(r, pages).Some?
    ensures RingInv(Push(Allocate(r, pages).value, pages, pc, pcEnd))
  {
    AllocateFitsIff(r, pages);
    if r.start + pages <= r.end {
      InvIsReady(r);
      KeepsIfReady(r, Highs(r, |r.funcs|), pages, [], pc, pcEnd);
    } else if Highs(r, |r.funcs|) > 0 {
      var k0 := HighRun(r);
      var r1, t, n := ResetWindow(r, pages);
      WrappedShape(r, t, n, k0);
      WrappedIsReady(r, t, n, k0);
      AllocateAfterReset(r, pages, r1, t, n);
      KeepsIfReady(t, k0 - n, pages, r1.funcs[..n], pc, pcEnd);
    } else {
      var r1, t, n := ResetWindow(r, pages);
      var k := FirstIsReady(r, pages, r1, t, n);
      AllocateAfterReset(r, pages, r1, t, n);
      KeepsIfReady(t, k, pages, r1.funcs[..n], pc, pcEnd);
    }
  }

  lemma FirstIsReady(r: Ring, pages: nat, r1: Ring, t: Ring, n: nat) returns (k: nat)
    requires RingInv(r) && r.start + pages > r.end && pages <= QUARTER && AbsorbTail(r, pages) == Some(r1)
    requires ResetTo(r1, t, n) && (t.end - t.start >= QUARTER || t.end == POOL) && Highs(r, |r.funcs|) == 0
    ensures Shape(t) && Ready(t, k)
  {
    var r2 := FirstRound(r, pages);
    FirstRoundShape(r2, t, n);
    k := |t.funcs|;
  }

  /** After the first round everything left is above the new window. */
  lemma FirstRoundShape(r: Ring, t: Ring, n: nat)
    requires Ascending(r.funcs, 0) && ResetTo(r, t, n) && t.start == 0 && r.funcs[|r.funcs| - 1].hi == POOL
    requires forall i :: 0 <= i < |r.funcs| ==> r.funcs[i].hi - r.funcs[i].lo <= QUARTER || r.funcs[i].hi == POOL
    ensures Shape(t) && (forall i :: 0 <= i < |t.funcs| ==> !Low(t, t.funcs[i]))
    ensures if t.funcs == [] then t.end == POOL else t.funcs[|t.funcs| - 1].hi == POOL
  {
    forall i | 0 <= i < |t.funcs| ensures BlockOk(t, t.funcs[i]) && !Low(t, t.funcs[i]) {
      assert t.funcs[i] == r.funcs[n + i];
    }
    forall i, j | 0 <= i < j < |t.funcs| ensures InOrder(t, t.funcs[i], t.funcs[j]) {
      assert t.funcs[i] == r.funcs[n + i] && t.funcs[j] == r.funcs[n + j];
    }
  }

  // ---------------------------------------------------------------------------------------------
  // Whole runs

  datatype Request = Request(pages: nat, guestPc: nat, guestPcEnd: nat)

  /** The ring after a sequence of requests, or None as soon as one fails. */
  function Serve(r: Ring, requests: seq<Request>): Option<Ring>
    decreases |requests|
  {
    if requests == [] then Some(r)
    else
      var q := requests[0];
      match Allocate(r, q.pages)
      case None => None
      case Some(a) => Serve(Push(a, q.pages, q.guestPc, q.guestPcEnd), requests[1..])
  }

  /** Over every sequence of requests that is served, each of at most a quarter of the pool. */
  lemma {:induction false} ServeKeeps(r: Ring, requests: seq<Request>)
    requires RingInv(r) && forall i :: 0 <= i < |requests| ==> 1 <= requests[i].pages <= QUARTER
    ensures Serve(r, requests).Some? ==> RingInv(Serve(r, requests).value)
    decreases |requests|
  {
    if requests != [] && Allocate(r, requests[0].pages).Some? {
      var q := requests[0];
      AllocateKeeps(r, q.pages, q.guestPc, q.guestPcEnd);
      ServeKeeps(Push(Allocate(r, q.pages).value, q.pages, q.guestPc, q.guestPcEnd), requests[1..]);
    }
  }

  lemma FreshInOrder()
    ensures RingInv(Fresh())
  {}

  // ---------------------------------------------------------------------------------------------
  // A run that ends in a failure

  function B(lo: nat, hi: nat): Block { Block(0, 0, lo, hi) }

  /** One request of a run, served. */
  lemma Next(r: Ring, pages: nat, rest: seq<Request>, u: Ring)
    requires Allocate(r, pages).Some? && Push(Allocate(r, pages).value, pages, 0, 0) == u
    ensures Serve(r, [Request(pages, 0, 0)] + rest) == Serve(u, rest)
  {
    assert ([Request(pages, 0, 0)] + rest)[1..] == rest;
  }

  /** A reset that evicts exactly the two oldest blocks. */
  lemma ResetTwo(r: Ring, pages: nat)
    requires |r.funcs| >= 3 && r.start + pages > r.end && AbsorbTail(r, pages) == Some(r)
    requires r.funcs[0].lo <= r.funcs[0].hi == r.funcs[1].lo <= r.funcs[1].hi
    requires r.funcs[0].hi - r.funcs[0].lo < QUARTER <= r.funcs[1].hi - r.funcs[0].lo && r.funcs[0].lo + pages <= r.funcs[1].hi
    ensures Allocate(r, pages)
            == Some(Allocated(r.funcs[0].lo, Ring(r.funcs[0].lo + pages, r.funcs[1].hi, r.funcs[2..]), r.funcs[..2]))
  {
    var more := r.funcs[1..];
    assert more[0] == r.funcs[1] && more[1..] == r.funcs[2..];
    assert EvictMore(r.funcs[2..], r.funcs[0].lo, r.funcs[1].hi) == Some(Evicted(r.funcs[2..], [], r.funcs[1].hi));
    assert EvictMore(more, r.funcs[0].lo, r.funcs[0].hi) == Some(Evicted(r.funcs[2..], [r.funcs[1]], r.funcs[1].hi)) by {
      assert [more[0]] + [] == [r.funcs[1]];
    }
    assert [r.funcs[0]] + [r.funcs[1]] == r.funcs[..2];
  }

  const FILLED: Ring :=
    Ring(8192, POOL, [B(0, 2047), B(2047, 2730), B(2730, 4777), B(4777, 5460), B(5460, 7507), B(7507, 8191), B(8191, 8192)])

  /** One page is all that is left above the window, under a single one-page block. */
  const STUCK: Ring :=
    Ring(8191, 8191, [B(8191, 8192), B(0, 2000), B(2730, 4730), B(5460, 7460), B(7460, 8191)])

  function Sizes(pages: seq<nat>): seq<Request>
    decreases |pages|
  {
    if pages == [] then [] else [Request(pages[0], 0, 0)] + Sizes(pages[1..])
  }

  lemma SizesStep(r: Ring, pages: seq<nat>, u: Ring)
    requires pages != [] && Allocate(r, pages[0]).Some? && Push(Allocate(r, pages[0]).value, pages[0], 0, 0) == u
    ensures Serve(r, Sizes(pages)) == Serve(u, Sizes(pages[1..]))
  {
    Next(r, pages[0], Sizes(pages[1..]), u);
  }

  /** Bump allocation of a whole sequence of requests. */
  lemma {:induction false} FillRun(r: Ring, pages: seq<nat>, u: Ring)
    requires r.end == POOL
    requires pages == [] ==> u == r
    requires pages != [] ==>
      r.start + pages[0] <= POOL
      && Serve(Ring(r.start + pages[0], POOL, r.funcs + [B(r.start, r.start + pages[0])]), Sizes(pages[1..])) == Some(u)
    ensures Serve(r, Sizes(pages)) == Some(u)
  {
    if pages != [] {
      SizesStep(r, pages, Ring(r.start + pages[0], POOL, r.funcs + [B(r.start, r.start + pages[0])]));
    }
  }

  lemma FillsLater()
    ensures Serve(Ring(4777, POOL, FILLED.funcs[..3]), Sizes([683, 2047, 684, 1])) == Some(FILLED)
  {
    var s := FILLED.funcs;
    FillRun(FILLED, [], FILLED);
    assert s[..6] + [s[6]] == s && s[..5] + [s[5]] == s[..6] && s[..4] + [s[4]] == s[..5] && s[..3] + [s[3]] == s[..4];
    FillRun(Ring(8191, POOL, s[..6]), [1], FILLED);
    FillRun(Ring(7507, POOL, s[..5]), [684, 1], FILLED);
    FillRun(Ring(5460, POOL, s[..4]), [2047, 684, 1], FILLED);
    FillRun(Ring(4777, POOL, s[..3]), [683, 2047, 684, 1], FILLED);
  }

  lemma Fills()
    ensures Serve(Fresh(), Sizes([2047, 683, 2047, 683, 2047, 684, 1])) == Some(FILLED)
  {
    var s := FILLED.funcs;
    FillsLater();
    assert s[..2] + [s[2]] == s[..3] && s[..1] + [s[1]] == s[..2] && [] + [s[0]] == s[..1];
    FillRun(Ring(2730, POOL, s[..2]), [2047, 683, 2047, 684, 1], FILLED);
    FillRun(Ring(2047, POOL, s[..1]), [683, 2047, 683, 2047, 684, 1], FILLED);
    FillRun(Fresh(), [2047, 683, 2047, 683, 2047, 684, 1], FILLED);
  }

  const REFILLED_1: Ring := Ring(2000, 2730, FILLED.funcs[2..] + [B(0, 2000)])
  const REFILLED_2: Ring := Ring(4730, 5460, FILLED.funcs[4..] + [B(0, 2000), B(2730, 4730)])
  const REFILLED_3: Ring := Ring(7460, 8191, FILLED.funcs[6..] + [B(0, 2000), B(2730, 4730), B(5460, 7460)])

  lemma Refill1()
    ensures Serve(FILLED, Sizes([2000, 2000, 2000, 731])) == Serve(REFILLED_1, Sizes([2000, 2000, 731]))
  {
    var s := FILLED.funcs;
    assert s[6 := s[6].(hi := POOL)] == s;
    ResetTwo(FILLED, 2000);
    SizesStep(FILLED, [2000, 2000, 2000, 731], REFILLED_1);
  }

  lemma Refill2()
    ensures Serve(REFILLED_1, Sizes([2000, 2000, 731])) == Serve(REFILLED_2, Sizes([2000, 731]))
  {
    ResetTwo(REFILLED_1, 2000);
    assert REFILLED_1.funcs[2..] + [B(2730, 4730)] == REFILLED_2.funcs;
    SizesStep(REFILLED_1, [2000, 2000, 731], REFILLED_2);
  }

  lemma Refill3()
    ensures Serve(REFILLED_2, Sizes([2000, 731])) == Serve(REFILLED_3, Sizes([731]))
  {
    ResetTwo(REFILLED_2, 2000);
    assert REFILLED_2.funcs[2..] + [B(5460, 7460)] == REFILLED_3.funcs;
    SizesStep(REFILLED_2, [2000, 731], REFILLED_3);
  }

  lemma Refill4()
    ensures Serve(REFILLED_3, Sizes([731])) == Some(STUCK)
  {
    assert REFILLED_3.funcs + [B(7460, 8191)] == STUCK.funcs;
    SizesStep(REFILLED_3, [731], STUCK);
  }

  /** A reachable ring, in order, on which a request for two pages fails although the pool holds only five
      blocks. It takes requests of up to 2047 pages, just under the quarter of the pool that a reset is said
      to free: far more code than a block's 4096 guest bytes compile to. */
  lemma AllocateCanFail()
    ensures Serve(Fresh(), Sizes([2047, 683, 2047, 683, 2047, 684, 1])) == Some(FILLED)
    ensures Serve(FILLED, Sizes([2000, 2000, 2000, 731])) == Some(STUCK)
    ensures RingInv(STUCK) && Allocate(STUCK, 2).None?
  {
    FilledInOrder();
    StuckInOrder();
    StuckFails();
  }

  lemma FilledInOrder()
    ensures Serve(Fresh(), Sizes([2047, 683, 2047, 683, 2047, 684, 1])) == Some(FILLED) && RingInv(FILLED)
  {
    Fills();
    FreshInOrder();
    SizesInRange([2047, 683, 2047, 683, 2047, 684, 1]);
    ServeKeeps(Fresh(), Sizes([2047, 683, 2047, 683, 2047, 684, 1]));
  }

  lemma StuckReached()
    ensures Serve(FILLED, Sizes([2000, 2000, 2000, 731])) == Some(STUCK)
  {
    Refill1();
    Refill2();
    Refill3();
    Refill4();
  }

  lemma StuckSizes()
    ensures var sizes := Sizes([2000, 2000, 2000, 731]);
            forall i :: 0 <= i < |sizes| ==> 1 <= sizes[i].pages <= QUARTER
  {
    SizesInRange([2000, 2000, 2000, 731]);
  }

  lemma StuckInOrder()
    ensures Serve(FILLED, Sizes([2000, 2000, 2000, 731])) == Some(STUCK) && RingInv(STUCK)
  {
    FilledInOrder();
    StuckReached();
    StuckSizes();
    ServedInOrder(FILLED, Sizes([2000, 2000, 2000, 731]), STUCK);
  }

  lemma ServedInOrder(r: Ring, requests: seq<Request>, after: Ring)
    requires RingInv(r) && Serve(r, requests) == Some(after)
    requires forall i :: 0 <= i < |requests| ==> 1 <= requests[i].pages <= QUARTER
    ensures RingInv(after)
  {
    ServeKeeps(r, requests);
  }

  lemma StuckFails()
    requires RingInv(STUCK)
    ensures Allocate(STUCK, 2).None?
  {
    AllocateFitsIff(STUCK, 2);
  }

  lemma {:induction false} SizesInRange(pages: seq<nat>)
    requires forall i :: 0 <= i < |pages| ==> 1 <= pages[i] <= QUARTER
    ensures forall i :: 0 <= i < |Sizes(pages)| ==> 1 <= Sizes(pages)[i].pages <= QUARTER
    decreases |pages|
  {
    if pages != [] { SizesInRange(pages[1..]); }
  }
}
