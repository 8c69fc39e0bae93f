/**
 The code cache as the emulator runs it: the bump window and the block queue updated in place, the
 block-wise fill of `write_jit_entries`, and the eviction and invalidation loops. Every operation is
 proved to be its counterpart in `JitCache`, for which the invariants are proved.
 */
module JitMemoryImpl {
  import opened Arithmetic
  import opened CodeRing
  import opened EntryTable
  import opened JitCache
  import opened Seqs
  import opened Wrappers

  /** The slots of a set of halfwords. */
  function SlotsOf(halves: set<nat>): set<Slot> {
    set x | x in halves && HalfSlot(x).Some? :: HalfSlot(x).value
  }

  lemma SlotsOfRange(half: nat, n: nat)
    ensures SlotsOf(Range(half, half + n)) == SpanSlots(half, n)
  {
    forall s | s in SpanSlots(half, n) ensures s in SlotsOf(Range(half, half + n)) {
      var x: nat :| half <= x < half + n && HalfSlot(x) == Some(s);
      assert x in Range(half, half + n);
    }
  }

  lemma FillTwice(entries: map<Slot, nat>, a: set<Slot>, b: set<Slot>, value: Option<nat>)
    ensures Fill(Fill(entries, a, value), b, value) == Fill(entries, a + b, value)
  {}

  /** `w` consecutive entries from offset `o` of a map block. */
  function RunSlots(base: Slot, o: nat, w: nat): set<Slot> {
    set j: nat | o <= j < o + w :: At(base, j)
  }

  function At(base: Slot, j: nat): Slot { Slot(base.region, base.index + j) }

  /** A run inside one map block is the mirrored span. */
  lemma RunIsSpan(half: nat, w: nat, base: Slot)
    requires half % BLOCK + w <= BLOCK && MapBlock(half / BLOCK) == Some(base)
    ensures RunSlots(base, half % BLOCK, w) == SpanSlots(half, w)
  {
    var o := half % BLOCK;
    forall s | s in RunSlots(base, o, w) ensures s in SpanSlots(half, w) { RunInSpan(half, w, base, s); }
    forall s | s in SpanSlots(half, w) ensures s in RunSlots(base, o, w) { SpanInRun(half, w, base, s); }
  }

  lemma RunInSpan(half: nat, w: nat, base: Slot, s: Slot)
    requires MapBlock(half / BLOCK) == Some(base) && s in RunSlots(base, half % BLOCK, w) && half % BLOCK + w <= BLOCK
    ensures s in SpanSlots(half, w)
  {
    var j: nat :| half % BLOCK <= j < half % BLOCK + w && s == At(base, j);
    HalfInBlock(half, j, base);
    InSpan(half - half % BLOCK + j, half, w);
  }

  lemma SpanInRun(half: nat, w: nat, base: Slot, s: Slot)
    requires MapBlock(half / BLOCK) == Some(base) && s in SpanSlots(half, w) && half % BLOCK + w <= BLOCK
    ensures s in RunSlots(base, half % BLOCK, w)
  {
    var x: nat :| half <= x < half + w && HalfSlot(x) == Some(s);
    HalfInBlock(half, x - half + half % BLOCK, base);
    assert s == At(base, x - half + half % BLOCK);
  }

  lemma HalfInBlock(half: nat, j: nat, base: Slot)
    requires j < BLOCK && MapBlock(half / BLOCK) == Some(base)
    ensures half / BLOCK * BLOCK == half - half % BLOCK
    ensures HalfSlot(half - half % BLOCK + j) == Some(At(base, j))
  {
    var x := half / BLOCK * BLOCK + j;
    DivModIs(x, BLOCK, half / BLOCK, j);
    BlockInRegion(x);
    MirrorOffset(x, base.region);
    assert half / BLOCK * BLOCK * 2 / 2 == half / BLOCK * BLOCK;
  }

  /** The eviction loop is on its way to `target`, with the entries on their way to `finish`. */
  ghost predicate Evicting(funcs: seq<Block>, freedStart: nat, freedEnd: nat, dropped: seq<Block>,
                           entries: map<Slot, nat>, target: (Ring, seq<Block>), finish: map<Slot, nat>)
  {
    && EvictMore(funcs, freedStart, freedEnd).Some?
    && var e := EvictMore(funcs, freedStart, freedEnd).value;
       && target == (Ring(freedStart, e.freedEnd, e.left), dropped + e.dropped)
       && ClearBlocks(entries, e.dropped) == finish
  }

  lemma EvictingStarts(r: Ring, entries: map<Slot, nat>)
    requires ResetBlocks(r).Some?
    ensures var target := ResetBlocks(r).value;
            Evicting(r.funcs[1..], r.funcs[0].lo, r.funcs[0].hi, [r.funcs[0]],
                     Fill(entries, BlockSlots(r.funcs[0]), None), target, ClearBlocks(entries, target.1))
  {
    var e := EvictMore(r.funcs[1..], r.funcs[0].lo, r.funcs[0].hi).value;
    assert ([r.funcs[0]] + e.dropped)[1..] == e.dropped;
  }

  lemma EvictingGoesOn(funcs: seq<Block>, freedStart: nat, freedEnd: nat, dropped: seq<Block>,
                       entries: map<Slot, nat>, target: (Ring, seq<Block>), finish: map<Slot, nat>)
    requires Evicting(funcs, freedStart, freedEnd, dropped, entries, target, finish)
    requires freedEnd - freedStart < QUARTER
    ensures funcs != []
  {}

  lemma EvictingStep(funcs: seq<Block>, freedStart: nat, freedEnd: nat, dropped: seq<Block>,
                     entries: map<Slot, nat>, target: (Ring, seq<Block>), finish: map<Slot, nat>)
    requires Evicting(funcs, freedStart, freedEnd, dropped, entries, target, finish)
    requires freedEnd - freedStart < QUARTER && funcs != [] && freedStart <= funcs[0].hi
    ensures Evicting(funcs[1..], freedStart, funcs[0].hi, dropped + [funcs[0]],
                     Fill(entries, BlockSlots(funcs[0]), None), target, finish)
  {
    var e := EvictMore(funcs[1..], freedStart, funcs[0].hi).value;
    assert ([funcs[0]] + e.dropped)[1..] == e.dropped;
    assert dropped + ([funcs[0]] + e.dropped) == (dropped + [funcs[0]]) + e.dropped;
  }

  lemma EvictingEnds(funcs: seq<Block>, freedStart: nat, freedEnd: nat, dropped: seq<Block>,
                     entries: map<Slot, nat>, target: (Ring, seq<Block>), finish: map<Slot, nat>)
    requires Evicting(funcs, freedStart, freedEnd, dropped, entries, target, finish)
    requires freedEnd - freedStart >= QUARTER || (funcs != [] && funcs[0].hi < freedStart)
    ensures target == (Ring(freedStart, freedEnd, funcs), dropped) && entries == finish
  {
    assert dropped + [] == dropped;
  }

  predicate Mapped(halves: set<nat>) { forall x :: x in halves ==> HalfSlot(x).Some? }

  lemma TouchedStep(half: nat, n: nat, w: nat, next: nat, rest: nat)
    requires n > 0 && w == Min(BLOCK - half % BLOCK, n) && next == AlignUp(half) && rest == n - w
    requires Mapped(Touched(half, n))
    ensures MapBlock(half / BLOCK).Some? && Mapped(Touched(next, rest))
  {
    assert half in Range(half, half + w);
    HalfMapped(half);
  }

  /** One fill of the entry loop, added to those before it. */
  lemma WriteChunk(before: map<Slot, nat>, done: set<Slot>, half: nat, n: nat, w: nat, next: nat, rest: nat, value: Option<nat>)
    requires n > 0 && w == Min(BLOCK - half % BLOCK, n) && next == AlignUp(half) && rest == n - w
    ensures Fill(Fill(before, done, value), SpanSlots(half, w), value) == Fill(before, done + SpanSlots(half, w), value)
    ensures done + SlotsOf(Touched(half, n)) == done + SpanSlots(half, w) + SlotsOf(Touched(next, rest))
  {
    FillTwice(before, done, SpanSlots(half, w), value);
    SlotsOfRange(half, w);
    SlotsOfUnion(Range(half, half + w), Touched(next, rest));
  }

  class JitMemory {
    var start: nat
    var end: nat
    var funcs: seq<Block>
    var entries: map<Slot, nat>
    var live: set<LiveBit>

    function State(): Cache
      reads this
    {
      Cache(Ring(start, end, funcs), entries, live)
    }

    constructor ()
      ensures State() == Empty() && CacheInv(State())
    {
      start, end, funcs, entries, live := 0, POOL, [], map[], {};
      new;
      FreshInOrder();
    }

    /** One fill of `write_jit_entries`, inside one map block. */
    method WriteRun(half: nat, w: nat, value: Option<nat>)
      requires MapBlock(half / BLOCK).Some? && half % BLOCK + w <= BLOCK
      modifies this`entries
      ensures entries == Fill(old(entries), SpanSlots(half, w), value)
    {
      var base := MapBlock(half / BLOCK).value;
      entries := Fill(entries, RunSlots(base, half % BLOCK, w), value);
      RunIsSpan(half, w, base);
    }

    /** `write_jit_entries`: one fill per map block, over whatever the address stepping reaches. */
    method WriteEntries(addr: nat, size: nat, value: Option<nat>)
      requires Mapped(Touched((addr % SPACE) / 2, size / 2))
      modifies this`entries
      ensures entries == Fill(old(entries), SlotsOf(Touched((addr % SPACE) / 2, size / 2)), value)
    {
      var half: nat, n: nat := (addr % SPACE) / 2, size / 2;
      ghost var done: set<Slot> := {};
      ghost var all := SlotsOf(Touched(half, n));
      assert entries == Fill(entries, {}, value);
      while n > 0
        invariant Mapped(Touched(half, n))
        invariant entries == Fill(old(entries), done, value) && done + SlotsOf(Touched(half, n)) == all
        decreases n
      {
        var w := Min(BLOCK - half % BLOCK, n);
        var next: nat, rest: nat := AlignUp(half), n - w;
        TouchedStep(half, n, w, next, rest);
        WriteRun(half, w, value);
        WriteChunk(old(entries), done, half, n, w, next, rest, value);
        done := done + SpanSlots(half, w);
        half, n := next, rest;
      }
      assert SlotsOf(Touched(half, 0)) == {};
    }

    /** Spans of at most one map block are written exactly. */
    method WriteSpan(addr: nat, size: nat, value: Option<nat>)
      requires addr < SPACE && size / 2 <= BLOCK
      requires forall x :: addr / 2 <= x < addr / 2 + size / 2 ==> HalfSlot(x).Some?
      modifies this`entries
      ensures entries == Fill(old(entries), Slots(addr, size), value)
    {
      assert (addr % SPACE) / 2 == addr / 2;
      assert Mapped(Range(addr / 2, addr / 2 + size / 2));
      CoversIff(addr / 2, size / 2);
      SlotsOfRange(addr / 2, size / 2);
      WriteEntries(addr, size, value);
    }

    /** The entries of one block, back to the default. */
    method ClearBlock(b: Block)
      requires SpanMapped(b)
      modifies this`entries
      ensures entries == Fill(old(entries), BlockSlots(b), None)
    {
      WriteSpan(b.guestPc, b.guestPcEnd - b.guestPc, None);
    }

    /** `reset_blocks`, on a ring where it does not run out of blocks. */
    method DoResetBlocks() returns (ghost dropped: seq<Block>)
      requires ResetBlocks(Ring(start, end, funcs)).Some? && forall b :: b in funcs ==> SpanMapped(b)
      modifies this
      ensures Some((Ring(start, end, funcs), dropped)) == ResetBlocks(old(Ring(start, end, funcs)))
      ensures entries == ClearBlocks(old(entries), dropped) && live == old(live)
      ensures forall b :: b in funcs ==> SpanMapped(b)
    {
      ghost var target := ResetBlocks(Ring(start, end, funcs)).value;
      ghost var finish := ClearBlocks(entries, target.1);
      var oldest := funcs[0];
      EvictingStarts(Ring(start, end, funcs), entries);
      ClearBlock(oldest);
      dropped := [oldest];
      funcs := funcs[1..];
      var freedStart: nat, freedEnd: nat := oldest.lo, oldest.hi;
      while freedEnd - freedStart < QUARTER
        invariant forall b :: b in funcs ==> SpanMapped(b)
        invariant Evicting(funcs, freedStart, freedEnd, dropped, entries, target, finish) && live == old(live)
        decreases |funcs|
      {
        EvictingGoesOn(funcs, freedStart, freedEnd, dropped, entries, target, finish);
        var front := funcs[0];
        if front.hi < freedStart {
          break;
        }
        EvictingStep(funcs, freedStart, freedEnd, dropped, entries, target, finish);
        ClearBlock(front);
        dropped := dropped + [front];
        freedEnd := front.hi;
        funcs := funcs[1..];
      }
      EvictingEnds(funcs, freedStart, freedEnd, dropped, entries, target, finish);
      start, end := freedStart, freedEnd;
    }

    /** `allocate_block`, for a request that can be served. */
    method DoAllocate(pages: nat) returns (addr: nat, flushed: bool, ghost evicted: seq<Block>)
      requires Allocate(Ring(start, end, funcs), pages).Some? && forall b :: b in funcs ==> SpanMapped(b)
      modifies this
      ensures Some(Allocated(addr, Ring(start, end, funcs), evicted)) == Allocate(old(Ring(start, end, funcs)), pages)
      ensures entries == ClearBlocks(old(entries), evicted) && live == old(live)
      ensures forall b :: b in funcs ==> SpanMapped(b)
      ensures flushed == (old(start) + pages > old(end))
    {
      flushed := false;
      evicted := [];
      if start + pages > end {
        if start + pages > POOL {
          var last := |funcs| - 1;
          assert SpanMapped(funcs[last]);
          funcs := funcs[last := funcs[last].(hi := POOL)];
          assert SpanMapped(funcs[last]);
        }
        evicted := DoResetBlocks();
        flushed := true;
      }
      addr := start;
      start := start + pages;
    }

    /** The loop of `jit_set_live_range`. */
    method SetLiveRange(first: nat, last: nat)
      modifies this`live
      ensures live == old(live) + LiveSpan(first, last)
    {
      var i := first / LIVE_PAGE;
      while i <= last / LIVE_PAGE
        invariant first / LIVE_PAGE <= i
        invariant live == old(live) + set j | first / LIVE_PAGE <= j < i && j <= last / LIVE_PAGE
                                              && LiveBitOf(j * LIVE_PAGE).Some? :: LiveBitOf(j * LIVE_PAGE).value
        decreases last / LIVE_PAGE + 1 - i
      {
        if LiveBitOf(i * LIVE_PAGE).Some? {
          live := live + {LiveBitOf(i * LIVE_PAGE).value};
        }
        i := i + 1;
      }
    }

    /** `jit_insert_block`. */
    method InsertBlock(pages: nat, pc: nat, pcEnd: nat, thumb: bool) returns (addr: nat, flushed: bool)
      requires GuestSpan(pc, pcEnd, thumb)
      requires Allocate(Ring(start, end, funcs), pages).Some? && forall b :: b in funcs ==> SpanMapped(b)
      modifies this
      ensures Some(State()) == Insert(old(State()), pages, pc, pcEnd, thumb)
      ensures forall b :: b in funcs ==> SpanMapped(b)
    {
      ghost var evicted;
      addr, flushed, evicted := DoAllocate(pages);
      GuestSpanMapped(pc, pcEnd, thumb, addr, addr + pages);
      WriteSpan(pc, pcEnd - pc, Some(addr));
      var t := if thumb then 1 else 0;
      funcs := funcs + [Block(pc + t, pcEnd + t, addr, addr + pages)];
      SetLiveRange(pc, pcEnd - JitCache.Step(thumb));
    }

    /** The first eight blocks over an address. */
    method CollectOverlapping(addr: nat) returns (spans: seq<Block>)
      requires forall b :: b in funcs ==> SpanMapped(b)
      ensures spans == Overlapping(funcs, addr, MAX_SPANS) && forall b :: b in spans ==> SpanMapped(b)
    {
      spans := [];
      var i := 0;
      assert funcs[0..] == funcs;
      while i < |funcs|
        invariant 0 <= i <= |funcs| && |spans| <= MAX_SPANS
        invariant Overlapping(funcs, addr, MAX_SPANS) == spans + Overlapping(funcs[i..], addr, MAX_SPANS - |spans|)
        invariant forall b :: b in spans ==> SpanMapped(b)
      {
        var b := funcs[i];
        assert funcs[i..][0] == b && funcs[i..][1..] == funcs[i + 1..];
        OverlappingStep(spans, funcs[i..], addr, MAX_SPANS - |spans|);
        if b.guestPc / 2 * 2 <= addr < b.guestPcEnd / 2 * 2 {
          if |spans| < MAX_SPANS {
            spans := spans + [b];
          }
        }
        i := i + 1;
      }
    }

    /** `invalidate_overlapping_blocks`: at most eight spans are collected, then cleared. */
    method InvalidateOverlapping(addr: nat)
      requires forall b :: b in funcs ==> SpanMapped(b)
      modifies this`entries
      ensures entries == ClearBlocks(old(entries), Overlapping(funcs, addr, MAX_SPANS))
    {
      var spans := CollectOverlapping(addr);
      ghost var finish := ClearBlocks(entries, spans);
      var k := 0;
      assert spans[0..] == spans;
      while k < |spans|
        invariant 0 <= k <= |spans| && ClearBlocks(entries, spans[k..]) == finish
      {
        assert spans[k..][0] == spans[k] && spans[k..][1..] == spans[k + 1..];
        ClearBlock(spans[k]);
        k := k + 1;
      }
      assert spans[k..] == [];
    }

    /** One half of `invalidate_block`. */
    method DoInvalidateAt(addr: nat) returns (hit: bool)
      requires addr < SPACE && LiveBitOf(addr).Some? && forall b :: b in funcs ==> SpanMapped(b)
      modifies this`entries, this`live
      ensures State() == InvalidateAt(old(State()), addr) && hit == (LiveBitOf(addr).value in old(live))
    {
      var bit := LiveBitOf(addr).value;
      hit := bit in live;
      if hit {
        live := live - {bit};
        PageMapped(addr);
        WriteSpan(PageBase(addr, LIVE_PAGE), LIVE_PAGE, None);
        InvalidateOverlapping(addr);
      }
    }

    /** `invalidate_block`: the pages of the first and the last written byte. */
    method DoInvalidateBlock(addr: nat, size: nat) returns (hit: bool)
      requires size > 0 && addr + size <= SPACE && LiveBitOf(addr).Some? && LiveBitOf(addr + size - 1).Some?
      requires forall b :: b in funcs ==> SpanMapped(b)
      modifies this`entries, this`live
      ensures State() == InvalidateBlock(old(State()), addr, size)
      ensures hit == (old(State()).live != live)
    {
      var first := DoInvalidateAt(addr);
      var second := DoInvalidateAt(addr + size - 1);
      hit := first || second;
    }

    /** `invalidate_blocks`, over `count` pages. */
    method DoInvalidatePages(page: nat, count: nat)
      requires (page + count) * LIVE_PAGE <= SPACE
      requires forall i: nat :: page <= i < page + count ==> LiveBitOf(i * LIVE_PAGE).Some?
      modifies this`entries, this`live
      ensures State() == InvalidatePages(old(State()), page, count)
    {
      ghost var target := InvalidatePages(State(), page, count);
      var i := page;
      while i < page + count
        invariant page <= i <= page + count && InvalidatePages(State(), i, page + count - i) == target
      {
        var addr := i * LIVE_PAGE;
        var bit := LiveBitOf(addr).value;
        if bit in live {
          live := live - {bit};
          PageMapped(addr);
          WriteSpan(PageBase(addr, LIVE_PAGE), LIVE_PAGE, None);
        }
        i := i + 1;
      }
    }

    /** `invalidate_mmu_page`: the loop zeroes the live-range byte of each of the sixteen pages. */
    method DoInvalidateMmuPage(addr: nat)
      requires addr < SPACE && LiveBitOf(PageBase(addr, MMU_PAGE)).Some?
      modifies this`entries, this`live
      ensures State() == InvalidateMmuPage(old(State()), addr)
    {
      var base := PageBase(addr, MMU_PAGE);
      MmuPageMapped(addr);
      WriteSpan(base, MMU_PAGE, None);
      var k: nat := 0;
      while k < 16
        invariant k <= 16 && entries == Fill(old(entries), Slots(base, MMU_PAGE), None)
        invariant live == old(live) - ((if k > 0 then ByteBits(base) else {}) + (if k > 8 then ByteBits(base + 2048) else {}))
      {
        MmuBytes(base, k);
        live := live - ByteBits(base + k * LIVE_PAGE);
        k := k + 1;
      }
    }
  }

  /** The sixteen live pages of an mmu page share its two live-range bytes. */
  lemma MmuBytes(base: nat, k: nat)
    requires base % MMU_PAGE == 0 && k < 16
    ensures ByteBits(base + k * LIVE_PAGE) == ByteBits(if k < 8 then base else base + 2048)
  {
    HalfPages(base);
    var at, bit := if k < 8 then base else base + 2048, if k < 8 then k else k - 8;
    assert base + k * LIVE_PAGE == at + bit * LIVE_PAGE;
    ByteShared(at, bit);
  }

  lemma ByteShared(at: nat, bit: nat)
    requires at % 2048 == 0 && bit < 8
    ensures ByteBits(at + bit * LIVE_PAGE) == ByteBits(at)
  {
    ByteAddress(at, bit);
    SameByte(at + bit * LIVE_PAGE, at);
  }

  lemma SameByte(a: nat, b: nat)
    requires a / 2048 == b / 2048 && a / REGION_SIZE == b / REGION_SIZE
    ensures ByteBits(a) == ByteBits(b)
  {}

  lemma MmuPageMapped(addr: nat)
    requires addr < SPACE && LiveBitOf(PageBase(addr, MMU_PAGE)).Some?
    ensures PageBase(addr, MMU_PAGE) % MMU_PAGE == 0 && PageBase(addr, MMU_PAGE) + MMU_PAGE <= SPACE
    ensures forall x: nat :: PageBase(addr, MMU_PAGE) / 2 <= x < PageBase(addr, MMU_PAGE) / 2 + 2048 ==> HalfSlot(x).Some?
  {
    var base := PageBase(addr, MMU_PAGE);
    MmuBase(addr);
    forall x: nat | base / 2 <= x < base / 2 + 2048 ensures HalfSlot(x).Some? {
      SameRegion(base, x);
    }
  }

  /** A 4 KB page lies in one region. */
  lemma SameRegion(base: nat, x: nat)
    requires base % MMU_PAGE == 0 && base / 2 <= x < base / 2 + 2048
    ensures 2 * x / REGION_SIZE == base / REGION_SIZE
  {
    PageInRegion(base / 4096, 0);
    PageInRegion(base / 4096, 2 * x - base);
  }

  lemma PageInRegion(page: nat, o: nat)
    requires o < 4096
    ensures (page * 4096 + o) / 0x100_0000 == page / 4096
  {
    var q, m := page / 4096, page % 4096;
    DivModIs(page * 4096 + o, 0x100_0000, q, m * 4096 + o);
  }

  /** One turn of the collecting loop. */
  lemma OverlappingStep(spans: seq<Block>, rest: seq<Block>, addr: nat, room: nat)
    requires rest != []
    ensures var more := rest[0].guestPc / 2 * 2 <= addr < rest[0].guestPcEnd / 2 * 2 && room > 0;
            spans + Overlapping(rest, addr, room)
            == if more then (spans + [rest[0]]) + Overlapping(rest[1..], addr, room - 1)
               else spans + Overlapping(rest[1..], addr, room)
  {
    if room > 0 { Append3(spans, [rest[0]], Overlapping(rest[1..], addr, room - 1)); }
  }

  /** A block's span lies in one code region, so that every entry it writes exists. */
  predicate SpanMapped(b: Block) {
    && b.guestPc <= b.guestPcEnd < SPACE + 2 && b.guestPcEnd - b.guestPc < MMU_PAGE && b.guestPc < SPACE
    && forall x: nat :: b.guestPc / 2 <= x < b.guestPc / 2 + (b.guestPcEnd - b.guestPc) / 2 ==> HalfSlot(x).Some?
  }

  lemma SlotsOfUnion(a: set<nat>, b: set<nat>)
    ensures SlotsOf(a + b) == SlotsOf(a) + SlotsOf(b)
  {
    forall s | s in SlotsOf(a) + SlotsOf(b) ensures s in SlotsOf(a + b) {
      var x :| x in a + b && HalfSlot(x) == Some(s);
    }
  }

  lemma HalfMapped(half: nat)
    requires HalfSlot(half).Some?
    ensures MapBlock(half / BLOCK).Some?
  {
    BlockInRegion(half);
  }

  lemma RegionRange(a: nat, b: nat, x: nat)
    requires a <= x <= b && RegionOf(a).Some? && RegionOf(b) == RegionOf(a)
    ensures RegionOf(x) == RegionOf(a)
  {}

  lemma GuestSpanMapped(pc: nat, pcEnd: nat, thumb: bool, lo: nat, hi: nat)
    requires GuestSpan(pc, pcEnd, thumb)
    ensures forall x: nat :: pc / 2 <= x < pc / 2 + (pcEnd - pc) / 2 ==> HalfSlot(x).Some?
    ensures SpanMapped(Block(pc + (if thumb then 1 else 0), pcEnd + (if thumb then 1 else 0), lo, hi))
  {
    forall x: nat | pc / 2 <= x < pc / 2 + (pcEnd - pc) / 2 ensures HalfSlot(x).Some? {
      RegionRange(pc, pcEnd - 1, 2 * x);
    }
    assert (pc + 1) / 2 == pc / 2;
  }

  lemma PageMapped(addr: nat)
    requires addr < SPACE && LiveBitOf(addr).Some?
    ensures PageBase(addr, LIVE_PAGE) < SPACE
    ensures forall x: nat :: PageBase(addr, LIVE_PAGE) / 2 <= x < PageBase(addr, LIVE_PAGE) / 2 + LIVE_PAGE / 2 ==> HalfSlot(x).Some?
  {
    PageHalves(addr, 0);
    forall x: nat | addr / LIVE_PAGE * 128 <= x < addr / LIVE_PAGE * 128 + 128 ensures HalfSlot(x).Some? {
      PageHalves(addr, x - addr / LIVE_PAGE * 128);
    }
  }
}
