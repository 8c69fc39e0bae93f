/**
 The jit entry table, the live-page bitmap and the lookups that collapse memory mirrors onto them.

 Guest addresses are below 2^28. An entry slot is one halfword of a code region; a live bit is one
 256-byte page of guest RAM.

 - `EntryIsMirrored`, `LiveBitIsMirrored`: the block-wise pointer maps agree with plain modulo indexing,
   and a slot's live bit is a function of the slot;
 - `CoversIff`: `write_jit_entries` writes exactly the span it is given if and only if the span ends
   within one map block of its first block boundary.
 */
module EntryTable {
  import opened Arithmetic
  import opened CodeRing
  import opened Wrappers

  const SPACE := 0x1000_0000
  const REGION_SIZE := 0x100_0000
  const BLOCK := 8192
  const LIVE_PAGE := 256

  datatype Region = Ewram | Iwram | Rom

  /** One entry of the jit table: a halfword of a region, mirrors collapsed. */
  datatype Slot = Slot(region: Region, index: nat)

  /** One bit of the live-range bytes. */
  datatype LiveBit = LiveBit(region: Region, byte: nat, bit: nat)

  /** Entries of a region, one per halfword. */
  function Entries(r: Region): nat {
    match r
    case Ewram => 0x2_0000
    case Iwram => 0x4000
    case Rom => 0x100_0000
  }

  /** Live-range bytes of a RAM region; the rom has none. */
  function LiveBytes(r: Region): nat {
    match r
    case Ewram => 128
    case Iwram => 16
    case Rom => 0
  }

  function RegionOf(addr: nat): Option<Region> {
    var top := addr / REGION_SIZE;
    if top == 2 then Some(Ewram)
    else if top == 3 then Some(Iwram)
    else if 8 <= top < 14 then Some(Rom)
    else None
  }

  // ---------------------------------------------------------------------------------------------
  // The pointer maps

  /** Entry of `JitMemoryMap::map`: where the entries of the i-th block of 8192 halfwords begin. */
  function MapBlock(i: nat): Option<Slot> {
    var addr := i * BLOCK * 2;
    match RegionOf(addr)
    case None => None
    case Some(r) => Some(Slot(r, (addr / 2) % Entries(r)))
  }

  /** `get_jit_entry`: the map block, then a plain offset into it. */
  function JitEntry(addr: nat): Option<Slot> {
    var half := (addr % SPACE) / 2;
    match MapBlock(half / BLOCK)
    case None => None
    case Some(base) => Some(Slot(base.region, base.index + half % BLOCK))
  }

  /** The slot of a halfword address, by modulo. */
  function HalfSlot(half: nat): Option<Slot> {
    match RegionOf(2 * half)
    case None => None
    case Some(r) => Some(Slot(r, half % Entries(r)))
  }

  lemma BlockInRegion(half: nat)
    ensures RegionOf(half / BLOCK * BLOCK * 2) == RegionOf(2 * half)
  {
    assert half / BLOCK * BLOCK * 2 / REGION_SIZE == 2 * half / REGION_SIZE by {
      var q := 2 * half / REGION_SIZE;
      assert half / BLOCK >= q * 1024 && half / BLOCK < (q + 1) * 1024;
    }
  }

  lemma MirrorOffset(half: nat, r: Region)
    ensures (half / BLOCK * BLOCK) % Entries(r) + half % BLOCK == half % Entries(r)
  {
    var q, o := half / 8192, half % 8192;
    match r {
      case Ewram =>
        DivModIs(half, 0x2_0000, q / 16, q % 16 * 8192 + o);
        DivModIs(q * 8192, 0x2_0000, q / 16, q % 16 * 8192);
      case Iwram =>
        DivModIs(half, 0x4000, q / 2, q % 2 * 8192 + o);
        DivModIs(q * 8192, 0x4000, q / 2, q % 2 * 8192);
      case Rom =>
        DivModIs(half, 0x100_0000, q / 2048, q % 2048 * 8192 + o);
        DivModIs(q * 8192, 0x100_0000, q / 2048, q % 2048 * 8192);
    }
  }

  /** Mirrors collapse onto one table per region, and no lookup runs over the end of a table. */
  lemma EntryIsMirrored(addr: nat)
    ensures JitEntry(addr) == HalfSlot((addr % SPACE) / 2)
    ensures JitEntry(addr).Some? ==> JitEntry(addr).value.index < Entries(JitEntry(addr).value.region)
  {
    var half := (addr % SPACE) / 2;
    BlockInRegion(half);
    assert half / BLOCK * BLOCK * 2 / 2 == half / BLOCK * BLOCK;
    match RegionOf(2 * half) {
      case None =>
      case Some(r) => MirrorOffset(half, r);
    }
  }

  /** `get_live_range` with the bit the callers select: one byte holds the bits of eight pages. */
  function LiveBitOf(addr: nat): Option<LiveBit> {
    match RegionOf(addr)
    case None => None
    case Some(r) =>
      if r.Rom? then None
      else Some(LiveBit(r, (addr / 2048) % LiveBytes(r), (addr / LIVE_PAGE) % 8))
  }

  /** The bit of the page a RAM slot lies in. */
  function SlotBit(s: Slot): LiveBit {
    LiveBit(s.region, s.index / 1024, (s.index / 128) % 8)
  }

  lemma PageArithmetic(half: nat, r: Region)
    requires !r.Rom?
    ensures (half % Entries(r)) / 1024 == (half / 1024) % LiveBytes(r)
    ensures ((half % Entries(r)) / 128) % 8 == (half / 128) % 8
  {
    var p, o := half / 128, half % 128;
    var b := p / 8;
    DivModIs(half, 1024, b, p % 8 * 128 + o);
    match r {
      case Ewram =>
        DivModIs(half, 0x2_0000, b / 128, b % 128 * 1024 + p % 8 * 128 + o);
        DivModIs(half % 0x2_0000, 128, b % 128 * 8 + p % 8, o);
      case Iwram =>
        DivModIs(half, 0x4000, b / 16, b % 16 * 1024 + p % 8 * 128 + o);
        DivModIs(half % 0x4000, 128, b % 16 * 8 + p % 8, o);
    }
  }

  /** All mirrors of a RAM halfword share one live bit, and it is the bit of its slot. */
  lemma LiveBitIsMirrored(addr: nat)
    requires RegionOf(addr).Some? && !RegionOf(addr).value.Rom?
    ensures HalfSlot(addr / 2).Some? && LiveBitOf(addr) == Some(SlotBit(HalfSlot(addr / 2).value))
  {
    var r := RegionOf(addr).value;
    assert RegionOf(2 * (addr / 2)) == Some(r);
    PageArithmetic(addr / 2, r);
    assert addr / 2 / 1024 == addr / 2048 && addr / 2 / 128 == addr / LIVE_PAGE;
  }

  // ---------------------------------------------------------------------------------------------
  // Writing a span of entries

  /** The slots of the halfwords [half, half + n). */
  function SpanSlots(half: nat, n: nat): set<Slot> {
    set x | half <= x < half + n && HalfSlot(x).Some? :: HalfSlot(x).value
  }

  lemma InSpan(x: nat, half: nat, n: nat)
    requires half <= x < half + n && HalfSlot(x).Some?
    ensures HalfSlot(x).value in SpanSlots(half, n)
  {}

  /** Entries of `slots` set to `value`, or back to the default. */
  function Fill(entries: map<Slot, nat>, slots: set<Slot>, value: Option<nat>): map<Slot, nat> {
    match value
    case None => entries - slots
    case Some(v) => map s | s in entries.Keys + slots :: if s in slots then v else entries[s]
  }

  /** The next block boundary, or the address itself on one. */
  function AlignUp(half: nat): nat {
    (half + 8191) / 8192 * 8192
  }

  /** The halfwords `write_jit_entries` touches: it steps by rounding the address up to the next block,
      which does not move an address that is already on a block boundary. */
  function Touched(half: nat, n: nat): set<nat>
    decreases n
  {
    if n == 0 then {}
    else
      var w := Min(BLOCK - half % BLOCK, n);
      Range(half, half + w) + Touched(AlignUp(half), n - w)
  }

  function Range(lo: nat, hi: nat): (r: set<nat>)
    ensures forall x: nat :: x in r <==> lo <= x < hi
    decreases hi - lo
  {
    if lo < hi then {lo} + Range(lo + 1, hi) else {}
  }

  /** The most a span may hold for the loop to reach its end. */
  function Reach(half: nat): nat {
    BLOCK + (BLOCK - half % BLOCK) % BLOCK
  }

  lemma {:induction false} StuckOnBlock(half: nat, n: nat)
    requires half % BLOCK == 0 && n > 0
    ensures Touched(half, n) == Range(half, half + Min(n, BLOCK))
    decreases n
  {
    assert AlignUp(half) == half;
    var first := Range(half, half + Min(n, BLOCK));
    if n > BLOCK {
      StuckOnBlock(half, n - BLOCK);
      assert Touched(half, n) == first + Touched(half, n - BLOCK);
      assert Touched(half, n - BLOCK) <= first;
    } else {
      assert Touched(half, n) == first + Touched(half, 0);
    }
  }

  lemma RangeSplits(lo: nat, mid: nat, hi: nat)
    requires lo <= mid <= hi
    ensures Range(lo, hi) == Range(lo, mid) + Range(mid, hi)
  {
  }

  lemma RangesEqualIff(lo: nat, a: nat, b: nat)
    requires lo <= a && lo <= b
    ensures Range(lo, a) == Range(lo, b) <==> a == b
  {
    if a < b { assert a in Range(lo, b); }
    if b < a { assert b in Range(lo, a); }
  }

  lemma NextBoundary(half: nat)
    ensures half % BLOCK == 0 ==> AlignUp(half) == half && Reach(half) == BLOCK
    ensures half % BLOCK != 0 ==> AlignUp(half) == half + (BLOCK - half % BLOCK) && AlignUp(half) % BLOCK == 0
    ensures half % BLOCK != 0 ==> Reach(half) == BLOCK + (BLOCK - half % BLOCK)
  {}

  /** A span that starts inside a block: up to the boundary, and from there on no further than one block. */
  lemma TouchedInside(half: nat, n: nat, w: nat, next: nat)
    requires half % BLOCK != 0 && w == BLOCK - half % BLOCK && next == AlignUp(half) == half + w && next % BLOCK == 0
    ensures Touched(half, n) == Range(half, half + Min(n, BLOCK + w))
  {
    if n <= w {
      assert n > 0 ==> Touched(half, n) == Range(half, half + n) + Touched(next, 0);
    } else {
      StuckOnBlock(next, n - w);
      RangeSplits(half, next, next + Min(n - w, BLOCK));
    }
  }

  /** What is written is a span again, possibly a shorter one. */
  lemma TouchedIs(half: nat, n: nat)
    ensures Touched(half, n) == Range(half, half + Min(n, Reach(half)))
  {
    NextBoundary(half);
    if half % BLOCK != 0 {
      TouchedInside(half, n, BLOCK - half % BLOCK, AlignUp(half));
    } else if n > 0 {
      StuckOnBlock(half, n);
    }
  }

  /** The span is written exactly if and only if it ends within one block of its first boundary. */
  lemma CoversIff(half: nat, n: nat)
    ensures Touched(half, n) == Range(half, half + n) <==> n <= Reach(half)
  {
    TouchedIs(half, n);
    RangesEqualIff(half, half + Min(n, Reach(half)), half + n);
  }
}
