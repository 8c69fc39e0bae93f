/**
 The code cache as a whole: the ring of blocks, the entry table and the live bits, under insertion,
 eviction and invalidation.

 Main result, `NoDanglingEntries`: after any sequence of operations every non-default entry points to
 exactly one block that is still in the ring and whose guest span contains the entry's slot, and a RAM
 page whose live bit is clear has no entries at all.
 */
module JitCache {
  import opened Arithmetic
  import opened CodeRing
  import opened EntryTable
  import opened Wrappers

  const MAX_SPANS := 8
  const MMU_PAGE := 4096

  datatype Cache = Cache(ring: Ring, entries: map<Slot, nat>, live: set<LiveBit>)

  function Empty(): Cache { Cache(Fresh(), map[], {}) }

  /** The slots of `size` bytes at a guest address. */
  function Slots(addr: nat, size: nat): set<Slot> { SpanSlots(addr / 2, size / 2) }

  /** The slots of a block's guest span. Both ends carry the thumb bit, which no slot depends on. */
  function BlockSlots(b: Block): set<Slot> {
    if b.guestPc <= b.guestPcEnd then Slots(b.guestPc, b.guestPcEnd - b.guestPc) else {}
  }

  // ---------------------------------------------------------------------------------------------
  // Operations

  /** The entries of evicted blocks go back to the default. */
  function ClearBlocks(entries: map<Slot, nat>, blocks: seq<Block>): map<Slot, nat>
    decreases |blocks|
  {
    if blocks == [] then entries
    else ClearBlocks(Fill(entries, BlockSlots(blocks[0]), None), blocks[1..])
  }

  /** What a block may span: less than a host page, inside one region. */
  predicate GuestSpan(pc: nat, pcEnd: nat, thumb: bool) {
    && pc < pcEnd < SPACE && pcEnd - pc < MMU_PAGE
    && (if thumb then pc % 2 == pcEnd % 2 == 0 else pc % 4 == pcEnd % 4 == 0)
    && RegionOf(pc).Some? && RegionOf(pcEnd - 1) == RegionOf(pc)
  }

  function Step(thumb: bool): nat { if thumb then 2 else 4 }

  /** The live bits of the pages from `first` to `last`; rom pages have none. */
  function LiveSpan(first: nat, last: nat): set<LiveBit> {
    set i | first / LIVE_PAGE <= i <= last / LIVE_PAGE && LiveBitOf(i * LIVE_PAGE).Some? :: LiveBitOf(i * LIVE_PAGE).value
  }

  /** `jit_insert_block`. */
  function Insert(c: Cache, pages: nat, pc: nat, pcEnd: nat, thumb: bool): Option<Cache>
    requires GuestSpan(pc, pcEnd, thumb)
  {
    match Allocate(c.ring, pages)
    case None => None
    case Some(a) =>
      var t := if thumb then 1 else 0;
      var entries := Fill(ClearBlocks(c.entries, a.evicted), Slots(pc, pcEnd - pc), Some(a.addr));
      Some(Cache(Push(a, pages, pc + t, pcEnd + t), entries, c.live + LiveSpan(pc, pcEnd - Step(thumb))))
  }

  function PageBase(addr: nat, page: nat): nat
    requires page > 0
  {
    addr / page * page
  }

  /** Blocks whose span contains a raw guest address, at most `room` of them, oldest first. */
  function Overlapping(funcs: seq<Block>, addr: nat, room: nat): seq<Block>
    decreases |funcs|
  {
    if funcs == [] || room == 0 then []
    else
      var b := funcs[0];
      if b.guestPc / 2 * 2 <= addr < b.guestPcEnd / 2 * 2
      then [b] + Overlapping(funcs[1..], addr, room - 1)
      else Overlapping(funcs[1..], addr, room)
  }

  /** One half of `invalidate_block`: the page of a written address. */
  function InvalidateAt(c: Cache, addr: nat): Cache {
    match LiveBitOf(addr)
    case None => c
    case Some(bit) =>
      if bit !in c.live then c
      else
        var entries := Fill(c.entries, Slots(PageBase(addr, LIVE_PAGE), LIVE_PAGE), None);
        c.(live := c.live - {bit}, entries := ClearBlocks(entries, Overlapping(c.ring.funcs, addr, MAX_SPANS)))
  }

  /** `invalidate_block`: the first and the last byte of a write. */
  function InvalidateBlock(c: Cache, addr: nat, size: nat): Cache
    requires size > 0
  {
    InvalidateAt(InvalidateAt(c, addr), addr + size - 1)
  }

  /** One page of `invalidate_blocks`. */
  function InvalidatePage(c: Cache, addr: nat): Cache {
    match LiveBitOf(addr)
    case None => c
    case Some(bit) =>
      if bit !in c.live then c
      else c.(live := c.live - {bit}, entries := Fill(c.entries, Slots(PageBase(addr, LIVE_PAGE), LIVE_PAGE), None))
  }

  /** `invalidate_blocks`: every page a range touches. */
  function InvalidatePages(c: Cache, page: nat, count: nat): Cache
    decreases count
  {
    if count == 0 then c else InvalidatePages(InvalidatePage(c, page * LIVE_PAGE), page + 1, count - 1)
  }

  /** The bits of a whole live-range byte. */
  function ByteBits(addr: nat): set<LiveBit> {
    match LiveBitOf(addr)
    case None => {}
    case Some(b) => set bit | 0 <= bit < 8 :: LiveBit(b.region, b.byte, bit)
  }

  /** `invalidate_mmu_page`: a 4 KB page and its two live-range bytes. */
  function InvalidateMmuPage(c: Cache, addr: nat): Cache {
    var base := PageBase(addr, MMU_PAGE);
    c.(entries := Fill(c.entries, Slots(base, MMU_PAGE), None), live := c.live - (ByteBits(base) + ByteBits(base + 2048)))
  }

  /** `invalidate_ram_blocks`. */
  function InvalidateRam(c: Cache): Cache {
    c.(entries := map s | s in c.entries && s.region.Rom? :: c.entries[s],
       live := set b | b in c.live && b.region.Rom?)
  }

  // ---------------------------------------------------------------------------------------------
  // The invariant

  /** The entry's code address is the address of a live block that spans the slot. */
  ghost predicate Owned(funcs: seq<Block>, s: Slot, addr: nat) {
    exists i :: 0 <= i < |funcs| && funcs[i].lo == addr && s in BlockSlots(funcs[i])
  }

  ghost predicate EntriesOk(funcs: seq<Block>, entries: map<Slot, nat>) {
    forall s :: s in entries ==> Owned(funcs, s, entries[s])
  }

  ghost predicate LiveOk(entries: map<Slot, nat>, live: set<LiveBit>) {
    forall s :: s in entries && !s.region.Rom? ==> SlotBit(s) in live
  }

  ghost predicate CacheInv(c: Cache) {
    RingInv(c.ring) && EntriesOk(c.ring.funcs, c.entries) && LiveOk(c.entries, c.live)
  }

  predicate SubMap(small: map<Slot, nat>, big: map<Slot, nat>) {
    forall s :: s in small ==> s in big && small[s] == big[s]
  }

  // ---------------------------------------------------------------------------------------------
  // Clearing entries

  lemma {:induction false} ClearBlocksClears(entries: map<Slot, nat>, blocks: seq<Block>)
    ensures SubMap(ClearBlocks(entries, blocks), entries)
    ensures forall s, i :: 0 <= i < |blocks| && s in BlockSlots(blocks[i]) ==> s !in ClearBlocks(entries, blocks)
    decreases |blocks|
  {
    if blocks != [] {
      var e := Fill(entries, BlockSlots(blocks[0]), None);
      ClearBlocksClears(e, blocks[1..]);
      forall s, i | 0 <= i < |blocks| && s in BlockSlots(blocks[i]) ensures s !in ClearBlocks(entries, blocks) {
        if i > 0 { assert blocks[1..][i - 1] == blocks[i]; }
      }
    }
  }

  lemma SubMapKeeps(funcs: seq<Block>, small: map<Slot, nat>, big: map<Slot, nat>, live: set<LiveBit>)
    requires SubMap(small, big) && EntriesOk(funcs, big)
    ensures EntriesOk(funcs, small) && (LiveOk(big, live) ==> LiveOk(small, live))
  {}

  /** Entries never outlive their block: once a prefix of the ring is evicted and its spans are cleared,
      every entry left belongs to a block that is left. */
  lemma EvictionKeeps(funcs: seq<Block>, entries: map<Slot, nat>, n: nat)
    requires EntriesOk(funcs, entries) && n <= |funcs|
    ensures EntriesOk(funcs[n..], ClearBlocks(entries, funcs[..n]))
  {
    var e := ClearBlocks(entries, funcs[..n]);
    ClearBlocksClears(entries, funcs[..n]);
    forall s | s in e ensures Owned(funcs[n..], s, e[s]) {
      assert Owned(funcs, s, entries[s]);
      OwnerIsLeft(funcs, n, s, e[s]);
    }
  }

  /** An owner whose span was not cleared is not among the evicted. */
  lemma OwnerIsLeft(funcs: seq<Block>, n: nat, s: Slot, addr: nat)
    requires n <= |funcs| && Owned(funcs, s, addr)
    requires forall i :: 0 <= i < n ==> s !in BlockSlots(funcs[..n][i])
    ensures Owned(funcs[n..], s, addr)
  {
    assert forall k :: 0 <= k < n ==> funcs[..n][k] == funcs[k];
    var i :| 0 <= i < |funcs| && funcs[i].lo == addr && s in BlockSlots(funcs[i]);
    assert funcs[n..][i - n] == funcs[i];
  }

  /** Extending the last block over the pool tail changes neither its address nor its span. */
  lemma AbsorbKeeps(r: Ring, pages: nat, r1: Ring, entries: map<Slot, nat>)
    requires AbsorbTail(r, pages) == Some(r1) && EntriesOk(r.funcs, entries)
    ensures EntriesOk(r1.funcs, entries)
  {
    forall s | s in entries ensures Owned(r1.funcs, s, entries[s]) {
      assert Owned(r.funcs, s, entries[s]);
      var i :| 0 <= i < |r.funcs| && r.funcs[i].lo == entries[s] && s in BlockSlots(r.funcs[i]);
      assert BlockSlots(r1.funcs[i]) == BlockSlots(r.funcs[i]);
    }
  }

  /** After an allocation and the clearing of what it evicted. */
  lemma AllocationKeeps(r: Ring, pages: nat, entries: map<Slot, nat>)
    requires RingInv(r) && 1 <= pages <= QUARTER && Allocate(r, pages).Some? && EntriesOk(r.funcs, entries)
    ensures EntriesOk(Allocate(r, pages).value.ring.funcs, ClearBlocks(entries, Allocate(r, pages).value.evicted))
  {
    AllocateFitsIff(r, pages);
    if r.start + pages > r.end {
      var r1, t, n := ResetWindow(r, pages);
      AllocateAfterReset(r, pages, r1, t, n);
      AbsorbKeeps(r, pages, r1, entries);
      EvictionKeeps(r1.funcs, entries, n);
    }
  }

  // ---------------------------------------------------------------------------------------------
  // Insertion

  lemma NewEntriesOwned(funcs: seq<Block>, entries: map<Slot, nat>, b: Block, slots: set<Slot>)
    requires EntriesOk(funcs, entries) && BlockSlots(b) == slots
    ensures EntriesOk(funcs + [b], Fill(entries, slots, Some(b.lo)))
  {
    var e := Fill(entries, slots, Some(b.lo));
    forall s | s in e ensures Owned(funcs + [b], s, e[s]) {
      if s in slots {
        assert (funcs + [b])[|funcs|] == b;
      } else {
        assert Owned(funcs, s, entries[s]);
        var i :| 0 <= i < |funcs| && funcs[i].lo == entries[s] && s in BlockSlots(funcs[i]);
        assert (funcs + [b])[i] == funcs[i];
      }
    }
  }

  lemma ThumbBitIsFree(pc: nat, pcEnd: nat, t: nat, lo: nat, hi: nat)
    requires pc < pcEnd < SPACE && pc % 2 == pcEnd % 2 == 0 && t <= 1
    ensures BlockSlots(Block(pc + t, pcEnd + t, lo, hi)) == Slots(pc, pcEnd - pc)
  {
    assert (pc + t) / 2 == pc / 2;
  }

  lemma SpanAddress(pc: nat, pcEnd: nat, x: nat)
    requires pc <= pcEnd && pc % 2 == pcEnd % 2 == 0 && pc / 2 <= x < pc / 2 + (pcEnd - pc) / 2
    ensures pc <= 2 * x <= pcEnd - 2
  {}

  lemma SlotPage(x: nat, s: Slot)
    requires HalfSlot(x) == Some(s) && !s.region.Rom?
    ensures LiveBitOf(2 * x / LIVE_PAGE * LIVE_PAGE) == Some(SlotBit(s))
  {
    assert 2 * x / 2 == x;
    LiveBitIsMirrored(2 * x);
    SamePage(2 * x);
  }

  /** Every RAM slot of a new block has its page's live bit among those set for the block. */
  lemma NewEntriesLive(pc: nat, pcEnd: nat, last: nat, s: Slot)
    requires 2 <= pcEnd && pc <= pcEnd && pc % 2 == pcEnd % 2 == 0 && last / LIVE_PAGE == (pcEnd - 2) / LIVE_PAGE
    requires s in Slots(pc, pcEnd - pc) && !s.region.Rom?
    ensures SlotBit(s) in LiveSpan(pc, last)
  {
    var x: nat :| pc / 2 <= x < pc / 2 + (pcEnd - pc) / 2 && HalfSlot(x) == Some(s);
    SpanAddress(pc, pcEnd, x);
    SlotPage(x, s);
    HalfwordLive(pc, last, pcEnd - 2, 2 * x, SlotBit(s));
  }

  lemma HalfwordLive(first: nat, last: nat, end: nat, addr: nat, bit: LiveBit)
    requires first <= addr <= end && last / LIVE_PAGE == end / LIVE_PAGE
    requires LiveBitOf(addr / LIVE_PAGE * LIVE_PAGE) == Some(bit)
    ensures bit in LiveSpan(first, last)
  {
    PageBetween(first, addr, end);
    InLiveSpan(addr / LIVE_PAGE, first, last);
  }

  lemma PageBetween(a: nat, b: nat, c: nat)
    requires a <= b <= c
    ensures a / LIVE_PAGE <= b / LIVE_PAGE <= c / LIVE_PAGE
  {}

  lemma InLiveSpan(i: nat, first: nat, last: nat)
    requires first / LIVE_PAGE <= i <= last / LIVE_PAGE && LiveBitOf(i * LIVE_PAGE).Some?
    ensures LiveBitOf(i * LIVE_PAGE).value in LiveSpan(first, last)
  {}

  lemma PageDiv(addr: nat)
    ensures var base := addr / LIVE_PAGE * LIVE_PAGE;
            base / LIVE_PAGE == addr / LIVE_PAGE && base / 2048 == addr / 2048 && base / REGION_SIZE == addr / REGION_SIZE
  {
    var page := addr / LIVE_PAGE;
    DivModIs(page * LIVE_PAGE, LIVE_PAGE, page, 0);
    assert page / 8 == addr / 2048 && page / 0x1_0000 == addr / REGION_SIZE;
    DivModIs(page * LIVE_PAGE, 2048, page / 8, page % 8 * LIVE_PAGE);
    DivModIs(page * LIVE_PAGE, REGION_SIZE, page / 0x1_0000, page % 0x1_0000 * LIVE_PAGE);
  }

  lemma SamePage(addr: nat)
    ensures LiveBitOf(addr / LIVE_PAGE * LIVE_PAGE) == LiveBitOf(addr)
  {
    PageDiv(addr);
  }

  /** The last instruction starts on the same page as the last halfword. */
  lemma LastPage(pcEnd: nat, thumb: bool)
    requires pcEnd >= 4 && (if thumb then pcEnd % 2 == 0 else pcEnd % 4 == 0)
    ensures (pcEnd - Step(thumb)) / LIVE_PAGE == (pcEnd - 2) / LIVE_PAGE
  {}

  lemma InsertedRing(r: Ring, pages: nat, a: Allocated, pc: nat, pcEnd: nat, u: Ring)
    requires RingInv(r) && 1 <= pages <= QUARTER && Allocate(r, pages) == Some(a) && u == Push(a, pages, pc, pcEnd)
    ensures RingInv(u)
  {
    AllocateKeeps(r, pages, pc, pcEnd);
  }

  lemma InsertedOwned(r: Ring, pages: nat, a: Allocated, entries: map<Slot, nat>, b: Block, slots: set<Slot>,
                      funcs: seq<Block>, e: map<Slot, nat>)
    requires RingInv(r) && 1 <= pages <= QUARTER && Allocate(r, pages) == Some(a) && EntriesOk(r.funcs, entries)
    requires BlockSlots(b) == slots && b.lo == a.addr
    requires funcs == a.ring.funcs + [b] && e == Fill(ClearBlocks(entries, a.evicted), slots, Some(a.addr))
    ensures EntriesOk(funcs, e)
  {
    AllocationKeeps(r, pages, entries);
    NewEntriesOwned(a.ring.funcs, ClearBlocks(entries, a.evicted), b, slots);
  }

  lemma InsertedLive(entries: map<Slot, nat>, evicted: seq<Block>, live: set<LiveBit>, slots: set<Slot>, span: set<LiveBit>,
                     addr: nat, e: map<Slot, nat>)
    requires LiveOk(entries, live) && forall s :: s in slots && !s.region.Rom? ==> SlotBit(s) in span
    requires e == Fill(ClearBlocks(entries, evicted), slots, Some(addr))
    ensures LiveOk(e, live + span)
  {
    ClearBlocksClears(entries, evicted);
  }

  lemma SpanAligned(pc: nat, pcEnd: nat, thumb: bool)
    requires GuestSpan(pc, pcEnd, thumb)
    ensures 4 <= pcEnd && pc % 2 == pcEnd % 2 == 0
    ensures (pcEnd - Step(thumb)) / LIVE_PAGE == (pcEnd - 2) / LIVE_PAGE
  {
    InARegion(pc);
    WordIsEven(pc);
    WordIsEven(pcEnd);
    LastPage(pcEnd, thumb);
  }

  lemma InARegion(pc: nat)
    requires RegionOf(pc).Some?
    ensures pc >= 4
  {}

  lemma WordIsEven(x: nat)
    ensures x % 4 == 0 ==> x % 2 == 0
  {
    DivModIs(x, 2, 2 * (x / 4) + x % 4 / 2, x % 4 % 2);
  }

  /** The live bits of a new block cover its slots. */
  lemma NewSlotsLive(pc: nat, pcEnd: nat, last: nat)
    requires 2 <= pcEnd && pc <= pcEnd && pc % 2 == pcEnd % 2 == 0 && last / LIVE_PAGE == (pcEnd - 2) / LIVE_PAGE
    ensures forall s :: s in Slots(pc, pcEnd - pc) && !s.region.Rom? ==> SlotBit(s) in LiveSpan(pc, last)
  {
    forall s | s in Slots(pc, pcEnd - pc) && !s.region.Rom? ensures SlotBit(s) in LiveSpan(pc, last) {
      NewEntriesLive(pc, pcEnd, last, s);
    }
  }

  lemma InsertedKeeps(c: Cache, pages: nat, a: Allocated, b: Block, slots: set<Slot>, span: set<LiveBit>)
    returns (r: Cache)
    requires CacheInv(c) && 1 <= pages <= QUARTER && Allocate(c.ring, pages) == Some(a)
    requires b.lo == a.addr && b.hi == a.addr + pages && BlockSlots(b) == slots
    requires forall s :: s in slots && !s.region.Rom? ==> SlotBit(s) in span
    ensures r == Cache(Push(a, pages, b.guestPc, b.guestPcEnd),
                       Fill(ClearBlocks(c.entries, a.evicted), slots, Some(a.addr)), c.live + span)
    ensures CacheInv(r)
  {
    var u, e := Push(a, pages, b.guestPc, b.guestPcEnd), Fill(ClearBlocks(c.entries, a.evicted), slots, Some(a.addr));
    InsertedRing(c.ring, pages, a, b.guestPc, b.guestPcEnd, u);
    InsertedOwned(c.ring, pages, a, c.entries, b, slots, u.funcs, e);
    InsertedLive(c.entries, a.evicted, c.live, slots, span, a.addr, e);
    r := Cache(u, e, c.live + span);
  }

  /** The slots and live bits of a new block. */
  lemma InsertedSpan(pc: nat, pcEnd: nat, thumb: bool, addr: nat, pages: nat)
    returns (b: Block, slots: set<Slot>, span: set<LiveBit>)
    requires GuestSpan(pc, pcEnd, thumb)
    ensures var t := if thumb then 1 else 0; b == Block(pc + t, pcEnd + t, addr, addr + pages)
    ensures slots == Slots(pc, pcEnd - pc) == BlockSlots(b) && span == LiveSpan(pc, pcEnd - Step(thumb))
    ensures forall s :: s in slots && !s.region.Rom? ==> SlotBit(s) in span
  {
    var t := if thumb then 1 else 0;
    b := Block(pc + t, pcEnd + t, addr, addr + pages);
    slots, span := Slots(pc, pcEnd - pc), LiveSpan(pc, pcEnd - Step(thumb));
    SpanAligned(pc, pcEnd, thumb);
    NewSlotsLive(pc, pcEnd, pcEnd - Step(thumb));
    ThumbBitIsFree(pc, pcEnd, t, addr, addr + pages);
  }

  lemma InsertedIs(c: Cache, pages: nat, pc: nat, pcEnd: nat, thumb: bool, a: Allocated)
    returns (b: Block, slots: set<Slot>, span: set<LiveBit>)
    requires GuestSpan(pc, pcEnd, thumb) && Allocate(c.ring, pages) == Some(a)
    ensures b.lo == a.addr && b.hi == a.addr + pages && BlockSlots(b) == slots
    ensures forall s :: s in slots && !s.region.Rom? ==> SlotBit(s) in span
    ensures Insert(c, pages, pc, pcEnd, thumb)
            == Some(Cache(Push(a, pages, b.guestPc, b.guestPcEnd),
                          Fill(ClearBlocks(c.entries, a.evicted), slots, Some(a.addr)), c.live + span))
  {
    b, slots, span := InsertedSpan(pc, pcEnd, thumb, a.addr, pages);
  }

  lemma InsertKeeps(c: Cache, pages: nat, pc: nat, pcEnd: nat, thumb: bool)
    requires CacheInv(c) && GuestSpan(pc, pcEnd, thumb) && 1 <= pages <= QUARTER
    ensures Insert(c, pages, pc, pcEnd, thumb).Some? ==> CacheInv(Insert(c, pages, pc, pcEnd, thumb).value)
  {
    if Allocate(c.ring, pages).Some? {
      var a := Allocate(c.ring, pages).value;
      var b, slots, span := InsertedIs(c, pages, pc, pcEnd, thumb, a);
      var r := InsertedKeeps(c, pages, a, b, slots, span);
    }
  }

  // ---------------------------------------------------------------------------------------------
  // Invalidation

  /** Slots of entries are within their tables. */
  lemma OwnedInTable(funcs: seq<Block>, s: Slot, addr: nat)
    requires Owned(funcs, s, addr)
    ensures s.index < Entries(s.region)
  {
    var i :| 0 <= i < |funcs| && funcs[i].lo == addr && s in BlockSlots(funcs[i]);
  }

  /** A page's slots are all the slots with its live bit. */
  lemma PageHoldsBit(addr: nat, s: Slot)
    requires addr < SPACE && LiveBitOf(addr) == Some(SlotBit(s)) && s.index < Entries(s.region)
    ensures s in Slots(PageBase(addr, LIVE_PAGE), LIVE_PAGE)
  {
    var page := addr / LIVE_PAGE;
    var x := page * 128 + s.index % 128;
    PageIndex(page, s.region, s.index);
    PageHalves(addr, s.index % 128);
    assert HalfSlot(x) == Some(s);
    InSpan(x, page * 128, 128);
  }

  lemma PageHalves(addr: nat, o: nat)
    requires addr < SPACE && o < 128
    ensures PageBase(addr, LIVE_PAGE) / 2 == addr / LIVE_PAGE * 128 && addr / LIVE_PAGE / 8 == addr / 2048
    ensures RegionOf(2 * (addr / LIVE_PAGE * 128 + o)) == RegionOf(addr)
  {
    assert 2 * (addr / LIVE_PAGE * 128 + o) / REGION_SIZE == addr / REGION_SIZE;
  }

  /** Within a region, the byte and bit of a page determine the 128 halfwords it holds. */
  lemma PageIndex(page: nat, r: Region, index: nat)
    requires !r.Rom? && index < Entries(r)
    requires (page / 8) % LiveBytes(r) == index / 1024 && page % 8 == (index / 128) % 8
    ensures (page * 128 + index % 128) % Entries(r) == index
  {
    var o, b := index % 128, page / 8;
    assert index == index / 1024 * 1024 + (index / 128) % 8 * 128 + o;
    match r {
      case Ewram => DivModIs(page * 128 + o, 0x2_0000, b / 128, index);
      case Iwram => DivModIs(page * 128 + o, 0x4000, b / 16, index);
    }
  }

  lemma ClearedPageLive(funcs: seq<Block>, entries: map<Slot, nat>, live: set<LiveBit>, addr: nat, bit: LiveBit)
    requires addr < SPACE && EntriesOk(funcs, entries) && LiveOk(entries, live) && LiveBitOf(addr) == Some(bit)
    ensures LiveOk(Fill(entries, Slots(PageBase(addr, LIVE_PAGE), LIVE_PAGE), None), live - {bit})
  {
    var e := Fill(entries, Slots(PageBase(addr, LIVE_PAGE), LIVE_PAGE), None);
    forall s | s in e && !s.region.Rom? ensures SlotBit(s) in live - {bit} {
      assert Owned(funcs, s, entries[s]);
      OwnedInTable(funcs, s, entries[s]);
      if SlotBit(s) == bit { PageHoldsBit(addr, s); }
    }
  }

  lemma InvalidatePageKeeps(c: Cache, addr: nat)
    requires CacheInv(c) && addr < SPACE
    ensures CacheInv(InvalidatePage(c, addr))
  {
    var e := Fill(c.entries, Slots(PageBase(addr, LIVE_PAGE), LIVE_PAGE), None);
    SubMapKeeps(c.ring.funcs, e, c.entries, c.live);
    if LiveBitOf(addr).Some? {
      ClearedPageLive(c.ring.funcs, c.entries, c.live, addr, LiveBitOf(addr).value);
    }
  }

  lemma InvalidateAtKeeps(c: Cache, addr: nat)
    requires CacheInv(c) && addr < SPACE
    ensures CacheInv(InvalidateAt(c, addr))
  {
    if LiveBitOf(addr).Some? && LiveBitOf(addr).value in c.live {
      InvalidatePageKeeps(c, addr);
      var p := InvalidatePage(c, addr);
      var over := Overlapping(c.ring.funcs, addr, MAX_SPANS);
      ClearBlocksClears(p.entries, over);
      SubMapKeeps(c.ring.funcs, ClearBlocks(p.entries, over), p.entries, p.live);
    }
  }

  lemma {:induction false} InvalidatePagesKeep(c: Cache, page: nat, count: nat)
    requires CacheInv(c) && (page + count) * LIVE_PAGE <= SPACE
    ensures CacheInv(InvalidatePages(c, page, count))
    decreases count
  {
    if count > 0 {
      InvalidatePageKeeps(c, page * LIVE_PAGE);
      InvalidatePagesKeep(InvalidatePage(c, page * LIVE_PAGE), page + 1, count - 1);
    }
  }

  lemma ByteAddress(at: nat, bit: nat)
    requires at % 2048 == 0 && bit < 8
    ensures (at + bit * LIVE_PAGE) / 2048 == at / 2048 && (at + bit * LIVE_PAGE) / LIVE_PAGE % 8 == bit
    ensures (at + bit * LIVE_PAGE) / REGION_SIZE == at / REGION_SIZE
    ensures (at + bit * LIVE_PAGE) / LIVE_PAGE * LIVE_PAGE == at + bit * LIVE_PAGE
  {
    var k := at / 2048;
    DivModIs(at + bit * 256, 2048, k, bit * 256);
    DivModIs(at + bit * 256, 256, k * 8 + bit, 0);
    DivModIs(at + bit * 256, REGION_SIZE, k / 0x2000, k % 0x2000 * 2048 + bit * 256);
    DivModIs(at, REGION_SIZE, k / 0x2000, k % 0x2000 * 2048);
  }

  /** The address of the page that a bit of a live-range byte stands for. */
  lemma BitAddress(at: nat, s: Slot) returns (page: nat)
    requires at % 2048 == 0 && SlotBit(s) in ByteBits(at)
    ensures at <= page <= at + 7 * LIVE_PAGE && PageBase(page, LIVE_PAGE) == page && LiveBitOf(page) == Some(SlotBit(s))
  {
    page := at + SlotBit(s).bit * LIVE_PAGE;
    ByteAddress(at, SlotBit(s).bit);
  }

  lemma SpanWithin(half: nat, n: nat, half': nat, n': nat)
    requires half' <= half && half + n <= half' + n'
    ensures SpanSlots(half, n) <= SpanSlots(half', n')
  {}

  lemma PageWithinMmuPage(base: nat, addr: nat)
    requires base % MMU_PAGE == 0 && base <= addr && addr + LIVE_PAGE <= base + MMU_PAGE <= SPACE
    ensures Slots(addr, LIVE_PAGE) <= Slots(base, MMU_PAGE)
  {
    SpanWithin(addr / 2, 128, base / 2, 2048);
  }

  lemma HalfPages(base: nat)
    requires base % 4096 == 0
    ensures base % 2048 == 0 && (base + 2048) % 2048 == 0
  {
    var q := base / 4096;
    DivModIs(base, 2048, 2 * q, 0);
    DivModIs(base + 2048, 2048, 2 * q + 1, 0);
  }

  /** A 4 KB page's slots are all the slots with a bit in its two live-range bytes. */
  lemma MmuPageHoldsByte(base: nat, at: nat, s: Slot)
    requires base % MMU_PAGE == 0 && base + MMU_PAGE <= SPACE && (at == base || at == base + 2048)
    requires SlotBit(s) in ByteBits(at) && s.index < Entries(s.region)
    ensures s in Slots(base, MMU_PAGE)
  {
    HalfPages(base);
    var page := BitAddress(at, s);
    MmuPageHoldsBit(base, page, s);
  }

  lemma MmuPageHoldsBit(base: nat, addr: nat, s: Slot)
    requires base % MMU_PAGE == 0 && base <= addr && addr + LIVE_PAGE <= base + MMU_PAGE <= SPACE
    requires PageBase(addr, LIVE_PAGE) == addr && LiveBitOf(addr) == Some(SlotBit(s)) && s.index < Entries(s.region)
    ensures s in Slots(base, MMU_PAGE)
  {
    PageHoldsBit(addr, s);
    PageWithinMmuPage(base, addr);
  }

  lemma MmuPageLive(funcs: seq<Block>, entries: map<Slot, nat>, base: nat, s: Slot)
    requires EntriesOk(funcs, entries) && base % MMU_PAGE == 0 && base + MMU_PAGE <= SPACE
    requires s in entries && s !in Slots(base, MMU_PAGE) && !s.region.Rom?
    ensures SlotBit(s) !in ByteBits(base) + ByteBits(base + 2048)
  {
    assert Owned(funcs, s, entries[s]);
    OwnedInTable(funcs, s, entries[s]);
    if SlotBit(s) in ByteBits(base) {
      MmuPageHoldsByte(base, base, s);
    } else if SlotBit(s) in ByteBits(base + 2048) {
      MmuPageHoldsByte(base, base + 2048, s);
    }
  }

  lemma MmuBase(addr: nat)
    requires addr < SPACE
    ensures PageBase(addr, MMU_PAGE) % MMU_PAGE == 0 && PageBase(addr, MMU_PAGE) + MMU_PAGE <= SPACE
  {}

  /** Clearing a set of slots and every live bit that only they have. */
  lemma ClearSetKeeps(c: Cache, slots: set<Slot>, bits: set<LiveBit>) returns (r: Cache)
    requires CacheInv(c)
    requires forall s :: s in c.entries && s !in slots && !s.region.Rom? ==> SlotBit(s) !in bits
    ensures r == c.(entries := Fill(c.entries, slots, None), live := c.live - bits) && CacheInv(r)
  {
    r := c.(entries := Fill(c.entries, slots, None), live := c.live - bits);
    SubMapKeeps(c.ring.funcs, Fill(c.entries, slots, None), c.entries, c.live);
  }

  lemma InvalidateMmuPageKeeps(c: Cache, addr: nat)
    requires CacheInv(c) && addr < SPACE
    ensures CacheInv(InvalidateMmuPage(c, addr))
  {
    var base := PageBase(addr, MMU_PAGE);
    MmuBase(addr);
    var slots, bits := Slots(base, MMU_PAGE), ByteBits(base) + ByteBits(base + 2048);
    forall s | s in c.entries && s !in slots && !s.region.Rom? ensures SlotBit(s) !in bits {
      MmuPageLive(c.ring.funcs, c.entries, base, s);
    }
    var r := ClearSetKeeps(c, slots, bits);
    assert InvalidateMmuPage(c, addr) == r;
  }

  lemma InvalidateRamKeeps(c: Cache)
    requires CacheInv(c)
    ensures CacheInv(InvalidateRam(c))
  {
    SubMapKeeps(c.ring.funcs, InvalidateRam(c).entries, c.entries, c.live);
  }

  // ---------------------------------------------------------------------------------------------
  // Whole runs

  datatype Op =
    | DoInsert(pages: nat, pc: nat, pcEnd: nat, thumb: bool)
    | DoInvalidateBlock(addr: nat, size: nat)
    | DoInvalidateBlocks(page: nat, count: nat)
    | DoInvalidateMmuPage(addr: nat)
    | DoInvalidateRam
    | DoInit

  predicate Allowed(op: Op) {
    match op
    case DoInsert(pages, pc, pcEnd, thumb) => 1 <= pages <= QUARTER && GuestSpan(pc, pcEnd, thumb)
    case DoInvalidateBlock(addr, size) => 1 <= size && addr + size <= SPACE
    case DoInvalidateBlocks(page, count) => (page + count) * LIVE_PAGE <= SPACE
    case DoInvalidateMmuPage(addr) => addr < SPACE
    case DoInvalidateRam => true
    case DoInit => true
  }

  /** None where an insertion fails to allocate. */
  function Apply(c: Cache, op: Op): Option<Cache>
    requires Allowed(op)
  {
    match op
    case DoInsert(pages, pc, pcEnd, thumb) => Insert(c, pages, pc, pcEnd, thumb)
    case DoInvalidateBlock(addr, size) => Some(InvalidateBlock(c, addr, size))
    case DoInvalidateBlocks(page, count) => Some(InvalidatePages(c, page, count))
    case DoInvalidateMmuPage(addr) => Some(InvalidateMmuPage(c, addr))
    case DoInvalidateRam => Some(InvalidateRam(c))
    case DoInit => Some(Empty())
  }

  ghost predicate IsRun(c: Cache, ops: seq<Op>, last: Cache)
    decreases |ops|
  {
    if ops == [] then c == last
    else Allowed(ops[0]) && Apply(c, ops[0]).Some? && IsRun(Apply(c, ops[0]).value, ops[1..], last)
  }

  lemma ApplyKeeps(c: Cache, op: Op)
    requires CacheInv(c) && Allowed(op)
    ensures Apply(c, op).Some? ==> CacheInv(Apply(c, op).value)
  {
    match op
    case DoInsert(pages, pc, pcEnd, thumb) => InsertKeeps(c, pages, pc, pcEnd, thumb);
    case DoInvalidateBlock(addr, size) =>
      InvalidateAtKeeps(c, addr);
      InvalidateAtKeeps(InvalidateAt(c, addr), addr + size - 1);
    case DoInvalidateBlocks(page, count) => InvalidatePagesKeep(c, page, count);
    case DoInvalidateMmuPage(addr) => InvalidateMmuPageKeeps(c, addr);
    case DoInvalidateRam => InvalidateRamKeeps(c);
    case DoInit => FreshInOrder();
  }

  lemma {:induction false} RunKeeps(c: Cache, ops: seq<Op>, last: Cache)
    requires CacheInv(c) && IsRun(c, ops, last)
    ensures CacheInv(last)
    decreases |ops|
  {
    if ops != [] {
      ApplyKeeps(c, ops[0]);
      RunKeeps(Apply(c, ops[0]).value, ops[1..], last);
    }
  }

  lemma AddressesUnique(r: Ring)
    requires RingInv(r)
    ensures forall i, j :: 0 <= i < j < |r.funcs| ==> r.funcs[i].lo != r.funcs[j].lo
  {
    forall i, j | 0 <= i < j < |r.funcs| ensures r.funcs[i].lo != r.funcs[j].lo {
      BlocksDisjoint(r, i, j);
      assert BlockOk(r, r.funcs[i]) && BlockOk(r, r.funcs[j]);
    }
  }

  lemma ClearPageIsEmpty(entries: map<Slot, nat>, live: set<LiveBit>, addr: nat)
    requires LiveOk(entries, live) && addr < SPACE && LiveBitOf(addr).Some? && LiveBitOf(addr).value !in live
    ensures JitEntry(addr).Some? && JitEntry(addr).value !in entries
  {
    assert addr % SPACE == addr;
    EntryIsMirrored(addr);
    LiveBitIsMirrored(addr);
  }

  /** No entry dangles: it leads to exactly one live block, through a slot of that block's span; and a
      RAM page whose live bit is clear, at any of its mirrors, has only default entries. */
  lemma NoDanglingEntries(ops: seq<Op>, c: Cache)
    requires IsRun(Empty(), ops, c)
    ensures forall s :: s in c.entries ==> Owned(c.ring.funcs, s, c.entries[s])
    ensures forall i, j :: 0 <= i < j < |c.ring.funcs| ==> c.ring.funcs[i].lo != c.ring.funcs[j].lo
    ensures forall addr: nat :: addr < SPACE && LiveBitOf(addr).Some? && LiveBitOf(addr).value !in c.live ==>
              JitEntry(addr).Some? && JitEntry(addr).value !in c.entries
  {
    FreshInOrder();
    RunKeeps(Empty(), ops, c);
    AddressesUnique(c.ring);
    forall addr: nat | addr < SPACE && LiveBitOf(addr).Some? && LiveBitOf(addr).value !in c.live
      ensures JitEntry(addr).Some? && JitEntry(addr).value !in c.entries
    {
      ClearPageIsEmpty(c.entries, c.live, addr);
    }
  }
}
