/**
 What the operations of the code cache leave, entry by entry.

 - `InsertIs`: a new block is reached from every halfword of its span and nothing else changes but for evicted blocks;
 - `InvalidateAtIs`, `InvalidateBlockIs`: a guest write drops the entries of its page and of the first eight blocks
   over its byte, and keeps every other one;
 - `NoStaleCode`: with at most eight of them, no block over the byte is reached any more;
 - `WriteIsStaleIff`: the last byte of a write gets this treatment only if its page differs from the first one's, so a
   block that begins inside the written word keeps its entries on other pages; `StaleAfterWrite` is such a run.
 */
module Coherence {
  import opened CodeRing
  import opened EntryTable
  import opened JitCache
  import opened Wrappers

  // ---------------------------------------------------------------------------------------------
  // Pages

  predicate InTable(s: Slot) { s.index < Entries(s.region) }

  /** The slots of a live page are those with its live bit, at any mirror. */
  lemma PageSlotsIff(addr: nat, s: Slot)
    requires addr < SPACE && LiveBitOf(addr).Some? && InTable(s)
    ensures s in Slots(PageBase(addr, LIVE_PAGE), LIVE_PAGE) <==> LiveBitOf(addr) == Some(SlotBit(s))
  {
    if s in Slots(PageBase(addr, LIVE_PAGE), LIVE_PAGE) {
      var x: nat :| PageBase(addr, LIVE_PAGE) / 2 <= x < PageBase(addr, LIVE_PAGE) / 2 + 128 && HalfSlot(x) == Some(s);
      PageOfHalf(addr, x);
      SamePage(addr);
      SlotPage(x, s);
    } else if LiveBitOf(addr) == Some(SlotBit(s)) {
      PageHoldsBit(addr, s);
    }
  }

  lemma PageOfHalf(addr: nat, x: nat)
    requires PageBase(addr, LIVE_PAGE) / 2 <= x < PageBase(addr, LIVE_PAGE) / 2 + 128
    ensures 2 * x / LIVE_PAGE == addr / LIVE_PAGE && 2 * x / REGION_SIZE == addr / REGION_SIZE
    ensures RegionOf(2 * x) == RegionOf(addr)
  {
    assert 2 * x / LIVE_PAGE == addr / LIVE_PAGE;
    PageDiv(2 * x);
    PageDiv(addr);
  }

  /** Every slot with an entry is in its table, and a ram slot's page is live. */
  lemma EntryIsLive(c: Cache, s: Slot)
    requires CacheInv(c) && s in c.entries
    ensures InTable(s) && (!s.region.Rom? ==> SlotBit(s) in c.live)
  {
    assert Owned(c.ring.funcs, s, c.entries[s]);
    OwnedInTable(c.ring.funcs, s, c.entries[s]);
  }

  /** The code regions and their sizes: 256 KB and 32 KB of ram, repeated through 16 MB each, and 32 MB of rom, three
      times over. */
  lemma RegionsAre(addr: nat)
    requires addr < SPACE
    ensures RegionOf(addr) == if 0x0200_0000 <= addr < 0x0300_0000 then Some(Ewram)
                              else if 0x0300_0000 <= addr < 0x0400_0000 then Some(Iwram)
                              else if 0x0800_0000 <= addr < 0x0E00_0000 then Some(Rom)
                              else None
    ensures 2 * Entries(Ewram) == 0x4_0000 && 2 * Entries(Iwram) == 0x8000 && 2 * Entries(Rom) == 0x200_0000
  {}

  /** Two addresses share an entry exactly if they are in one region and their halfwords agree modulo its size. */
  lemma EntriesShared(a: nat, b: nat)
    requires a < SPACE && b < SPACE && RegionOf(a).Some? && RegionOf(b).Some?
    ensures JitEntry(a) == JitEntry(b) <==>
              RegionOf(a) == RegionOf(b) && (a / 2) % Entries(RegionOf(a).value) == (b / 2) % Entries(RegionOf(b).value)
  {
    SlotOfAddress(a);
    SlotOfAddress(b);
  }

  lemma SlotOfAddress(a: nat)
    requires a < SPACE && RegionOf(a).Some?
    ensures JitEntry(a) == Some(Slot(RegionOf(a).value, (a / 2) % Entries(RegionOf(a).value)))
  {
    EntryIsMirrored(a);
    assert a % SPACE == a && 2 * (a / 2) / REGION_SIZE == a / REGION_SIZE;
  }

  // ---------------------------------------------------------------------------------------------
  // Blocks over an address

  /** The block's guest code contains the byte. */
  predicate Over(b: Block, addr: nat) { b.guestPc - b.guestPc % 2 <= addr < b.guestPcEnd - b.guestPcEnd % 2 }

  /** How many of the first `n` blocks do. */
  function CountOver(funcs: seq<Block>, addr: nat, n: nat): nat
    requires n <= |funcs|
    decreases n
  {
    if n == 0 then 0 else CountOver(funcs, addr, n - 1) + if Over(funcs[n - 1], addr) then 1 else 0
  }

  /** Block `i` is one of the first `room` over the byte. */
  predicate Among(funcs: seq<Block>, addr: nat, room: nat, i: nat) {
    i < |funcs| && Over(funcs[i], addr) && CountOver(funcs, addr, i) < room
  }

  lemma {:induction false} CountOverTail(funcs: seq<Block>, addr: nat, n: nat)
    requires 1 <= n <= |funcs|
    ensures CountOver(funcs, addr, n) == (if Over(funcs[0], addr) then 1 else 0) + CountOver(funcs[1..], addr, n - 1)
    decreases n
  {
    if n > 1 { CountOverTail(funcs, addr, n - 1); }
  }

  lemma {:induction false} CountOverGrows(funcs: seq<Block>, addr: nat, m: nat, n: nat)
    requires m <= n <= |funcs|
    ensures CountOver(funcs, addr, m) <= CountOver(funcs, addr, n)
    ensures m < n && Over(funcs[m], addr) ==> CountOver(funcs, addr, m) < CountOver(funcs, addr, n)
    decreases n
  {
    if m < n { CountOverGrows(funcs, addr, m, n - 1); }
  }

  /** Some block among the first `room` over the byte has the slot. */
  ghost predicate SlotAmong(funcs: seq<Block>, addr: nat, room: nat, s: Slot) {
    exists i: nat :: Among(funcs, addr, room, i) && s in BlockSlots(funcs[i])
  }

  ghost predicate SlotOf(blocks: seq<Block>, s: Slot) { exists i: nat :: i < |blocks| && s in BlockSlots(blocks[i]) }

  /** The blocks collected for clearing are the first `room` over the byte. */
  lemma {:induction false} OverlappingIs(funcs: seq<Block>, addr: nat, room: nat, s: Slot)
    ensures SlotOf(Overlapping(funcs, addr, room), s) <==> SlotAmong(funcs, addr, room, s)
    decreases |funcs|
  {
    if funcs != [] && room > 0 {
      var first, rest := funcs[0], funcs[1..];
      var left := if Over(first, addr) then room - 1 else room;
      OverlappingIs(rest, addr, left, s);
      AmongTail(funcs, addr, room, left, s);
      if Over(first, addr) { SlotOfCons(first, Overlapping(rest, addr, left), s); }
    }
  }

  lemma SlotOfCons(b: Block, blocks: seq<Block>, s: Slot)
    ensures SlotOf([b] + blocks, s) <==> s in BlockSlots(b) || SlotOf(blocks, s)
  {
    var all := [b] + blocks;
    assert all[0] == b;
    if i: nat :| i < |blocks| && s in BlockSlots(blocks[i]) { assert all[i + 1] == blocks[i]; }
    if i: nat :| i < |all| && s in BlockSlots(all[i]) && i > 0 { assert all[i] == blocks[i - 1]; }
  }

  lemma AmongTail(funcs: seq<Block>, addr: nat, room: nat, left: nat, s: Slot)
    requires funcs != [] && room > 0 && left == if Over(funcs[0], addr) then room - 1 else room
    ensures SlotAmong(funcs, addr, room, s) <==>
              (Over(funcs[0], addr) && s in BlockSlots(funcs[0])) || SlotAmong(funcs[1..], addr, left, s)
  {
    assert CountOver(funcs, addr, 0) == 0;
    if i: nat :| Among(funcs, addr, room, i) && s in BlockSlots(funcs[i]) && i > 0 {
      CountOverTail(funcs, addr, i);
      assert Among(funcs[1..], addr, left, i - 1);
    }
    if i: nat :| Among(funcs[1..], addr, left, i) && s in BlockSlots(funcs[1..][i]) {
      CountOverTail(funcs, addr, i + 1);
      assert Among(funcs, addr, room, i + 1);
    }
    if Over(funcs[0], addr) { assert Among(funcs, addr, room, 0); }
  }

  /** Clearing blocks drops exactly the entries of their slots. */
  lemma {:induction false} ClearBlocksIs(entries: map<Slot, nat>, blocks: seq<Block>)
    ensures forall s :: s in ClearBlocks(entries, blocks) <==> s in entries && !SlotOf(blocks, s)
    ensures forall s :: s in ClearBlocks(entries, blocks) ==> ClearBlocks(entries, blocks)[s] == entries[s]
    decreases |blocks|
  {
    if blocks != [] {
      ClearBlocksIs(Fill(entries, BlockSlots(blocks[0]), None), blocks[1..]);
      forall s ensures SlotOf(blocks, s) <==> s in BlockSlots(blocks[0]) || SlotOf(blocks[1..], s) {
        SlotOfCons(blocks[0], blocks[1..], s);
        assert blocks == [blocks[0]] + blocks[1..];
      }
    }
  }

  // ---------------------------------------------------------------------------------------------
  // A guest write

  predicate Hit(c: Cache, addr: nat) { LiveBitOf(addr).Some? && LiveBitOf(addr).value in c.live }

  /** What a written byte takes from the entries if its page is live: the page, and the first eight blocks over it. */
  ghost predicate Drops(c: Cache, addr: nat, s: Slot) {
    LiveBitOf(addr) == Some(SlotBit(s)) || SlotAmong(c.ring.funcs, addr, 8, s)
  }

  lemma InvalidateAtIs(c: Cache, addr: nat)
    requires CacheInv(c) && addr < SPACE
    ensures var r := InvalidateAt(c, addr);
            && r.ring == c.ring
            && (!Hit(c, addr) ==> r == c)
            && (Hit(c, addr) ==> r.live == c.live - {LiveBitOf(addr).value})
            && (forall s :: s in r.entries <==> s in c.entries && !(Hit(c, addr) && Drops(c, addr, s)))
            && (forall s :: s in r.entries ==> r.entries[s] == c.entries[s])
  {
    if Hit(c, addr) {
      var page := Fill(c.entries, Slots(PageBase(addr, LIVE_PAGE), LIVE_PAGE), None);
      var over := Overlapping(c.ring.funcs, addr, MAX_SPANS);
      ClearBlocksIs(page, over);
      forall s | s in c.entries
        ensures s in page <==> LiveBitOf(addr) != Some(SlotBit(s))
        ensures SlotOf(over, s) <==> SlotAmong(c.ring.funcs, addr, 8, s)
      {
        EntryIsLive(c, s);
        PageSlotsIff(addr, s);
        OverlappingIs(c.ring.funcs, addr, 8, s);
      }
    }
  }

  /** The last byte is looked at only if its page is another one, still live. */
  predicate HitLast(c: Cache, addr: nat, size: nat)
    requires size > 0
  {
    Hit(c, addr + size - 1) && (Hit(c, addr) ==> LiveBitOf(addr + size - 1) != LiveBitOf(addr))
  }

  /** The second byte's turn, given what the first one's left. */
  lemma SecondByte(c: Cache, r: Cache, addr: nat, last: nat)
    requires r.ring == c.ring && (!Hit(c, addr) ==> r == c) && (Hit(c, addr) ==> r.live == c.live - {LiveBitOf(addr).value})
    ensures Hit(r, last) <==> Hit(c, last) && (Hit(c, addr) ==> LiveBitOf(last) != LiveBitOf(addr))
    ensures forall s :: Drops(r, last, s) <==> Drops(c, last, s)
    ensures forall b :: b in r.live <==> b in c.live && LiveBitOf(addr) != Some(b)
  {}

  lemma InvalidateBlockIs(c: Cache, addr: nat, size: nat)
    requires CacheInv(c) && size > 0 && addr + size <= SPACE
    ensures var r, last := InvalidateBlock(c, addr, size), addr + size - 1;
            && r.ring == c.ring
            && (forall b :: b in r.live <==> b in c.live && LiveBitOf(addr) != Some(b) && LiveBitOf(last) != Some(b))
            && (forall s :: s in r.entries <==>
                  s in c.entries && !(Hit(c, addr) && Drops(c, addr, s)) && !(HitLast(c, addr, size) && Drops(c, last, s)))
            && (forall s :: s in r.entries ==> r.entries[s] == c.entries[s])
  {
    var mid, last := InvalidateAt(c, addr), addr + size - 1;
    InvalidateAtIs(c, addr);
    InvalidateAtKeeps(c, addr);
    SecondByte(c, mid, addr, last);
    InvalidateAtIs(mid, last);
    SecondByte(mid, InvalidateAt(mid, last), last, last);
  }

  /** The written bytes' pages have no entries left, whether they were live or not. */
  lemma WrittenPagesAreClear(c: Cache, addr: nat, size: nat, s: Slot)
    requires CacheInv(c) && size > 0 && addr + size <= SPACE && s in InvalidateBlock(c, addr, size).entries
    ensures LiveBitOf(addr) != Some(SlotBit(s)) && LiveBitOf(addr + size - 1) != Some(SlotBit(s))
  {
    InvalidateBlockIs(c, addr, size);
    EntryIsLive(c, s);
  }

  /** Where the byte's page is live and at most eight blocks lie over it, none of them is reached afterwards. */
  lemma NoStaleCode(c: Cache, addr: nat, i: nat, s: Slot)
    requires CacheInv(c) && addr < SPACE && Hit(c, addr) && CountOver(c.ring.funcs, addr, |c.ring.funcs|) <= 8
    requires i < |c.ring.funcs| && Over(c.ring.funcs[i], addr) && s in BlockSlots(c.ring.funcs[i])
    ensures s !in InvalidateAt(c, addr).entries
  {
    InvalidateAtIs(c, addr);
    CountOverGrows(c.ring.funcs, addr, i, |c.ring.funcs|);
    assert Among(c.ring.funcs, addr, 8, i);
  }

  /** A block that starts inside the written word, past its first byte, keeps an entry of its exactly if that one is off
      the page and in no block over the first byte. */
  lemma WriteIsStaleIff(c: Cache, addr: nat, size: nat, i: nat, s: Slot)
    requires CacheInv(c) && size > 0 && addr + size <= SPACE && Hit(c, addr) && LiveBitOf(addr + size - 1) == LiveBitOf(addr)
    requires CountOver(c.ring.funcs, addr, |c.ring.funcs|) <= 8 && i < |c.ring.funcs|
    requires Over(c.ring.funcs[i], addr + size - 1) && s in BlockSlots(c.ring.funcs[i])
    ensures s in InvalidateBlock(c, addr, size).entries <==>
              s in c.entries && LiveBitOf(addr) != Some(SlotBit(s)) &&
              forall j: nat :: j < |c.ring.funcs| && Over(c.ring.funcs[j], addr) ==> s !in BlockSlots(c.ring.funcs[j])
  {
    InvalidateBlockIs(c, addr, size);
    forall j: nat | j < |c.ring.funcs| && Over(c.ring.funcs[j], addr) ensures Among(c.ring.funcs, addr, 8, j) {
      CountOverGrows(c.ring.funcs, addr, j, |c.ring.funcs|);
    }
  }

  // ---------------------------------------------------------------------------------------------
  // The other operations

  /** A page range: exactly the entries of its pages go. */
  lemma {:induction false} InvalidatePagesIs(c: Cache, page: nat, count: nat)
    requires CacheInv(c) && (page + count) * LIVE_PAGE <= SPACE
    ensures var r := InvalidatePages(c, page, count);
            && r.ring == c.ring
            && (forall b :: b in r.live <==> b in c.live && !InRange(page, count, b))
            && (forall s :: s in r.entries <==> s in c.entries && !InRange(page, count, SlotBit(s)))
            && (forall s :: s in r.entries ==> r.entries[s] == c.entries[s])
    decreases count
  {
    if count > 0 {
      var addr := page * LIVE_PAGE;
      InvalidatePageIs(c, addr);
      InvalidatePageKeeps(c, addr);
      InvalidatePagesIs(InvalidatePage(c, addr), page + 1, count - 1);
      forall b ensures InRange(page, count, b) <==> LiveBitOf(addr) == Some(b) || InRange(page + 1, count - 1, b) {
        RangeSplitsOff(page, count, b);
      }
    }
  }

  ghost predicate InRange(page: nat, count: nat, b: LiveBit) {
    exists p: nat :: page <= p < page + count && LiveBitOf(p * LIVE_PAGE) == Some(b)
  }

  lemma RangeSplitsOff(page: nat, count: nat, b: LiveBit)
    requires count > 0
    ensures InRange(page, count, b) <==> LiveBitOf(page * LIVE_PAGE) == Some(b) || InRange(page + 1, count - 1, b)
  {
    if p: nat :| page <= p < page + count && LiveBitOf(p * LIVE_PAGE) == Some(b) && p > page {
      assert InRange(page + 1, count - 1, b);
    }
    if p: nat :| page + 1 <= p < page + 1 + (count - 1) && LiveBitOf(p * LIVE_PAGE) == Some(b) {
      assert InRange(page, count, b);
    }
  }

  lemma InvalidatePageIs(c: Cache, addr: nat)
    requires CacheInv(c) && addr < SPACE
    ensures var r := InvalidatePage(c, addr);
            && r.ring == c.ring
            && (forall b :: b in r.live <==> b in c.live && LiveBitOf(addr) != Some(b))
            && (forall s :: s in r.entries <==> s in c.entries && LiveBitOf(addr) != Some(SlotBit(s)))
            && (forall s :: s in r.entries ==> r.entries[s] == c.entries[s])
  {
    forall s | s in c.entries
      ensures s in InvalidatePage(c, addr).entries <==> LiveBitOf(addr) != Some(SlotBit(s))
    {
      EntryIsLive(c, s);
      if LiveBitOf(addr).Some? { PageSlotsIff(addr, s); }
    }
  }

  /** A 4 KB page gone sticky: exactly its entries and its live bits go, at every mirror. */
  lemma InvalidateMmuPageIs(c: Cache, addr: nat)
    requires CacheInv(c) && addr < SPACE && LiveBitOf(PageBase(addr, MMU_PAGE)).Some?
    ensures var r, page := InvalidateMmuPage(c, addr), addr / MMU_PAGE * 16;
            && r.ring == c.ring
            && (forall b :: b in r.live <==> b in c.live && !InRange(page, 16, b))
            && (forall s :: s in r.entries <==> s in c.entries && !InRange(page, 16, SlotBit(s)))
            && (forall s :: s in r.entries ==> r.entries[s] == c.entries[s])
  {
    var base := PageBase(addr, MMU_PAGE);
    MmuBase(addr);
    var bits := ByteBits(base) + ByteBits(base + 2048);
    forall b ensures b in bits <==> InRange(addr / MMU_PAGE * 16, 16, b) { MmuBitsAre(base, addr / MMU_PAGE * 16, b); }
    forall s | s in c.entries ensures s in Slots(base, MMU_PAGE) <==> SlotBit(s) in bits {
      EntryIsLive(c, s);
      MmuSlotsIff(base, s);
    }
  }

  /** The bits of the two live-range bytes are those of the sixteen pages. */
  lemma MmuBitsAre(base: nat, page: nat, b: LiveBit)
    requires base == page * LIVE_PAGE && base % MMU_PAGE == 0
    ensures b in ByteBits(base) + ByteBits(base + 2048) <==> InRange(page, 16, b)
  {
    HalfBits(base, page, b);
    HalfBits(base + 2048, page + 8, b);
    RangeJoins(page, 8, 8, b);
  }

  lemma {:induction false} RangeJoins(page: nat, n: nat, m: nat, b: LiveBit)
    ensures InRange(page, n + m, b) <==> InRange(page, n, b) || InRange(page + n, m, b)
    decreases n
  {
    if n > 0 {
      RangeSplitsOff(page, n + m, b);
      RangeSplitsOff(page, n, b);
      RangeJoins(page + 1, n - 1, m, b);
    }
  }

  /** The bit of the `k`-th of the eight pages that share a live-range byte. */
  lemma BitOfPage(at: nat, p: nat, k: nat)
    requires p * LIVE_PAGE == at + k * LIVE_PAGE && at % 2048 == 0 && k < 8
    ensures LiveBitOf(p * LIVE_PAGE) ==
            if LiveBitOf(at).None? then None else Some(LiveBit(LiveBitOf(at).value.region, LiveBitOf(at).value.byte, k))
  {
    ByteAddress(at, k);
  }

  /** One live-range byte holds the bits of the eight pages from its address on. */
  lemma HalfBits(at: nat, page: nat, b: LiveBit)
    requires at == page * LIVE_PAGE && at % 2048 == 0
    ensures b in ByteBits(at) <==> InRange(page, 8, b)
  {
    if b in ByteBits(at) {
      BitOfPage(at, page + b.bit, b.bit);
      assert LiveBitOf((page + b.bit) * LIVE_PAGE) == Some(b);
    }
    if InRange(page, 8, b) {
      var p: nat :| page <= p < page + 8 && LiveBitOf(p * LIVE_PAGE) == Some(b);
      BitOfPage(at, p, p - page);
    }
  }

  lemma MmuSlotsIff(base: nat, s: Slot)
    requires base % MMU_PAGE == 0 && base + MMU_PAGE <= SPACE && LiveBitOf(base).Some? && InTable(s)
    ensures s in Slots(base, MMU_PAGE) <==> SlotBit(s) in ByteBits(base) + ByteBits(base + 2048)
  {
    if SlotBit(s) in ByteBits(base) {
      MmuPageHoldsByte(base, base, s);
    } else if SlotBit(s) in ByteBits(base + 2048) {
      MmuPageHoldsByte(base, base + 2048, s);
    }
    if s in Slots(base, MMU_PAGE) {
      var x: nat :| base / 2 <= x < base / 2 + 2048 && HalfSlot(x) == Some(s);
      MmuHalf(base, x);
      SlotPage(x, s);
      HalfInRange(base / MMU_PAGE * 16, 2 * x / LIVE_PAGE, SlotBit(s));
      MmuBitsAre(base, base / MMU_PAGE * 16, SlotBit(s));
    }
  }

  lemma HalfInRange(page: nat, p: nat, b: LiveBit)
    requires page <= p < page + 16 && LiveBitOf(p * LIVE_PAGE) == Some(b)
    ensures InRange(page, 16, b)
  {}

  lemma MmuHalf(base: nat, x: nat)
    requires base % MMU_PAGE == 0 && base / 2 <= x < base / 2 + 2048
    ensures RegionOf(2 * x) == RegionOf(base)
    ensures base / MMU_PAGE * 16 <= 2 * x / LIVE_PAGE < base / MMU_PAGE * 16 + 16 && base == base / MMU_PAGE * MMU_PAGE
  {
    assert 2 * x / REGION_SIZE == base / REGION_SIZE;
  }

  /** Rewinding: exactly the entries and live bits of ram go. */
  lemma InvalidateRamIs(c: Cache)
    ensures var r := InvalidateRam(c);
            && r.ring == c.ring
            && (forall s :: s in r.entries <==> s in c.entries && s.region == Rom)
            && (forall s :: s in r.entries ==> r.entries[s] == c.entries[s])
            && (forall b :: b in r.live <==> b in c.live && b.region == Rom)
  {}

  lemma FilledIs(entries: map<Slot, nat>, evicted: seq<Block>, slots: set<Slot>, addr: nat, e: map<Slot, nat>)
    requires e == Fill(ClearBlocks(entries, evicted), slots, Some(addr))
    ensures forall s :: s in e <==> s in slots || (s in entries && !SlotOf(evicted, s))
    ensures forall s :: s in e ==> e[s] == if s in slots then addr else entries[s]
  {
    ClearBlocksIs(entries, evicted);
  }

  lemma InsertUnfolds(c: Cache, pages: nat, pc: nat, pcEnd: nat, thumb: bool, a: Allocated) returns (r: Cache)
    requires GuestSpan(pc, pcEnd, thumb) && Allocate(c.ring, pages) == Some(a)
    ensures Insert(c, pages, pc, pcEnd, thumb) == Some(r)
    ensures var t := if thumb then 1 else 0;
            r.ring == a.ring.(funcs := a.ring.funcs + [Block(pc + t, pcEnd + t, a.addr, a.addr + pages)])
    ensures r.entries == Fill(ClearBlocks(c.entries, a.evicted), Slots(pc, pcEnd - pc), Some(a.addr))
    ensures r.live == c.live + LiveSpan(pc, pcEnd - Step(thumb))
  {
    r := Insert(c, pages, pc, pcEnd, thumb).value;
  }

  /** A new block is reached from exactly the halfwords of its span; of the older entries those of evicted blocks go. */
  lemma InsertIs(c: Cache, pages: nat, pc: nat, pcEnd: nat, thumb: bool, a: Allocated) returns (r: Cache)
    requires GuestSpan(pc, pcEnd, thumb) && Allocate(c.ring, pages) == Some(a)
    ensures Insert(c, pages, pc, pcEnd, thumb) == Some(r)
    ensures forall s :: s in r.entries <==> s in Slots(pc, pcEnd - pc) || (s in c.entries && !SlotOf(a.evicted, s))
    ensures forall s :: s in r.entries ==> r.entries[s] == if s in Slots(pc, pcEnd - pc) then a.addr else c.entries[s]
    ensures forall b :: b in r.live <==> b in c.live || PageOf(pc, pcEnd - Step(thumb), b)
    ensures var t := if thumb then 1 else 0;
            r.ring == a.ring.(funcs := a.ring.funcs + [Block(pc + t, pcEnd + t, a.addr, a.addr + pages)])
  {
    r := InsertUnfolds(c, pages, pc, pcEnd, thumb, a);
    FilledIs(c.entries, a.evicted, Slots(pc, pcEnd - pc), a.addr, r.entries);
    SpanAligned(pc, pcEnd, thumb);
    LiveSpanIs(pc, pcEnd - Step(thumb), LiveSpan(pc, pcEnd - Step(thumb)));
  }

  /** The bit is that of the page of some byte of the span. */
  ghost predicate PageOf(first: nat, last: nat, b: LiveBit) {
    exists addr: nat :: first <= addr <= last && LiveBitOf(addr) == Some(b)
  }

  lemma LiveSpanIs(first: nat, last: nat, span: set<LiveBit>)
    requires first <= last && span == LiveSpan(first, last)
    ensures forall b :: b in span <==> PageOf(first, last, b)
  {
    forall b | b in span ensures PageOf(first, last, b) {
      var i: nat :| first / LIVE_PAGE <= i <= last / LIVE_PAGE && LiveBitOf(i * LIVE_PAGE) == Some(b);
      InPage(first, last, i, b);
    }
    forall b | PageOf(first, last, b) ensures b in span {
      var addr: nat :| first <= addr <= last && LiveBitOf(addr) == Some(b);
      SamePage(addr);
      PageBetween(first, addr, last);
      InLiveSpan(addr / LIVE_PAGE, first, last);
    }
  }

  lemma InPage(first: nat, last: nat, i: nat, b: LiveBit)
    requires first <= last && first / LIVE_PAGE <= i <= last / LIVE_PAGE && LiveBitOf(i * LIVE_PAGE) == Some(b)
    ensures PageOf(first, last, b)
  {
    var addr := if i * LIVE_PAGE < first then first else i * LIVE_PAGE;
    assert addr / LIVE_PAGE == i;
    SamePage(addr);
  }

  const PC := 0x0200_00F2
  const PC_END := 0x0200_0110

  /** Of that block, the halfword at 0x02000104 lies on the page after the one its first halfword is on. */
  lemma TwoPages()
    ensures GuestSpan(PC, PC_END, true)
    ensures LiveBitOf(0x0200_00F0) == LiveBitOf(0x0200_00F3) == Some(LiveBit(Ewram, 0, 0))
    ensures JitEntry(0x0200_0104) == Some(Slot(Ewram, 0x82)) && SlotBit(Slot(Ewram, 0x82)) == LiveBit(Ewram, 0, 1)
    ensures Slot(Ewram, 0x82) in Slots(PC, PC_END - PC)
  {
    assert HalfSlot(0x100_0082) == Some(Slot(Ewram, 0x82));
    InSpan(0x100_0082, PC / 2, (PC_END - PC) / 2);
  }

  lemma OneBlock() returns (c: Cache)
    requires GuestSpan(PC, PC_END, true)
    ensures Insert(Empty(), 1, PC, PC_END, true) == Some(c) && CacheInv(c)
    ensures c.ring.funcs == [Block(PC + 1, PC_END + 1, 0, 1)]
    ensures forall s :: s in Slots(PC, PC_END - PC) ==> s in c.entries && c.entries[s] == 0
    ensures PageOf(PC, PC_END - 2, LiveBit(Ewram, 0, 0)) ==> LiveBit(Ewram, 0, 0) in c.live
  {
    FreshInOrder();
    var a := Allocated(0, Fresh().(start := 1), []);
    assert Allocate(Fresh(), 1) == Some(a);
    InsertKeeps(Empty(), 1, PC, PC_END, true);
    c := InsertIs(Empty(), 1, PC, PC_END, true, a);
  }

  /** A thumb block from 0x020000F2 to 0x02000110 and a word written at 0x020000F0: the block's entry at 0x02000104 is
      still there, although its first halfword was overwritten. */
  lemma StaleAfterWrite() returns (c: Cache, r: Cache)
    ensures GuestSpan(PC, PC_END, true) && Insert(Empty(), 1, PC, PC_END, true) == Some(c) && CacheInv(c)
    ensures r == InvalidateBlock(c, 0x0200_00F0, 4) && Hit(c, 0x0200_00F0) && |r.ring.funcs| == 1
    ensures Over(r.ring.funcs[0], 0x0200_00F2) && Over(r.ring.funcs[0], 0x0200_00F3)
    ensures JitEntry(0x0200_0104) == Some(Slot(Ewram, 0x82)) && Slot(Ewram, 0x82) in r.entries
    ensures r.entries[Slot(Ewram, 0x82)] == r.ring.funcs[0].lo
  {
    TwoPages();
    c := OneBlock();
    assert PageOf(PC, PC_END - 2, LiveBit(Ewram, 0, 0)) by { assert LiveBitOf(0x0200_00F3) == Some(LiveBit(Ewram, 0, 0)); }
    r := StillThere(c);
  }

  lemma StillThere(c: Cache) returns (r: Cache)
    requires CacheInv(c) && c.ring.funcs == [Block(PC + 1, PC_END + 1, 0, 1)] && Hit(c, 0x0200_00F0)
    requires LiveBitOf(0x0200_00F0) == LiveBitOf(0x0200_00F3) == Some(LiveBit(Ewram, 0, 0))
    requires SlotBit(Slot(Ewram, 0x82)) == LiveBit(Ewram, 0, 1)
    requires Slot(Ewram, 0x82) in c.entries && c.entries[Slot(Ewram, 0x82)] == 0
    ensures r == InvalidateBlock(c, 0x0200_00F0, 4) && r.ring == c.ring
    ensures Over(r.ring.funcs[0], 0x0200_00F2) && Over(r.ring.funcs[0], 0x0200_00F3)
    ensures Slot(Ewram, 0x82) in r.entries && r.entries[Slot(Ewram, 0x82)] == 0
  {
    r := InvalidateBlock(c, 0x0200_00F0, 4);
    InvalidateBlockIs(c, 0x0200_00F0, 4);
    assert forall i: nat :: i < |c.ring.funcs| ==> !Over(c.ring.funcs[i], 0x0200_00F0);
  }
}
