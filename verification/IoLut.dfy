/**
 The I/O lookup-table generator: from a table of registers to 1-, 2- and 4-byte accessors.

 - `AssembleLut`: the incremental scan lists, for every window of the table, exactly the registers that
   overlap it, in order, and never more of them than the window has bytes (`FewPerWindow`);
 - `ReadIsImage`: the generated read of a window is those bytes of the flat little-endian register image;
 - `WriteIsImage`: the generated value and mask pairs change those bytes of the image and no others;
 - `TableIndex`: the generated index arithmetic finds the window of every aligned offset in range.
 Words are sequences of bytes, least significant first, and bytes are their eight bits.
 */
module IoLut {

  /** A register of 1, 2 or 4 bytes. */
  datatype Reg = Reg(offset: nat, size: nat)

  function End(r: Reg): nat { r.offset + r.size }

  predicate Width(n: nat) { n == 1 || n == 2 || n == 4 }

  /** `x % width == 0`, for the widths there are. */
  predicate Multiple(x: nat, width: nat) {
    width == 1 || (width == 2 && x % 2 == 0) || (width == 4 && x % 4 == 0)
  }

  lemma MultipleIs(x: nat, width: nat) returns (q: nat)
    requires Multiple(x, width)
    ensures x == (if width == 1 then q else if width == 2 then 2 * q else 4 * q) && x % width == 0
  {
    q := if width == 1 then x else if width == 2 then x / 2 else x / 4;
  }

  predicate Natural(r: Reg) { Width(r.size) && Multiple(r.offset, r.size) }

  predicate NaturalAt(regs: seq<Reg>, i: nat) { i < |regs| && Natural(regs[i]) }

  predicate Apart(regs: seq<Reg>, i: nat, j: nat) { i < j < |regs| && End(regs[i]) <= regs[j].offset }

  /** Registers in ascending order, disjoint, naturally aligned, from a 4-aligned offset on. */
  ghost predicate ValidTable(regs: seq<Reg>) {
    && |regs| > 0 && Multiple(regs[0].offset, 4)
    && (forall i: nat :: i < |regs| ==> NaturalAt(regs, i))
    && (forall i: nat, j: nat :: i < j < |regs| ==> Apart(regs, i, j))
  }

  predicate Overlaps(r: Reg, addr: nat, align: nat) {
    addr <= r.offset < addr + align || r.offset <= addr < End(r)
  }

  // ---------------------------------------------------------------------------------------------
  // The window scan

  /** The registers below `n` that overlap a window. */
  function Overlapping(regs: seq<Reg>, addr: nat, align: nat, n: nat): (r: seq<nat>)
    requires n <= |regs|
    ensures forall k :: 0 <= k < |r| ==> r[k] < n
    decreases n
  {
    if n == 0 then []
    else Overlapping(regs, addr, align, n - 1) + if Overlaps(regs[n - 1], addr, align) then [n - 1] else []
  }

  lemma {:induction false} OverlappingIff(regs: seq<Reg>, addr: nat, align: nat, n: nat, i: nat)
    requires i < n <= |regs|
    ensures i in Overlapping(regs, addr, align, n) <==> Overlaps(regs[i], addr, align)
    decreases n
  {
    if i < n - 1 {
      OverlappingIff(regs, addr, align, n - 1, i);
    }
  }

  predicate Ascends(entries: seq<nat>) { forall a, b :: 0 <= a < b < |entries| ==> entries[a] < entries[b] }

  lemma {:induction false} OverlappingAscends(regs: seq<Reg>, addr: nat, align: nat, n: nat)
    requires n <= |regs|
    ensures Ascends(Overlapping(regs, addr, align, n))
    decreases n
  {
    if n > 0 { OverlappingAscends(regs, addr, align, n - 1); }
  }

  /** No overlap in a stretch of the table: the list does not grow. */
  lemma {:induction false} NoneBetween(regs: seq<Reg>, addr: nat, align: nat, m: nat, n: nat)
    requires m <= n <= |regs| && forall i :: m <= i < n ==> !Overlaps(regs[i], addr, align)
    ensures Overlapping(regs, addr, align, n) == Overlapping(regs, addr, align, m)
    decreases n
  {
    if m < n { NoneBetween(regs, addr, align, m, n - 1); }
  }

  datatype LutEntry = LutEntry(offset: nat, entries: seq<nat>)

  function AlignDown(x: nat, align: nat): nat
    requires Width(align)
  {
    if align == 2 then x - x % 2 else if align == 4 then x - x % 4 else x
  }

  function AlignUp(x: nat, align: nat): nat
    requires Width(align)
  {
    AlignDown(x + (align - 1), align)
  }

  /** Everything before the resume index ends at or before the window. */
  ghost predicate Behind(regs: seq<Reg>, index: nat, addr: nat) {
    index <= |regs| && forall i :: 0 <= i < index ==> End(regs[i]) <= addr
  }

  /** The resume index may move up to any register that starts inside the window. */
  lemma Resume(regs: seq<Reg>, i: nat, addr: nat, align: nat)
    requires ValidTable(regs) && i < |regs| && Overlaps(regs[i], addr, align) && align > 0
    ensures Behind(regs, i, addr + align)
  {
    forall k | 0 <= k < i
      ensures End(regs[k]) <= addr + align
    {
      assert Apart(regs, k, i);
    }
  }

  /** Past a register that starts after the window nothing overlaps. */
  lemma NoneAfter(regs: seq<Reg>, i: nat, addr: nat, align: nat)
    requires ValidTable(regs) && i < |regs| && addr + align <= regs[i].offset && align > 0
    ensures Overlapping(regs, addr, align, |regs|) == Overlapping(regs, addr, align, i)
  {
    forall k | i <= k < |regs|
      ensures !Overlaps(regs[k], addr, align)
    {
      if i < k { assert Apart(regs, i, k); }
    }
    NoneBetween(regs, addr, align, i, |regs|);
  }

  lemma NoneBefore(regs: seq<Reg>, index: nat, addr: nat, align: nat)
    requires Behind(regs, index, addr) && ValidTable(regs)
    ensures Overlapping(regs, addr, align, index) == []
  {
    forall k: nat | k < index
      ensures !Overlaps(regs[k], addr, align)
    {
      assert NaturalAt(regs, k);
    }
    NoneBetween(regs, addr, align, 0, index);
  }

  /** One window: from the resume index on, until a register starts after it. */
  method ScanWindow(regs: seq<Reg>, addr: nat, align: nat, index: nat) returns (within: seq<nat>, next: nat)
    requires ValidTable(regs) && align > 0 && index < |regs| && Behind(regs, index, addr)
    ensures within == Overlapping(regs, addr, align, |regs|)
    ensures index <= next < |regs| && Behind(regs, next, addr + align)
  {
    within, next := [], index;
    NoneBefore(regs, index, addr, align);
    var i := index;
    while i < |regs|
      invariant index <= i <= |regs| && index <= next < |regs|
      invariant within == Overlapping(regs, addr, align, i)
      invariant Behind(regs, next, addr + align)
    {
      if Overlaps(regs[i], addr, align) {
        within := within + [i];
        Resume(regs, i, addr, align);
        next := i;
      } else if addr + align <= regs[i].offset {
        NoneAfter(regs, i, addr, align);
        return;
      }
      i := i + 1;
    }
  }

  /** Windows of the table: where they start and how many there are. */
  function First(regs: seq<Reg>, align: nat): nat
    requires |regs| > 0 && Width(align)
  {
    AlignDown(regs[0].offset, align)
  }

  function Last(regs: seq<Reg>, align: nat): nat
    requires |regs| > 0 && Width(align)
  {
    AlignUp(End(regs[|regs| - 1]), align)
  }

  /** Window `k`: its offset, and exactly the registers over it. */
  ghost predicate LutEntryIs(regs: seq<Reg>, align: nat, k: nat, e: LutEntry)
    requires |regs| > 0 && Width(align)
  {
    e.offset == First(regs, align) + k * align && e.entries == Overlapping(regs, e.offset, align, |regs|)
  }

  ghost predicate LutIs(regs: seq<Reg>, align: nat, lut: seq<LutEntry>)
    requires |regs| > 0 && Width(align)
  {
    forall k :: 0 <= k < |lut| ==> LutEntryIs(regs, align, k, lut[k])
  }

  lemma OneMore(n: nat, align: nat)
    ensures (n + 1) * align == n * align + align
  {
  }

  method AssembleLut(regs: seq<Reg>, align: nat) returns (lut: seq<LutEntry>)
    requires ValidTable(regs) && Width(align)
    ensures LutIs(regs, align, lut)
    ensures First(regs, align) + |lut| * align >= Last(regs, align)
    ensures |lut| > 0 ==> First(regs, align) + |lut| * align < Last(regs, align) + align
  {
    lut := [];
    ghost var first, last := First(regs, align), Last(regs, align);
    var addr, end, index := First(regs, align), Last(regs, align), 0;
    while addr < end
      invariant addr == first + |lut| * align && index < |regs| && Behind(regs, index, addr)
      invariant LutIs(regs, align, lut) && (|lut| > 0 ==> addr < last + align)
      decreases end - addr
    {
      var within, next := ScanWindow(regs, addr, align, index);
      OneMore(|lut|, align);
      lut := lut + [LutEntry(addr, within)];
      addr, index := addr + align, next;
    }
  }

  /** The generator's own assertion: at most one register per byte of the window. */
  lemma FewPerWindow(regs: seq<Reg>, addr: nat, align: nat)
    requires ValidTable(regs) && Width(align)
    ensures |Overlapping(regs, addr, align, |regs|)| <= align
  {
    var o := Overlapping(regs, addr, align, |regs|);
    OverlappingAscends(regs, addr, align, |regs|);
    if |o| > 0 { Spread(regs, addr, align, o, |o| - 1); }
  }

  lemma {:induction false} Spread(regs: seq<Reg>, addr: nat, align: nat, o: seq<nat>, k: nat)
    requires ValidTable(regs) && o == Overlapping(regs, addr, align, |regs|) && Ascends(o) && k < |o|
    ensures addr < End(regs[o[k]]) && (k > 0 ==> addr + k <= regs[o[k]].offset < addr + align)
    decreases k
  {
    OverlappingIff(regs, addr, align, |regs|, o[k]);
    assert NaturalAt(regs, o[k]);
    if k > 0 {
      Spread(regs, addr, align, o, k - 1);
      assert NaturalAt(regs, o[k - 1]);
      assert Apart(regs, o[k - 1], o[k]);
    }
  }

  // ---------------------------------------------------------------------------------------------
  // Words as byte lanes

  /** A byte as its eight bits. */
  datatype Octet = Octet(b0: bool, b1: bool, b2: bool, b3: bool, b4: bool, b5: bool, b6: bool, b7: bool)

  const ZERO: Octet := Octet(false, false, false, false, false, false, false, false)
  const ONES: Octet := Octet(true, true, true, true, true, true, true, true)

  function Or8(x: Octet, y: Octet): Octet {
    Octet(x.b0 || y.b0, x.b1 || y.b1, x.b2 || y.b2, x.b3 || y.b3, x.b4 || y.b4, x.b5 || y.b5, x.b6 || y.b6, x.b7 || y.b7)
  }

  function And8(x: Octet, y: Octet): Octet {
    Octet(x.b0 && y.b0, x.b1 && y.b1, x.b2 && y.b2, x.b3 && y.b3, x.b4 && y.b4, x.b5 && y.b5, x.b6 && y.b6, x.b7 && y.b7)
  }

  function Not8(x: Octet): Octet { Octet(!x.b0, !x.b1, !x.b2, !x.b3, !x.b4, !x.b5, !x.b6, !x.b7) }

  type Word = seq<Octet>

  /** A word given lane by lane. */
  function Lanes(n: nat, lane: nat -> Octet): (r: Word)
    ensures |r| == n
  {
    seq(n, i requires 0 <= i < n => lane(i))
  }

  function At(w: Word, i: int): Octet { if 0 <= i < |w| then w[i] else ZERO }

  /** `as uN`: truncate or zero-extend. */
  function Cast(w: Word, n: nat): (r: Word)
    ensures |r| == n
  {
    Lanes(n, i => At(w, i))
  }

  /** `<< 8 * k` and `>> 8 * k` in the word's own width. */
  function Shl(w: Word, k: nat): (r: Word)
    ensures |r| == |w|
  {
    Lanes(|w|, i => At(w, i - k))
  }

  function Shr(w: Word, k: nat): (r: Word)
    ensures |r| == |w|
  {
    Lanes(|w|, i => At(w, i + k))
  }

  function Or(a: Word, b: Word): (r: Word)
    ensures |r| == |a|
  {
    Lanes(|a|, i => Or8(At(a, i), At(b, i)))
  }

  /** The setter of a register: only masked bits change. */
  function Merge(was: Word, value: Word, mask: Word): (r: Word)
    ensures |r| == |was|
  {
    Lanes(|was|, i => Or8(And8(At(was, i), Not8(At(mask, i))), And8(At(value, i), At(mask, i))))
  }

  function Zeros(n: nat): (r: Word)
    ensures |r| == n
  {
    Lanes(n, _ => ZERO)
  }

  function Ones(n: nat): (r: Word)
    ensures |r| == n
  {
    Lanes(n, _ => ONES)
  }

  // ---------------------------------------------------------------------------------------------
  // The register image

  ghost predicate ValidValues(regs: seq<Reg>, vals: seq<Word>) {
    |vals| == |regs| && forall i :: 0 <= i < |regs| ==> |vals[i]| == regs[i].size
  }

  predicate Contains(r: Reg, b: nat) { r.offset <= b < End(r) }

  /** The byte at address `b` of the flat image; unmapped bytes read as 0. */
  ghost function Image(regs: seq<Reg>, vals: seq<Word>, b: nat, n: nat): Octet
    requires ValidValues(regs, vals) && n <= |regs|
    decreases n
  {
    if n == 0 then ZERO
    else if Contains(regs[n - 1], b) then vals[n - 1][b - regs[n - 1].offset]
    else Image(regs, vals, b, n - 1)
  }

  lemma {:induction false} ImageIs(regs: seq<Reg>, vals: seq<Word>, b: nat, n: nat, i: nat)
    requires ValidTable(regs) && ValidValues(regs, vals) && i < n <= |regs| && Contains(regs[i], b)
    ensures Image(regs, vals, b, n) == vals[i][b - regs[i].offset]
    decreases n
  {
    if i < n - 1 {
      assert Apart(regs, i, n - 1);
      ImageIs(regs, vals, b, n - 1, i);
    }
  }

  lemma {:induction false} ImageIsZero(regs: seq<Reg>, vals: seq<Word>, b: nat, n: nat)
    requires ValidValues(regs, vals) && n <= |regs| && forall i :: 0 <= i < n ==> !Contains(regs[i], b)
    ensures Image(regs, vals, b, n) == ZERO
    decreases n
  {
    if n > 0 { ImageIsZero(regs, vals, b, n - 1); }
  }

  predicate NestedIn(r: Reg, addr: nat, align: nat) {
    if r.offset >= addr then (r.size <= align && End(r) <= addr + align) || r.offset == addr else addr + align <= End(r)
  }

  lemma NestedTwoInFour(o: nat, a: nat)
    requires 4 * a <= 2 * o < 4 * a + 4 || 2 * o <= 4 * a < 2 * o + 2
    ensures 2 * o >= 4 * a && 2 * o + 2 <= 4 * a + 4
  {
    assert 2 * a <= o < 2 * a + 2;
  }

  lemma NestedFourAroundTwo(o: nat, a: nat)
    requires 2 * a <= 4 * o < 2 * a + 2 || 4 * o <= 2 * a < 4 * o + 4
    ensures 4 * o == 2 * a || (4 * o < 2 * a && 2 * a + 2 <= 4 * o + 4)
  {
    assert a == 2 * o || a == 2 * o + 1;
  }

  lemma NestedBySize(r: Reg, addr: nat, align: nat, o: nat, a: nat)
    requires Overlaps(r, addr, align) && Width(r.size) && Width(align)
    requires r.size == 1 || (r.size == 2 && r.offset == 2 * o) || (r.size == 4 && r.offset == 4 * o)
    requires align == 1 || (align == 2 && addr == 2 * a) || (align == 4 && addr == 4 * a)
    ensures NestedIn(r, addr, align)
  {
    if r.size == 1 || align == 1 {
    } else if r.size == 2 && align == 4 {
      NestedTwoInFour(o, a);
    } else if r.size == 4 && align == 2 {
      NestedFourAroundTwo(o, a);
    } else if r.size == 2 {
      assert o == a;
    } else {
      assert o == a;
    }
  }

  /** A window and a register that overlap are nested. */
  lemma Nested(r: Reg, addr: nat, align: nat)
    requires Natural(r) && Width(align) && Multiple(addr, align) && Overlaps(r, addr, align)
    ensures NestedIn(r, addr, align)
  {
    var o := MultipleIs(r.offset, r.size);
    var a := MultipleIs(addr, align);
    NestedBySize(r, addr, align, o, a);
  }

  // ---------------------------------------------------------------------------------------------
  // Generated reads

  /** One register's part of a window read. */
  function Part(r: Reg, value: Word, addr: nat, align: nat): (p: Word)
    ensures |p| == align
  {
    if r.offset >= addr then Shl(Cast(value, align), r.offset - addr) else Cast(Shr(value, addr - r.offset), align)
  }

  /** `0 | part | part ...` */
  function ReadWindow(regs: seq<Reg>, vals: seq<Word>, entries: seq<nat>, addr: nat, align: nat): (w: Word)
    requires |vals| == |regs| && forall k :: 0 <= k < |entries| ==> entries[k] < |regs|
    ensures |w| == align
    decreases |entries|
  {
    if entries == [] then Zeros(align)
    else
      var last := entries[|entries| - 1];
      Or(ReadWindow(regs, vals, entries[..|entries| - 1], addr, align), Part(regs[last], vals[last], addr, align))
  }

  lemma CastAt(w: Word, n: nat, i: nat)
    requires i < n
    ensures Cast(w, n)[i] == At(w, i)
  {
  }

  lemma ShlAt(w: Word, k: nat, i: nat)
    requires i < |w|
    ensures Shl(w, k)[i] == At(w, i - k)
  {
  }

  lemma ShrAt(w: Word, k: nat, i: nat)
    requires i < |w|
    ensures Shr(w, k)[i] == At(w, i + k)
  {
  }

  /** A part holds the register's bytes in their lanes and zeros elsewhere. */
  lemma PartLane(r: Reg, value: Word, addr: nat, align: nat, j: nat)
    requires Natural(r) && Width(align) && Multiple(addr, align) && Overlaps(r, addr, align)
    requires |value| == r.size && j < align
    ensures Part(r, value, addr, align)[j] == if Contains(r, addr + j) then value[addr + j - r.offset] else ZERO
  {
    Nested(r, addr, align);
    if r.offset >= addr {
      var k := r.offset - addr;
      ShlAt(Cast(value, align), k, j);
      if j >= k { CastAt(value, align, j - k); }
    } else {
      var k := addr - r.offset;
      CastAt(Shr(value, k), align, j);
      if j < |value| { ShrAt(value, k, j); }
    }
  }

  /** Entry `k` of a window's list is a register over the window. */
  ghost predicate EntryOk(regs: seq<Reg>, vals: seq<Word>, i: nat, addr: nat, align: nat) {
    i < |regs| == |vals| && Natural(regs[i]) && |vals[i]| == regs[i].size && Overlaps(regs[i], addr, align)
  }

  ghost predicate EntriesOk(regs: seq<Reg>, vals: seq<Word>, entries: seq<nat>, addr: nat, align: nat) {
    |vals| == |regs| && forall k :: 0 <= k < |entries| ==> EntryOk(regs, vals, entries[k], addr, align)
  }

  predicate Holds(regs: seq<Reg>, i: nat, b: nat)
    requires i < |regs|
  {
    Contains(regs[i], b)
  }

  lemma OrZero(x: Octet)
    ensures Or8(x, ZERO) == x && Or8(ZERO, x) == x
  {
  }

  /** What a register has at address `b`, 0 where it has nothing. */
  ghost function ByteOf(regs: seq<Reg>, vals: seq<Word>, i: nat, b: nat): Octet
    requires i < |regs| == |vals| && |vals[i]| == regs[i].size
  {
    if Holds(regs, i, b) then vals[i][b - regs[i].offset] else ZERO
  }

  /** One lane of a window read. */
  ghost function Lane(regs: seq<Reg>, vals: seq<Word>, entries: seq<nat>, addr: nat, align: nat, b: nat): Octet
    requires EntriesOk(regs, vals, entries, addr, align)
    decreases |entries|
  {
    if entries == [] then ZERO
    else
      var n := |entries| - 1;
      EntriesPrefix(regs, vals, entries, addr, align);
      assert EntryOk(regs, vals, entries[n], addr, align);
      Or8(Lane(regs, vals, entries[..n], addr, align, b), ByteOf(regs, vals, entries[n], b))
  }

  lemma EntriesPrefix(regs: seq<Reg>, vals: seq<Word>, entries: seq<nat>, addr: nat, align: nat)
    requires EntriesOk(regs, vals, entries, addr, align) && entries != []
    ensures EntriesOk(regs, vals, entries[..|entries| - 1], addr, align)
  {
  }

  /** One more part of a window read, in lane `j`. */
  lemma PartAdded(w: Word, r: Reg, value: Word, addr: nat, align: nat, j: nat)
    requires Natural(r) && Width(align) && Multiple(addr, align) && Overlaps(r, addr, align)
    requires |value| == r.size && j < align == |w|
    ensures Or(w, Part(r, value, addr, align))[j] ==
            Or8(w[j], if Contains(r, addr + j) then value[addr + j - r.offset] else ZERO)
  {
    PartLane(r, value, addr, align, j);
  }

  lemma LaneGrows(regs: seq<Reg>, vals: seq<Word>, before: seq<nat>, last: nat, addr: nat, align: nat, j: nat, w: Word)
    requires EntriesOk(regs, vals, before + [last], addr, align) && EntriesOk(regs, vals, before, addr, align)
    requires Width(align) && Multiple(addr, align) && j < align == |w| && EntryOk(regs, vals, last, addr, align)
    requires w[j] == Lane(regs, vals, before, addr, align, addr + j)
    ensures Or(w, Part(regs[last], vals[last], addr, align))[j] == Lane(regs, vals, before + [last], addr, align, addr + j)
  {
    assert (before + [last])[..|before|] == before;
    PartAdded(w, regs[last], vals[last], addr, align, j);
  }

  lemma {:induction false} ReadIsLane(regs: seq<Reg>, vals: seq<Word>, entries: seq<nat>, addr: nat, align: nat, j: nat)
    requires Width(align) && Multiple(addr, align) && j < align && EntriesOk(regs, vals, entries, addr, align)
    ensures ReadWindow(regs, vals, entries, addr, align)[j] == Lane(regs, vals, entries, addr, align, addr + j)
    decreases |entries|
  {
    if entries != [] {
      var before, last := entries[..|entries| - 1], entries[|entries| - 1];
      assert entries == before + [last] && EntryOk(regs, vals, last, addr, align);
      EntriesPrefix(regs, vals, entries, addr, align);
      ReadIsLane(regs, vals, before, addr, align, j);
      LaneGrows(regs, vals, before, last, addr, align, j, ReadWindow(regs, vals, before, addr, align));
    }
  }

  /** No listed register has the byte. */
  lemma {:induction false} LaneIsZero(regs: seq<Reg>, vals: seq<Word>, entries: seq<nat>, addr: nat, align: nat, b: nat)
    requires EntriesOk(regs, vals, entries, addr, align)
    requires forall k :: 0 <= k < |entries| ==> entries[k] < |regs| && !Holds(regs, entries[k], b)
    ensures Lane(regs, vals, entries, addr, align, b) == ZERO
    decreases |entries|
  {
    if entries != [] {
      EntriesPrefix(regs, vals, entries, addr, align);
      LaneIsZero(regs, vals, entries[..|entries| - 1], addr, align, b);
      OrZero(ZERO);
    }
  }

  /** Exactly one listed register has the byte. */
  lemma {:induction false} LaneIs(regs: seq<Reg>, vals: seq<Word>, entries: seq<nat>, addr: nat, align: nat, b: nat, m: nat)
    requires EntriesOk(regs, vals, entries, addr, align)
    requires m < |entries| && forall k :: 0 <= k < |entries| ==> entries[k] < |regs| && (Holds(regs, entries[k], b) <==> k == m)
    ensures EntryOk(regs, vals, entries[m], addr, align)
    ensures Lane(regs, vals, entries, addr, align, b) == ByteOf(regs, vals, entries[m], b)
    decreases |entries|
  {
    var n := |entries| - 1;
    var before := entries[..n];
    EntriesPrefix(regs, vals, entries, addr, align);
    assert EntryOk(regs, vals, entries[n], addr, align);
    OrZero(ByteOf(regs, vals, entries[n], b));
    if m == n {
      LaneIsZero(regs, vals, before, addr, align, b);
    } else {
      LaneIs(regs, vals, before, addr, align, b, m);
      OrZero(ByteOf(regs, vals, entries[m], b));
    }
  }

  lemma OverlappingOk(regs: seq<Reg>, vals: seq<Word>, entries: seq<nat>, addr: nat, align: nat)
    requires ValidTable(regs) && ValidValues(regs, vals) && entries == Overlapping(regs, addr, align, |regs|)
    ensures EntriesOk(regs, vals, entries, addr, align)
  {
    forall k | 0 <= k < |entries|
      ensures EntryOk(regs, vals, entries[k], addr, align)
    {
      OverlappingIff(regs, addr, align, |regs|, entries[k]);
      assert NaturalAt(regs, entries[k]);
    }
  }

  /** A byte belongs to one register. */
  lemma OneHolder(regs: seq<Reg>, a: nat, b: nat, byte: nat)
    requires ValidTable(regs) && a < |regs| && b < |regs| && Holds(regs, a, byte) && Holds(regs, b, byte)
    ensures a == b
  {
    assert a < b ==> Apart(regs, a, b);
    assert b < a ==> Apart(regs, b, a);
  }

  /** Where the holder of a byte stands in the list of any window over that byte. */
  lemma HolderListed(regs: seq<Reg>, entries: seq<nat>, addr: nat, align: nat, i: nat, b: nat) returns (m: nat)
    requires ValidTable(regs) && entries == Overlapping(regs, addr, align, |regs|)
    requires i < |regs| && Holds(regs, i, b) && addr <= b < addr + align
    ensures m < |entries| && entries[m] == i
    ensures forall k :: 0 <= k < |entries| ==> (Holds(regs, entries[k], b) <==> k == m)
  {
    OverlappingIff(regs, addr, align, |regs|, i);
    OverlappingAscends(regs, addr, align, |regs|);
    m :| m < |entries| && entries[m] == i;
    forall k | 0 <= k < |entries|
      ensures Holds(regs, entries[k], b) <==> k == m
    {
      assert k < m ==> entries[k] < entries[m];
      assert m < k ==> entries[m] < entries[k];
      if Holds(regs, entries[k], b) {
        OneHolder(regs, entries[k], i, b);
      }
    }
  }

  lemma HeldLane(regs: seq<Reg>, vals: seq<Word>, entries: seq<nat>, addr: nat, align: nat, b: nat, i: nat)
    requires ValidTable(regs) && ValidValues(regs, vals) && entries == Overlapping(regs, addr, align, |regs|)
    requires EntriesOk(regs, vals, entries, addr, align) && i < |regs| && Holds(regs, i, b) && addr <= b < addr + align
    ensures Lane(regs, vals, entries, addr, align, b) == Image(regs, vals, b, |regs|)
  {
    var m := HolderListed(regs, entries, addr, align, i, b);
    LaneIs(regs, vals, entries, addr, align, b, m);
    ImageIs(regs, vals, b, |regs|, i);
  }

  predicate Mapped(regs: seq<Reg>, b: nat) { exists i: nat :: i < |regs| && Holds(regs, i, b) }

  lemma UnmappedImage(regs: seq<Reg>, vals: seq<Word>, b: nat)
    requires ValidValues(regs, vals) && !Mapped(regs, b)
    ensures Image(regs, vals, b, |regs|) == ZERO
  {
    forall i: nat | i < |regs|
      ensures !Contains(regs[i], b)
    {
      assert !Holds(regs, i, b);
    }
    ImageIsZero(regs, vals, b, |regs|);
  }

  lemma LaneIsImage(regs: seq<Reg>, vals: seq<Word>, entries: seq<nat>, addr: nat, align: nat, b: nat)
    requires ValidTable(regs) && ValidValues(regs, vals) && entries == Overlapping(regs, addr, align, |regs|)
    requires EntriesOk(regs, vals, entries, addr, align) && addr <= b < addr + align
    ensures Lane(regs, vals, entries, addr, align, b) == Image(regs, vals, b, |regs|)
  {
    if Mapped(regs, b) {
      var i: nat :| i < |regs| && Holds(regs, i, b);
      HeldLane(regs, vals, entries, addr, align, b, i);
    } else {
      UnmappedImage(regs, vals, b);
      LaneIsZero(regs, vals, entries, addr, align, b);
    }
  }

  /** Every window read is the image, byte for byte. */
  lemma ReadIsImage(regs: seq<Reg>, vals: seq<Word>, addr: nat, align: nat, j: nat)
    requires ValidTable(regs) && ValidValues(regs, vals) && Width(align) && Multiple(addr, align) && j < align
    ensures ReadWindow(regs, vals, Overlapping(regs, addr, align, |regs|), addr, align)[j] == Image(regs, vals, addr + j, |regs|)
  {
    ListReadsImage(regs, vals, Overlapping(regs, addr, align, |regs|), addr, align, j);
  }

  lemma ListReadsImage(regs: seq<Reg>, vals: seq<Word>, entries: seq<nat>, addr: nat, align: nat, j: nat)
    requires ValidTable(regs) && ValidValues(regs, vals) && Width(align) && Multiple(addr, align) && j < align
    requires entries == Overlapping(regs, addr, align, |regs|)
    ensures ReadWindow(regs, vals, entries, addr, align)[j] == Image(regs, vals, addr + j, |regs|)
  {
    OverlappingOk(regs, vals, entries, addr, align);
    ReadIsLane(regs, vals, entries, addr, align, j);
    LaneIsImage(regs, vals, entries, addr, align, addr + j);
  }

  // ---------------------------------------------------------------------------------------------
  // Generated writes

  function WindowMask(align: nat): Word { Cast(Ones(align), 4) }

  /** The value handed to a register's setter. */
  function ValuePart(r: Reg, value: Word, addr: nat): (p: Word)
    ensures |p| == r.size
  {
    if r.offset >= addr then Cast(Shr(value, r.offset - addr), r.size) else Shl(Cast(value, r.size), addr - r.offset)
  }

  /** The mask handed along; a one-byte setter takes none. */
  function MaskPart(r: Reg, addr: nat, align: nat): (p: Word)
    ensures |p| == r.size
  {
    if r.size == 1 then Ones(1)
    else if r.offset >= addr then Cast(WindowMask(align), r.size)
    else Cast(Shl(WindowMask(align), addr - r.offset), r.size)
  }

  /** The setter calls of a window write, in order. */
  function WriteWindow(regs: seq<Reg>, vals: seq<Word>, entries: seq<nat>, addr: nat, align: nat, value: Word): (r: seq<Word>)
    requires ValidValues(regs, vals) && forall k :: 0 <= k < |entries| ==> entries[k] < |regs|
    ensures ValidValues(regs, r)
    decreases |entries|
  {
    if entries == [] then vals
    else
      var before := WriteWindow(regs, vals, entries[..|entries| - 1], addr, align, value);
      var last := entries[|entries| - 1];
      before[last := Stored(regs[last], before[last], addr, align, value, true)]
  }

  lemma MaskedByte(was: Octet, value: Octet)
    ensures Or8(And8(was, Not8(ONES)), And8(value, ONES)) == value && Or8(And8(was, Not8(ZERO)), And8(value, ZERO)) == was
  {
  }

  /** The lane of the value and of the mask that a register's byte meets. */
  lemma PairLane(r: Reg, addr: nat, align: nat, value: Word, j: nat)
    requires Natural(r) && Width(align) && Multiple(addr, align) && Overlaps(r, addr, align) && |value| == align && j < r.size
    ensures var inside := addr <= r.offset + j < addr + align;
            && MaskPart(r, addr, align)[j] == (if inside then ONES else ZERO)
            && (inside ==> ValuePart(r, value, addr)[j] == value[r.offset + j - addr])
  {
    Nested(r, addr, align);
    if r.offset >= addr {
      var k := r.offset - addr;
      CastAt(Shr(value, k), r.size, j);
      if j < align { ShrAt(value, k, j); CastAt(Ones(align), 4, j); }
      CastAt(WindowMask(align), r.size, j);
    } else {
      var k := addr - r.offset;
      ShlAt(Cast(value, r.size), k, j);
      CastAt(Shl(WindowMask(align), k), r.size, j);
      ShlAt(WindowMask(align), k, j);
      if j >= k { CastAt(value, r.size, j - k); CastAt(Ones(align), 4, j - k); }
    }
  }

  lemma MergeAt(was: Word, value: Word, mask: Word, j: nat)
    requires j < |was| == |value| == |mask|
    ensures Merge(was, value, mask)[j] == Or8(And8(was[j], Not8(mask[j])), And8(value[j], mask[j]))
  {
  }

  /** A register after a window write: its setter called if it is listed. */
  function Stored(r: Reg, was: Word, addr: nat, align: nat, value: Word, listed: bool): (now: Word)
    ensures |now| == |was|
  {
    if listed then Merge(was, ValuePart(r, value, addr), MaskPart(r, addr, align)) else was
  }

  /** The register's bytes inside the window become the window's, and no others change. */
  lemma StoredByte(r: Reg, was: Word, addr: nat, align: nat, value: Word, listed: bool, j: nat)
    requires Natural(r) && Width(align) && Multiple(addr, align) && listed == Overlaps(r, addr, align)
    requires |was| == r.size && |value| == align && j < r.size
    ensures Stored(r, was, addr, align, value, listed)[j] ==
            if addr <= r.offset + j < addr + align then value[r.offset + j - addr] else was[j]
  {
    if listed {
      PairLane(r, addr, align, value, j);
      MergeAt(was, ValuePart(r, value, addr), MaskPart(r, addr, align), j);
      MaskedByte(was[j], ValuePart(r, value, addr)[j]);
    }
  }

  /** What every register holds after the calls: merged once if listed, untouched otherwise. */
  lemma {:induction false} WrittenRegister(regs: seq<Reg>, vals: seq<Word>, entries: seq<nat>, addr: nat, align: nat, value: Word, i: nat)
    requires ValidValues(regs, vals) && i < |regs| && (forall k :: 0 <= k < |entries| ==> entries[k] < |regs|)
    requires Ascends(entries)
    ensures WriteWindow(regs, vals, entries, addr, align, value)[i] ==
            Stored(regs[i], vals[i], addr, align, value, i in entries)
    decreases |entries|
  {
    if entries != [] {
      var n := |entries| - 1;
      var before, last := entries[..n], entries[n];
      assert entries == before + [last];
      assert last !in before;
      WrittenRegister(regs, vals, before, addr, align, value, i);
      var mid := WriteWindow(regs, vals, before, addr, align, value);
      assert i != last ==> WriteWindow(regs, vals, entries, addr, align, value)[i] == mid[i];
      assert i != last ==> (i in entries <==> i in before);
    }
  }

  /** A byte of register `i` after a window write. */
  lemma WrittenByte(regs: seq<Reg>, vals: seq<Word>, entries: seq<nat>, addr: nat, align: nat, value: Word, b: nat, i: nat)
    requires ValidValues(regs, vals) && Width(align) && Multiple(addr, align) && |value| == align
    requires (forall k :: 0 <= k < |entries| ==> entries[k] < |regs|) && Ascends(entries)
    requires i < |regs| && Natural(regs[i]) && Contains(regs[i], b) && (i in entries <==> Overlaps(regs[i], addr, align))
    ensures WriteWindow(regs, vals, entries, addr, align, value)[i][b - regs[i].offset] ==
            if addr <= b < addr + align then value[b - addr] else vals[i][b - regs[i].offset]
  {
    var r, was, listed := regs[i], vals[i], i in entries;
    var now := WriteWindow(regs, vals, entries, addr, align, value)[i];
    assert now == Stored(r, was, addr, align, value, listed) by { WrittenRegister(regs, vals, entries, addr, align, value, i); }
    NowByte(r, was, now, addr, align, value, listed, b);
  }

  lemma NowByte(r: Reg, was: Word, now: Word, addr: nat, align: nat, value: Word, listed: bool, b: nat)
    requires Natural(r) && Width(align) && Multiple(addr, align) && listed == Overlaps(r, addr, align) && Contains(r, b)
    requires |was| == r.size && |value| == align && now == Stored(r, was, addr, align, value, listed)
    ensures now[b - r.offset] == if addr <= b < addr + align then value[b - addr] else was[b - r.offset]
  {
    StoredByte(r, was, addr, align, value, listed, b - r.offset);
  }

  /** A window write replaces the mapped bytes of the window and leaves the rest of the image alone. */
  lemma WriteIsImage(regs: seq<Reg>, vals: seq<Word>, addr: nat, align: nat, value: Word, b: nat)
    requires ValidTable(regs) && ValidValues(regs, vals) && Width(align) && Multiple(addr, align) && |value| == align
    ensures var after := WriteWindow(regs, vals, Overlapping(regs, addr, align, |regs|), addr, align, value);
            Image(regs, after, b, |regs|) ==
            if addr <= b < addr + align && Mapped(regs, b) then value[b - addr] else Image(regs, vals, b, |regs|)
  {
    var entries := Overlapping(regs, addr, align, |regs|);
    var after := WriteWindow(regs, vals, entries, addr, align, value);
    if Mapped(regs, b) {
      var i: nat :| i < |regs| && Holds(regs, i, b);
      ImageIs(regs, vals, b, |regs|, i);
      ImageIs(regs, after, b, |regs|, i);
      OverlappingAscends(regs, addr, align, |regs|);
      OverlappingIff(regs, addr, align, |regs|, i);
      assert NaturalAt(regs, i);
      WrittenByte(regs, vals, entries, addr, align, value, b, i);
    } else {
      UnmappedImage(regs, vals, b);
      UnmappedImage(regs, after, b);
    }
  }

  // ---------------------------------------------------------------------------------------------
  // The generated index

  /** `(offset - MIN_ADDR) >> (align >> 1)` */
  function Index(regs: seq<Reg>, align: nat, offset: nat): nat
    requires |regs| > 0 && Width(align) && offset >= regs[0].offset
  {
    var o := offset - regs[0].offset;
    if align == 1 then o else if align == 2 then o / 2 else o / 4
  }

  lemma Exact(m: nat)
    ensures 2 * m / 2 == m && 4 * m / 4 == m && (2 * m) % 2 == 0 && (4 * m) % 4 == 0 && (4 * m) % 2 == 0
  {
  }

  lemma IndexScales(lo: nat, align: nat, offset: nat, k: nat)
    requires Width(align) && Multiple(lo, 4) && lo <= offset && Multiple(offset, align)
    requires k == if align == 1 then offset - lo else if align == 2 then (offset - lo) / 2 else (offset - lo) / 4
    ensures k * align == offset - lo && AlignDown(lo, align) == lo
  {
    var l := MultipleIs(lo, 4);
    var o := MultipleIs(offset, align);
    Exact(l);
    if align == 2 {
      Exact(o - 2 * l);
      assert k == o - 2 * l;
    } else if align == 4 {
      Exact(o - l);
      assert k == o - l;
    }
  }

  lemma ScaleMonotone(a: nat, b: nat, align: nat)
    ensures a <= b ==> a * align <= b * align
  {
  }

  lemma UpReaches(end: nat, align: nat)
    requires Width(align)
    ensures AlignUp(end, align) >= end
  {
  }

  /** Every aligned offset in range finds its own window. */
  lemma TableIndex(regs: seq<Reg>, align: nat, lut: seq<LutEntry>, offset: nat)
    requires ValidTable(regs) && Width(align) && LutIs(regs, align, lut) && First(regs, align) + |lut| * align >= Last(regs, align)
    requires regs[0].offset <= offset < End(regs[|regs| - 1]) && Multiple(offset, align)
    ensures Index(regs, align, offset) < |lut| && lut[Index(regs, align, offset)].offset == offset
  {
    var k := Index(regs, align, offset);
    IndexScales(regs[0].offset, align, offset, k);
    UpReaches(End(regs[|regs| - 1]), align);
    ScaleMonotone(|lut|, k, align);
  }

  /** The accessors the tables stand for: they read the image at any aligned offset in range... */
  method Read(regs: seq<Reg>, vals: seq<Word>, align: nat, lut: seq<LutEntry>, offset: nat) returns (w: Word)
    requires ValidTable(regs) && ValidValues(regs, vals) && Width(align) && LutIs(regs, align, lut)
    requires First(regs, align) + |lut| * align >= Last(regs, align)
    requires regs[0].offset <= offset < End(regs[|regs| - 1]) && Multiple(offset, align)
    ensures |w| == align && forall j :: 0 <= j < align ==> w[j] == Image(regs, vals, offset + j, |regs|)
  {
    TableIndex(regs, align, lut, offset);
    var entry := lut[Index(regs, align, offset)];
    w := ReadWindow(regs, vals, entry.entries, entry.offset, align);
    forall j | 0 <= j < align
      ensures w[j] == Image(regs, vals, offset + j, |regs|)
    {
      ReadIsImage(regs, vals, offset, align, j);
    }
  }

  /** ... and write it there, register by register: the mapped bytes of the window and no others. */
  method Write(regs: seq<Reg>, vals: seq<Word>, align: nat, lut: seq<LutEntry>, offset: nat, value: Word)
    returns (after: seq<Word>)
    requires ValidTable(regs) && ValidValues(regs, vals) && Width(align) && LutIs(regs, align, lut)
    requires First(regs, align) + |lut| * align >= Last(regs, align)
    requires regs[0].offset <= offset < End(regs[|regs| - 1]) && Multiple(offset, align) && |value| == align
    ensures ValidValues(regs, after)
    ensures forall b: nat :: Image(regs, after, b, |regs|) ==
              if offset <= b < offset + align && Mapped(regs, b) then value[b - offset] else Image(regs, vals, b, |regs|)
  {
    TableIndex(regs, align, lut, offset);
    var entry := lut[Index(regs, align, offset)];
    after := WriteWindow(regs, vals, entry.entries, entry.offset, align, value);
    forall b: nat
      ensures Image(regs, after, b, |regs|) ==
              if offset <= b < offset + align && Mapped(regs, b) then value[b - offset] else Image(regs, vals, b, |regs|)
    {
      WriteIsImage(regs, vals, offset, align, value, b);
    }
  }

  /** What was written is read back, at every byte that a register has. */
  lemma ReadAfterWrite(regs: seq<Reg>, vals: seq<Word>, entries: seq<nat>, addr: nat, align: nat, value: Word, after: seq<Word>, j: nat)
    requires ValidTable(regs) && ValidValues(regs, vals) && Width(align) && Multiple(addr, align) && |value| == align
    requires entries == Overlapping(regs, addr, align, |regs|) && j < align
    requires after == WriteWindow(regs, vals, entries, addr, align, value)
    ensures ReadWindow(regs, after, entries, addr, align)[j] == if Mapped(regs, addr + j) then value[j] else ZERO
  {
    ListReadsImage(regs, after, entries, addr, align, j);
    WriteIsImage(regs, vals, addr, align, value, addr + j);
    if !Mapped(regs, addr + j) { UnmappedImage(regs, vals, addr + j); }
  }
}
