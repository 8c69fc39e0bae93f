/**
 LDM and STM, twice: the handler that compiled code calls, and the interpreter's own instruction.

 `StoreAgreesIff` and `LoadAgreesIff`: the two move the same words and leave the same registers, except exactly in
 three cases: a stored PC, and two kinds of user-bank transfer with write-back whose base register is in the list
 (section A4.1.20 of the ARM Architecture Reference Manual, ARM DDI 0100, leaves those to the implementation).
 Registers are the eight low ones and the banks of R8 to R14.
 */
module BlockTransfer {
  import opened BankedRegs

  const PC: nat := 15

  /** R0 to R7, and the mode with the banks of R8 to R14. */
  datatype Regs = Regs(low: seq<Word>, high: Machine)

  ghost predicate ValidRegs(s: Regs) {
    |s.low| == 8 && forall o: Owner, k: nat :: Exists(o, k) ==> (o, k) in s.high.banks
  }

  /** The word a register number names, in the user bank or the current mode's. */
  function Key(m: Mode, r: nat, usr: bool): (k: (Owner, nat))
    requires 8 <= r < PC
    ensures Exists(k.0, k.1)
  {
    (if usr then UserBank else OwnerOf(m, r - 8), r - 8)
  }

  function ReadReg(s: Regs, r: nat, usr: bool): Word
    requires ValidRegs(s) && r < PC
  {
    if r < 8 then s.low[r] else s.high.banks[Key(s.high.mode, r, usr)]
  }

  function WriteReg(s: Regs, r: nat, usr: bool, v: Word): (t: Regs)
    requires ValidRegs(s) && r < PC
    ensures ValidRegs(t) && t.high.mode == s.high.mode
  {
    if r < 8 then s.(low := s.low[r := v])
    else s.(high := s.high.(banks := s.high.banks[Key(s.high.mode, r, usr) := v]))
  }

  /** The two accesses name the same word. */
  predicate SameWord(m: Mode, r: nat, usr: bool, q: nat, usr': bool)
    requires r < PC && q < PC
  {
    r == q && (r < 8 || Key(m, r, usr) == Key(m, q, usr'))
  }

  lemma ReadWrite(s: Regs, r: nat, usr: bool, q: nat, usr': bool, v: Word)
    requires ValidRegs(s) && r < PC && q < PC
    ensures ReadReg(WriteReg(s, r, usr, v), q, usr') ==
            if SameWord(s.high.mode, r, usr, q, usr') then v else ReadReg(s, q, usr')
  {}

  lemma WriteWrite(s: Regs, r: nat, usr: bool, v: Word, q: nat, usr': bool, v': Word)
    requires ValidRegs(s) && r < PC && q < PC
    ensures SameWord(s.high.mode, r, usr, q, usr') ==>
              WriteReg(WriteReg(s, r, usr, v), q, usr', v') == WriteReg(s, q, usr', v')
    ensures !SameWord(s.high.mode, r, usr, q, usr') ==>
              WriteReg(WriteReg(s, r, usr, v), q, usr', v') == WriteReg(WriteReg(s, q, usr', v'), r, usr, v)
  {
    var a, b := WriteReg(WriteReg(s, r, usr, v), q, usr', v'), WriteReg(WriteReg(s, q, usr', v'), r, usr, v);
    assert !SameWord(s.high.mode, r, usr, q, usr') ==> a.low == b.low && a.high.banks == b.high.banks;
    assert SameWord(s.high.mode, r, usr, q, usr') ==>
             a.low == WriteReg(s, q, usr', v').low && a.high.banks == WriteReg(s, q, usr', v').high.banks;
  }

  // ---------------------------------------------------------------------------------------------
  // The instruction

  /** Address arithmetic wraps. */
  function Plus(a: Word, b: Word): Word { if a + b < U32 then a + b else a + b - U32 }

  function Minus(a: Word, b: Word): Word { if b <= a then a - b else a - b + U32 }

  datatype Transfer = Transfer(rlist: seq<bool>, rn: nat, pre: bool, up: bool, user: bool, wb: bool)

  /** How many listed registers come before `r`. */
  function Count(rlist: seq<bool>, r: nat): nat
    requires r <= |rlist|
    decreases r
  {
    if r == 0 then 0 else Count(rlist, r - 1) + if rlist[r - 1] then 1 else 0
  }

  lemma {:induction false} CountBound(rlist: seq<bool>, r: nat)
    requires r < |rlist|
    ensures rlist[r] ==> Count(rlist, r) < Count(rlist, |rlist|)
  {
    CountMonotone(rlist, r + 1, |rlist|);
  }

  lemma {:induction false} CountMonotone(rlist: seq<bool>, a: nat, b: nat)
    requires a <= b <= |rlist|
    ensures Count(rlist, a) <= Count(rlist, b)
    decreases b
  {
    if a < b { CountMonotone(rlist, a, b - 1); }
  }

  /** A list of at least one register, and a base other than the PC. */
  predicate ValidTransfer(t: Transfer) { |t.rlist| == 16 && t.rn < PC && Count(t.rlist, 16) > 0 }

  /** How many bytes are transferred. */
  function Size(t: Transfer): (n: nat)
    requires ValidTransfer(t)
    ensures 4 <= n <= 64
  {
    CountAtMost(t.rlist, 16);
    4 * Count(t.rlist, 16)
  }

  lemma {:induction false} CountAtMost(rlist: seq<bool>, r: nat)
    requires r <= |rlist|
    ensures Count(rlist, r) <= r
    decreases r
  {
    if r > 0 { CountAtMost(rlist, r - 1); }
  }

  /** The base moved past the transfer. */
  function Moved(base: Word, t: Transfer): (m: Word)
    requires ValidTransfer(t)
    ensures m != base
  {
    if t.up then Plus(base, Size(t)) else Minus(base, Size(t))
  }

  /** The S bit reaches the user bank, from a mode that has its own. */
  predicate UserBanked(m: Mode, t: Transfer)
    requires ValidTransfer(t)
  {
    t.user && !t.rlist[PC] && BankOf(m) != UserBank
  }

  /** The user bit means the user bank in the five modes that have registers of their own, and not with the PC listed. */
  lemma UserBankedIff(m: Mode, t: Transfer)
    requires ValidTransfer(t)
    ensures UserBanked(m, t) <==> t.user && !t.rlist[15] && m in {Fiq, Irq, Supervisor, Abort, Undefined}
  {}

  /** A register below the base is listed. */
  predicate LowerListed(t: Transfer)
    requires ValidTransfer(t)
  {
    exists r: nat :: r < t.rn && t.rlist[r]
  }

  /** Compiled code packs the length of the list into four bits. */
  predicate Packed(t: Transfer)
    requires ValidTransfer(t)
  {
    Count(t.rlist, 16) < 16
  }

  // ---------------------------------------------------------------------------------------------
  // The handler of compiled code

  /** The list as a number. */
  function Bits(rlist: seq<bool>, n: nat): nat
    requires n <= |rlist|
    decreases n
  {
    if n == 0 then 0 else Bits(rlist, n - 1) + if rlist[n - 1] then Pow2(n - 1) else 0
  }

  function Pow2(n: nat): (p: nat)
    ensures p > 0
    decreases n
  {
    if n == 0 then 1 else 2 * Pow2(n - 1)
  }

  lemma {:induction false} BitsBelow(rlist: seq<bool>, n: nat)
    requires n <= |rlist|
    ensures Bits(rlist, n) < Pow2(n) && (Bits(rlist, n) > 0 <==> exists r: nat :: r < n && rlist[r])
    decreases n
  {
    if n > 0 { BitsBelow(rlist, n - 1); }
  }

  /** The masked comparison of the handler: the base is listed, and not first. */
  lemma EarlyIff(t: Transfer)
    requires ValidTransfer(t)
    ensures Bits(t.rlist, t.rn + 1) > Pow2(t.rn) <==> t.rlist[t.rn] && LowerListed(t)
  {
    BitsBelow(t.rlist, t.rn);
  }

  /** Compiled code hands over whether the base survives the transfer as it is. */
  predicate BaseValid(t: Transfer)
    requires ValidTransfer(t)
  {
    !t.wb || !t.rlist[t.rn]
  }

  /** Compiled code hands over `pre` flipped for a downward transfer, which the handler walks upwards from its start. */
  function HandlerAddress(base: Word, t: Transfer): Word
    requires ValidTransfer(t)
  {
    var start := if t.up then base else Minus(base, Size(t));
    if t.pre == t.up then Plus(start, 4) else start
  }

  /** The stored word of one register; the stored PC is the caller's. */
  function HandlerWord(s: Regs, t: Transfer, pc: Word, r: nat): Word
    requires ValidRegs(s) && ValidTransfer(t) && r < 16
  {
    if r == PC then pc else ReadReg(s, r, UserBanked(s.high.mode, t))
  }

  /** The words of the listed registers below `n`, ascending. */
  function HandlerWords(s: Regs, t: Transfer, pc: Word, n: nat): seq<Word>
    requires ValidRegs(s) && ValidTransfer(t) && n <= 16
    decreases n
  {
    if n == 0 then []
    else
      var before := HandlerWords(s, t, pc, n - 1);
      if !t.rlist[n - 1] then before
      else before + [HandlerWord(s, t, pc, n - 1)]
  }

  /** What a transfer leaves: its first address, the words stored, the registers. */
  datatype Stored = Stored(address: Word, words: seq<Word>, s: Regs)

  function WriteBack(s: Regs, t: Transfer, on: bool, base: Word): (r: Regs)
    requires ValidRegs(s) && ValidTransfer(t)
    ensures ValidRegs(r) && r.high.mode == s.high.mode
  {
    if on then WriteReg(s, t.rn, false, Moved(base, t)) else s
  }

  function HandlerStore(s: Regs, t: Transfer, pc: Word): Stored
    requires ValidRegs(s) && ValidTransfer(t) && Packed(t)
  {
    var base := ReadReg(s, t.rn, false);
    var s1 := WriteBack(s, t, t.wb && (BaseValid(t) || Bits(t.rlist, t.rn + 1) > Pow2(t.rn)), base);
    Stored(HandlerAddress(base, t), HandlerWords(s1, t, pc, 16), WriteBack(s1, t, t.wb, base))
  }

  /** One listed register takes its word; a loaded PC is a branch, not a register. */
  function Loaded(s: Regs, t: Transfer, words: seq<Word>, usr: bool, r: nat): (q: Regs)
    requires ValidRegs(s) && ValidTransfer(t) && r < 16 && |words| == Count(t.rlist, 16)
    ensures ValidRegs(q) && q.high.mode == s.high.mode
  {
    CountBound(t.rlist, r);
    if t.rlist[r] && r < PC then WriteReg(s, r, usr, words[Count(t.rlist, r)]) else s
  }

  /** The listed registers below `n` take their words. */
  function Scattered(s: Regs, t: Transfer, words: seq<Word>, usr: bool, n: nat): (r: Regs)
    requires ValidRegs(s) && ValidTransfer(t) && n <= 16 && |words| == Count(t.rlist, 16)
    ensures ValidRegs(r) && r.high.mode == s.high.mode
    decreases n
  {
    if n == 0 then s else Loaded(Scattered(s, t, words, usr, n - 1), t, words, usr, n - 1)
  }

  /** Compiled code never hands a load of the PC to the handler. */
  function HandlerLoad(s: Regs, t: Transfer, words: seq<Word>): Regs
    requires ValidRegs(s) && ValidTransfer(t) && |words| == Count(t.rlist, 16) && !t.rlist[PC]
  {
    var base := ReadReg(s, t.rn, false);
    var s1 := WriteBack(s, t, t.wb, base);
    WriteBack(Scattered(s1, t, words, UserBanked(s.high.mode, t), 16), t, t.wb && BaseValid(t), base)
  }

  // ---------------------------------------------------------------------------------------------
  // The interpreter

  /** Increment or decrement, after or before. */
  function InterpreterAddress(base: Word, t: Transfer): Word
    requires ValidTransfer(t)
  {
    if t.up then (if t.pre then Plus(base, 4) else base)
    else if t.pre then Minus(base, Size(t)) else Plus(Minus(base, Size(t)), 4)
  }

  /** The stored word of one register. */
  function InterpreterWord(s: Regs, t: Transfer, inst: Word, r: nat): Word
    requires ValidRegs(s) && ValidTransfer(t) && r < 16
  {
    var m := s.high.mode;
    if r == PC then Plus(inst, 12)
    else if UserBanked(m, t) && (r >= 13 || m == Fiq) then ReadReg(s, r, true)
    else if t.wb && r == t.rn && LowerListed(t) then Moved(ReadReg(s, t.rn, false), t)
    else ReadReg(s, r, false)
  }

  function InterpreterWords(s: Regs, t: Transfer, inst: Word, n: nat): seq<Word>
    requires ValidRegs(s) && ValidTransfer(t) && n <= 16
    decreases n
  {
    if n == 0 then []
    else
      var before := InterpreterWords(s, t, inst, n - 1);
      if !t.rlist[n - 1] then before else before + [InterpreterWord(s, t, inst, n - 1)]
  }

  function InterpreterStore(s: Regs, t: Transfer, inst: Word): Stored
    requires ValidRegs(s) && ValidTransfer(t)
  {
    var base := ReadReg(s, t.rn, false);
    Stored(InterpreterAddress(base, t), InterpreterWords(s, t, inst, 16), WriteBack(s, t, t.wb, base))
  }

  function InterpreterLoad(s: Regs, t: Transfer, words: seq<Word>): Regs
    requires ValidRegs(s) && ValidTransfer(t) && |words| == Count(t.rlist, 16)
  {
    var base := ReadReg(s, t.rn, false);
    WriteBack(Scattered(s, t, words, UserBanked(s.high.mode, t), 16), t, t.wb && !t.rlist[t.rn], base)
  }

  // ---------------------------------------------------------------------------------------------
  // Stores agree

  lemma AddressesAgree(base: Word, t: Transfer)
    requires ValidTransfer(t)
    ensures HandlerAddress(base, t) == InterpreterAddress(base, t)
  {}

  /** From FIQ, the user bank's own base, written back although it is not the first listed. */
  predicate FiqBaseQuirk(m: Mode, t: Transfer)
    requires ValidTransfer(t)
  {
    t.wb && UserBanked(m, t) && m == Fiq && t.rn < 8 && t.rlist[t.rn] && LowerListed(t)
  }

  /** What the handler's early write-back does to the words it stores. */
  lemma WordsAgreeIff(s: Regs, t: Transfer, inst: Word, s1: Regs, r: nat)
    requires ValidRegs(s) && ValidTransfer(t) && r < PC && t.rlist[r]
    requires s1 == WriteBack(s, t, t.wb && (BaseValid(t) || LowerListed(t)), ReadReg(s, t.rn, false))
    ensures HandlerWord(s1, t, Plus(inst, 8), r) == InterpreterWord(s, t, inst, r)
            <==> !(r == t.rn && FiqBaseQuirk(s.high.mode, t))
  {
    ReadWrite(s, t.rn, false, r, UserBanked(s.high.mode, t), Moved(ReadReg(s, t.rn, false), t));
  }

  /** Every listed register is stored at its place in the list, from its bank, and nothing else is. */
  lemma {:induction false} StoredInOrder(s: Regs, t: Transfer, pc: Word, n: nat, r: nat)
    requires ValidRegs(s) && ValidTransfer(t) && n <= 16 && r < 16
    ensures |HandlerWords(s, t, pc, n)| == Count(t.rlist, n)
    ensures r < n && t.rlist[r] ==> Count(t.rlist, r) < Count(t.rlist, n)
    ensures r < n && t.rlist[r] ==>
              HandlerWords(s, t, pc, n)[Count(t.rlist, r)] == if r == PC then pc else ReadReg(s, r, UserBanked(s.high.mode, t))
    decreases n
  {
    if n > 0 {
      StoredInOrder(s, t, pc, n - 1, r);
      var before := HandlerWords(s, t, pc, n - 1);
      if t.rlist[n - 1] { Appended(before, HandlerWord(s, t, pc, n - 1), Count(t.rlist, r)); }
    }
  }

  lemma Appended(a: seq<Word>, x: Word, k: nat)
    ensures k < |a| ==> (a + [x])[k] == a[k]
    ensures k == |a| ==> (a + [x])[k] == x
  {}

  lemma AppendIff(a: seq<Word>, b: seq<Word>, x: Word, y: Word)
    requires |a| == |b|
    ensures a + [x] == b + [y] <==> a == b && x == y
  {
    assert (a + [x])[..|a|] == a && (a + [x])[|a|] == x;
    assert (b + [y])[..|b|] == b && (b + [y])[|b|] == y;
  }

  lemma {:induction false} PrefixesAgreeIff(s: Regs, t: Transfer, inst: Word, s1: Regs, n: nat)
    requires ValidRegs(s) && ValidTransfer(t) && n <= 16
    requires s1 == WriteBack(s, t, t.wb && (BaseValid(t) || LowerListed(t)), ReadReg(s, t.rn, false))
    ensures |HandlerWords(s1, t, Plus(inst, 8), n)| == |InterpreterWords(s, t, inst, n)|
    ensures HandlerWords(s1, t, Plus(inst, 8), n) == InterpreterWords(s, t, inst, n)
            <==> !(n > PC && t.rlist[PC]) && !(t.rn < n && FiqBaseQuirk(s.high.mode, t))
    decreases n
  {
    if n > 0 {
      PrefixesAgreeIff(s, t, inst, s1, n - 1);
      if t.rlist[n - 1] {
        var mine, theirs := HandlerWord(s1, t, Plus(inst, 8), n - 1), InterpreterWord(s, t, inst, n - 1);
        AppendIff(HandlerWords(s1, t, Plus(inst, 8), n - 1), InterpreterWords(s, t, inst, n - 1), mine, theirs);
        if n - 1 < PC { WordsAgreeIff(s, t, inst, s1, n - 1); }
      }
    }
  }

  /** Both store the same words to the same addresses and leave the same registers, unless the PC is stored, where the
      handler is four behind, or for the FIQ case. */
  lemma StoreAgreesIff(s: Regs, t: Transfer, inst: Word)
    requires ValidRegs(s) && ValidTransfer(t) && Packed(t)
    ensures HandlerStore(s, t, Plus(inst, 8)) == InterpreterStore(s, t, inst)
            <==> !t.rlist[PC] && !FiqBaseQuirk(s.high.mode, t)
    ensures HandlerStore(s, t, Plus(inst, 8)).address == InterpreterStore(s, t, inst).address
    ensures HandlerStore(s, t, Plus(inst, 8)).s == InterpreterStore(s, t, inst).s
  {
    var base := ReadReg(s, t.rn, false);
    EarlyIff(t);
    AddressesAgree(base, t);
    var s1 := WriteBack(s, t, t.wb && (BaseValid(t) || LowerListed(t)), base);
    PrefixesAgreeIff(s, t, inst, s1, 16);
    WriteWrite(s, t.rn, false, Moved(base, t), t.rn, false, Moved(base, t));
  }

  // ---------------------------------------------------------------------------------------------
  // Loads agree

  /** The load of `r` replaces the base. */
  predicate Replaces(m: Mode, t: Transfer, usr: bool, r: nat)
    requires ValidTransfer(t)
  {
    r == t.rn && t.rlist[t.rn] && SameWord(m, t.rn, false, t.rn, usr)
  }

  lemma LoadedCommutes(s: Regs, t: Transfer, words: seq<Word>, usr: bool, v: Word, r: nat)
    requires ValidRegs(s) && ValidTransfer(t) && r < 16 && |words| == Count(t.rlist, 16)
    ensures Loaded(WriteReg(s, t.rn, false, v), t, words, usr, r) ==
            if Replaces(s.high.mode, t, usr, r) then Loaded(s, t, words, usr, r)
            else WriteReg(Loaded(s, t, words, usr, r), t.rn, false, v)
  {
    CountBound(t.rlist, r);
    if t.rlist[r] && r < PC { WriteWrite(s, t.rn, false, v, r, usr, words[Count(t.rlist, r)]); }
  }

  /** A write-back and the loads commute, unless they name the same word, where the later one wins. */
  lemma {:induction false} ScatterCommutes(s: Regs, t: Transfer, words: seq<Word>, usr: bool, v: Word, n: nat)
    requires ValidRegs(s) && ValidTransfer(t) && n <= 16 && |words| == Count(t.rlist, 16)
    ensures Scattered(WriteReg(s, t.rn, false, v), t, words, usr, n) ==
            if t.rn < n && Replaces(s.high.mode, t, usr, t.rn)
            then Scattered(s, t, words, usr, n)
            else WriteReg(Scattered(s, t, words, usr, n), t.rn, false, v)
    decreases n
  {
    if n > 0 {
      ScatterCommutes(s, t, words, usr, v, n - 1);
      LoadedCommutes(Scattered(s, t, words, usr, n - 1), t, words, usr, v, n - 1);
    }
  }

  lemma LoadedReads(s: Regs, t: Transfer, words: seq<Word>, usr: bool, r: nat, q: nat, usr': bool)
    requires ValidRegs(s) && ValidTransfer(t) && r < 16 && q < PC && |words| == Count(t.rlist, 16)
    ensures t.rlist[r] ==> Count(t.rlist, r) < |words|
    ensures ReadReg(Loaded(s, t, words, usr, r), q, usr') ==
            if r == q && t.rlist[q] && SameWord(s.high.mode, q, usr, q, usr') then words[Count(t.rlist, r)]
            else ReadReg(s, q, usr')
  {
    CountBound(t.rlist, r);
    if t.rlist[r] && r < PC { ReadWrite(s, r, usr, q, usr', words[Count(t.rlist, r)]); }
  }

  /** Every listed register takes the word at its place in the list, in its bank, and no other word changes. */
  lemma {:induction false} LoadedExactly(s: Regs, t: Transfer, words: seq<Word>, usr: bool, n: nat, q: nat, usr': bool)
    requires ValidRegs(s) && ValidTransfer(t) && n <= 16 && q < PC && |words| == Count(t.rlist, 16)
    ensures t.rlist[q] ==> Count(t.rlist, q) < |words|
    ensures ReadReg(Scattered(s, t, words, usr, n), q, usr') ==
            if q < n && t.rlist[q] && SameWord(s.high.mode, q, usr, q, usr') then words[Count(t.rlist, q)]
            else ReadReg(s, q, usr')
    decreases n
  {
    CountBound(t.rlist, q);
    if n > 0 {
      LoadedExactly(s, t, words, usr, n - 1, q, usr');
      LoadedReads(Scattered(s, t, words, usr, n - 1), t, words, usr, n - 1, q, usr');
    }
  }

  /** A user-bank load of the base register, whose own copy is another word. */
  predicate OtherBaseQuirk(m: Mode, t: Transfer)
    requires ValidTransfer(t)
  {
    t.wb && UserBanked(m, t) && t.rlist[t.rn] && (t.rn >= 13 || (m == Fiq && t.rn >= 8))
  }

  lemma OtherWordIff(m: Mode, t: Transfer)
    requires ValidTransfer(t)
    ensures SameWord(m, t.rn, false, t.rn, UserBanked(m, t)) <==>
            !(UserBanked(m, t) && (t.rn >= 13 || (m == Fiq && t.rn >= 8)))
  {}

  /** A moved base is another state if the loads spare it. */
  lemma MovedDiffers(s: Regs, t: Transfer, words: seq<Word>, usr: bool)
    requires ValidRegs(s) && ValidTransfer(t) && |words| == Count(t.rlist, 16)
    requires !Replaces(s.high.mode, t, usr, t.rn)
    ensures var plain := Scattered(s, t, words, usr, 16);
            WriteReg(plain, t.rn, false, Moved(ReadReg(s, t.rn, false), t)) != plain
  {
    LoadedExactly(s, t, words, usr, 16, t.rn, false);
    ReadWrite(Scattered(s, t, words, usr, 16), t.rn, false, t.rn, false, Moved(ReadReg(s, t.rn, false), t));
  }

  /** Both leave the same registers, unless the write-back meets a base that the load puts into the user bank: the
      handler then moves the base, and the interpreter leaves it. */
  lemma LoadAgreesIff(s: Regs, t: Transfer, words: seq<Word>)
    requires ValidRegs(s) && ValidTransfer(t) && |words| == Count(t.rlist, 16) && !t.rlist[PC]
    ensures HandlerLoad(s, t, words) == InterpreterLoad(s, t, words) <==> !OtherBaseQuirk(s.high.mode, t)
  {
    var base, usr := ReadReg(s, t.rn, false), UserBanked(s.high.mode, t);
    var v := Moved(base, t);
    OtherWordIff(s.high.mode, t);
    ScatterCommutes(s, t, words, usr, v, 16);
    var plain := Scattered(s, t, words, usr, 16);
    WriteWrite(plain, t.rn, false, v, t.rn, false, v);
    if OtherBaseQuirk(s.high.mode, t) { MovedDiffers(s, t, words, usr); }
  }

  /** Both kinds of disagreement happen: STMIB R1!, {R0, R1}^ in FIQ mode and LDMIA R13!, {R13}^ in IRQ mode. */
  lemma QuirksHappen() returns (store: Transfer, load: Transfer)
    ensures ValidTransfer(store) && Packed(store) && FiqBaseQuirk(Fiq, store)
    ensures ValidTransfer(load) && !load.rlist[PC] && OtherBaseQuirk(Irq, load)
  {
    store := Transfer(seq(16, i => i < 2), 1, true, true, true, true);
    load := Transfer(seq(16, i => i == 13), 13, false, true, true, true);
    SomeCount(store.rlist, 0);
    SomeCount(load.rlist, 13);
    FullCount(store.rlist);
    LowerIs(store, 0);
    assert FiqBaseQuirk(Fiq, store);
  }

  lemma LowerIs(t: Transfer, r: nat)
    requires ValidTransfer(t) && r < t.rn && t.rlist[r]
    ensures LowerListed(t)
  {}

  lemma SomeCount(rlist: seq<bool>, r: nat)
    requires |rlist| == 16 && r < 16 && rlist[r]
    ensures Count(rlist, 16) > 0
  {
    CountBound(rlist, r);
  }

  /** A list without the PC has at most fifteen registers. */
  lemma FullCount(rlist: seq<bool>)
    requires |rlist| == 16 && !rlist[PC]
    ensures Count(rlist, 16) < 16
  {
    CountAtMost(rlist, 15);
  }
}
