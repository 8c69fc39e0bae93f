/**
 The register loops of LDM and STM on the register file: the handler of compiled code, which takes the listed registers
 off a copy of the list from the lowest up, and the interpreter, which tries all sixteen. Each is the transfer
 `BlockTransfer` compares. The words of a load come in as a parameter, those of a store go out as a result.
 */
module BlockTransferImpl {
  import opened BankedRegs
  import opened BlockTransfer

  ghost function State(emu: ThreadRegs): (s: Regs)
    requires emu.Valid()
    reads emu
    ensures ValidRegs(s)
  {
    Regs(emu.low, Machine(emu.mode, emu.View()))
  }

  /** The accessor picked once per transfer. */
  method Get(emu: ThreadRegs, r: nat, usr: bool, fiqMode: bool) returns (v: Word)
    requires emu.Valid() && r < PC && (usr ==> BankOf(emu.mode) != UserBank) && fiqMode == (emu.mode == Fiq)
    ensures v == ReadReg(State(emu), r, usr)
  {
    if r < 8 {
      v := emu.low[r];
    } else if usr {
      v := emu.GetRegUsr(r - 8, fiqMode);
    } else {
      v := emu.GetReg(r - 8);
    }
  }

  method Set(emu: ThreadRegs, r: nat, usr: bool, fiqMode: bool, v: Word)
    requires emu.Valid() && r < PC && (usr ==> BankOf(emu.mode) != UserBank) && fiqMode == (emu.mode == Fiq)
    modifies emu`low, emu`user, emu`live
    ensures emu.Valid() && State(emu) == WriteReg(old(State(emu)), r, usr, v)
  {
    if r < 8 {
      emu.low := emu.low[r := v];
      assert emu.View() == old(emu.View());
    } else {
      emu.WriteBank(r - 8, v, usr);
    }
  }

  // ---------------------------------------------------------------------------------------------
  // The handler's walk over the list

  /** The lowest register left, 16 when there is none. */
  function Lowest(rest: seq<bool>, from: nat): nat
    decreases |rest| - from
  {
    if from >= |rest| || rest[from] then from else Lowest(rest, from + 1)
  }

  lemma {:induction false} LowestIs(rest: seq<bool>, from: nat, k: nat)
    requires from <= k < |rest| && rest[k]
    ensures from <= Lowest(rest, from) <= k && rest[Lowest(rest, from)]
    ensures forall j: nat :: from <= j < Lowest(rest, from) ==> !rest[j]
    decreases |rest| - from
  {
    if !rest[from] { LowestIs(rest, from + 1, k); }
  }

  lemma {:induction false} SomeListed(rlist: seq<bool>, p: nat, q: nat)
    requires p <= q <= |rlist|
    ensures Count(rlist, p) < Count(rlist, q) <==> exists k: nat :: p <= k < q && rlist[k]
    ensures Count(rlist, p) <= Count(rlist, q)
    decreases q
  {
    if p < q { SomeListed(rlist, p, q - 1); }
  }

  lemma {:induction false} SkipStores(s: Regs, t: Transfer, pc: Word, p: nat, q: nat)
    requires ValidRegs(s) && ValidTransfer(t) && p <= q <= 16 && forall k: nat :: p <= k < q ==> !t.rlist[k]
    ensures HandlerWords(s, t, pc, q) == HandlerWords(s, t, pc, p)
    decreases q
  {
    if p < q { SkipStores(s, t, pc, p, q - 1); }
  }

  lemma {:induction false} SkipLoads(s: Regs, t: Transfer, words: seq<Word>, usr: bool, p: nat, q: nat)
    requires ValidRegs(s) && ValidTransfer(t) && |words| == Count(t.rlist, 16)
    requires p <= q <= 16 && forall k: nat :: p <= k < q ==> !t.rlist[k]
    ensures Scattered(s, t, words, usr, q) == Scattered(s, t, words, usr, p)
    decreases q
  {
    if p < q { SkipLoads(s, t, words, usr, p, q - 1); }
  }

  /** What is left of the list once the registers below `p` are taken. */
  ghost predicate Left(rlist: seq<bool>, rest: seq<bool>, p: nat) {
    |rlist| == |rest| == 16 && p <= 16 && forall k: nat :: k < 16 ==> rest[k] == (p <= k && rlist[k])
  }

  /** One step: the lowest register left is the next listed one. */
  lemma NextListed(rlist: seq<bool>, rest: seq<bool>, p: nat, q: nat) returns (z: nat)
    requires Left(rlist, rest, p) && p <= q <= 16 && Count(rlist, p) < Count(rlist, q)
    ensures z == Lowest(rest, 0) && p <= z < q && rlist[z] && Left(rlist, rest[z := false], z + 1)
    ensures forall k: nat :: p <= k < z ==> !rlist[k]
    ensures Count(rlist, z) == Count(rlist, p) && Count(rlist, z + 1) == Count(rlist, p) + 1
  {
    SomeListed(rlist, p, q);
    var k: nat :| p <= k < q && rlist[k];
    LowestIs(rest, 0, k);
    z := Lowest(rest, 0);
    assert forall j: nat :: p <= j < z ==> rest[j] == rlist[j];
    SomeListed(rlist, p, z);
  }

  lemma TakeStore(s: Regs, t: Transfer, pc: Word, rest: seq<bool>, p: nat, q: nat) returns (z: nat)
    requires ValidRegs(s) && ValidTransfer(t) && Left(t.rlist, rest, p) && p <= q <= 16
    requires Count(t.rlist, p) < Count(t.rlist, q) && (q <= PC || !t.rlist[PC])
    ensures z == Lowest(rest, 0) < PC && z < q && Left(t.rlist, rest[z := false], z + 1)
    ensures Count(t.rlist, z + 1) == Count(t.rlist, p) + 1
    ensures HandlerWords(s, t, pc, z + 1) == HandlerWords(s, t, pc, p) + [ReadReg(s, z, UserBanked(s.high.mode, t))]
  {
    z := NextListed(t.rlist, rest, p, q);
    SkipStores(s, t, pc, p, z);
  }

  lemma TakeLoad(s: Regs, t: Transfer, words: seq<Word>, usr: bool, rest: seq<bool>, p: nat) returns (z: nat)
    requires ValidRegs(s) && ValidTransfer(t) && |words| == Count(t.rlist, 16) && !t.rlist[PC]
    requires Left(t.rlist, rest, p) && Count(t.rlist, p) < |words|
    ensures z == Lowest(rest, 0) < PC && Left(t.rlist, rest[z := false], z + 1)
    ensures Count(t.rlist, z + 1) == Count(t.rlist, p) + 1
    ensures Scattered(s, t, words, usr, z + 1) ==
            WriteReg(Scattered(s, t, words, usr, p), z, usr, words[Count(t.rlist, p)])
  {
    z := NextListed(t.rlist, rest, p, 16);
    SkipLoads(s, t, words, usr, p, z);
  }

  method GatherListed(emu: ThreadRegs, t: Transfer, pc: Word) returns (words: seq<Word>)
    requires emu.Valid() && ValidTransfer(t)
    ensures words == HandlerWords(State(emu), t, pc, 16)
  {
    var len := Count(t.rlist, 16);
    words := [];
    var usr, fiqMode := t.user && !t.rlist[PC] && BankOf(emu.mode) != UserBank, emu.mode == Fiq;
    var rest := t.rlist;
    ghost var s, p, q := State(emu), 0, if t.rlist[PC] then PC else 16;
    for i := 0 to if t.rlist[PC] then len - 1 else len
      invariant Left(t.rlist, rest, p) && p <= q && i == Count(t.rlist, p)
      invariant words == HandlerWords(s, t, pc, p)
    {
      ghost var next := TakeStore(s, t, pc, rest, p, q);
      var z := Lowest(rest, 0);
      rest := rest[z := false];
      var v := Get(emu, z, usr, fiqMode);
      words := words + [v];
      p := z + 1;
    }
    SomeListed(t.rlist, p, q);
    SkipStores(s, t, pc, p, q);
    if t.rlist[PC] { words := words + [pc]; }
  }

  method ScatterListed(emu: ThreadRegs, t: Transfer, words: seq<Word>)
    requires emu.Valid() && ValidTransfer(t) && |words| == Count(t.rlist, 16) && !t.rlist[PC]
    modifies emu`low, emu`user, emu`live
    ensures emu.Valid()
    ensures State(emu) == Scattered(old(State(emu)), t, words, UserBanked(emu.mode, t), 16)
  {
    var usr, fiqMode := t.user && BankOf(emu.mode) != UserBank, emu.mode == Fiq;
    var rest := t.rlist;
    ghost var s, p := State(emu), 0;
    for i := 0 to |words|
      invariant emu.Valid() && Left(t.rlist, rest, p) && i == Count(t.rlist, p)
      invariant State(emu) == Scattered(s, t, words, usr, p)
    {
      ghost var next := TakeLoad(s, t, words, usr, rest, p);
      var z := Lowest(rest, 0);
      rest := rest[z := false];
      Set(emu, z, usr, fiqMode, words[i]);
      p := z + 1;
    }
    SomeListed(t.rlist, p, 16);
    SkipLoads(s, t, words, usr, p, 16);
  }

  /** `handle_multiple_request` for a store: the base may move before the words are taken. */
  method StoreHandled(emu: ThreadRegs, t: Transfer, pc: Word) returns (address: Word, words: seq<Word>)
    requires emu.Valid() && ValidTransfer(t) && Packed(t)
    modifies emu`low, emu`user, emu`live
    ensures emu.Valid() && Stored(address, words, State(emu)) == HandlerStore(old(State(emu)), t, pc)
  {
    var fiqMode := emu.mode == Fiq;
    var base := Get(emu, t.rn, false, fiqMode);
    var start := if t.up then base else Minus(base, Size(t));
    var moved := if t.up then Plus(start, Size(t)) else start;
    if t.wb && (BaseValid(t) || Bits(t.rlist, t.rn + 1) > Pow2(t.rn)) { Set(emu, t.rn, false, fiqMode, moved); }
    address := if t.pre == t.up then Plus(start, 4) else start;
    words := GatherListed(emu, t, pc);
    if t.wb { Set(emu, t.rn, false, fiqMode, moved); }
  }

  /** The same for a load: the base moves first, and again if the list leaves it alone. */
  method LoadHandled(emu: ThreadRegs, t: Transfer, words: seq<Word>)
    requires emu.Valid() && ValidTransfer(t) && |words| == Count(t.rlist, 16) && !t.rlist[PC]
    modifies emu`low, emu`user, emu`live
    ensures emu.Valid() && State(emu) == HandlerLoad(old(State(emu)), t, words)
  {
    var fiqMode := emu.mode == Fiq;
    var base := Get(emu, t.rn, false, fiqMode);
    var start := if t.up then base else Minus(base, Size(t));
    var moved := if t.up then Plus(start, Size(t)) else start;
    if t.wb { Set(emu, t.rn, false, fiqMode, moved); }
    ScatterListed(emu, t, words);
    if t.wb && BaseValid(t) { Set(emu, t.rn, false, fiqMode, moved); }
  }

  // ---------------------------------------------------------------------------------------------
  // The interpreter's loops

  /** Outside FIQ only R13 and R14 differ between the banks. */
  lemma SameBank(s: Regs, r: nat, usr: bool, v: Word)
    requires ValidRegs(s) && r < PC
    ensures ReadReg(s, r, usr) == ReadReg(s, r, usr && (r == 13 || r == 14 || s.high.mode == Fiq))
    ensures WriteReg(s, r, usr, v) == WriteReg(s, r, usr && (r == 13 || r == 14 || s.high.mode == Fiq), v)
  {}

  /** One listed register of a store. */
  method StoreWord(emu: ThreadRegs, t: Transfer, inst: Word, final: Word, i: nat) returns (value: Word)
    requires emu.Valid() && ValidTransfer(t) && i < 16 && final == Moved(ReadReg(State(emu), t.rn, false), t)
    ensures value == InterpreterWord(State(emu), t, inst, i)
  {
    var outside := t.user && !t.rlist[PC] && BankOf(emu.mode) != UserBank;
    var fiqMode := outside && emu.mode == Fiq;
    if i == PC {
      value := Plus(inst, 12);
    } else if outside && (i == 13 || i == 14 || fiqMode) {
      value := Get(emu, i, true, emu.mode == Fiq);
    } else if t.wb && i == t.rn && LowerListed(t) {
      value := final;
    } else {
      value := Get(emu, i, false, emu.mode == Fiq);
    }
  }

  /** `ldm_stm` for a store. */
  method StoreInterpreted(emu: ThreadRegs, t: Transfer, inst: Word) returns (address: Word, words: seq<Word>)
    requires emu.Valid() && ValidTransfer(t)
    modifies emu`low, emu`user, emu`live
    ensures emu.Valid() && Stored(address, words, State(emu)) == InterpreterStore(old(State(emu)), t, inst)
  {
    var base := Get(emu, t.rn, false, emu.mode == Fiq);
    var final := if t.up then Plus(base, Size(t)) else Minus(base, Size(t));
    address := InterpreterAddress(base, t);
    words := [];
    ghost var s := State(emu);
    for i := 0 to 16
      invariant emu.Valid() && State(emu) == s && words == InterpreterWords(s, t, inst, i)
    {
      if t.rlist[i] {
        var value := StoreWord(emu, t, inst, final, i);
        words := words + [value];
      }
    }
    if t.wb { Set(emu, t.rn, false, emu.mode == Fiq, final); }
  }

  /** One listed register of a load; a loaded PC is a branch. */
  method LoadWord(emu: ThreadRegs, t: Transfer, i: nat, value: Word)
    requires emu.Valid() && ValidTransfer(t) && i < 16
    modifies emu`low, emu`user, emu`live
    ensures emu.Valid()
    ensures State(emu) == if i < PC then WriteReg(old(State(emu)), i, UserBanked(emu.mode, t), value) else old(State(emu))
  {
    var outside := t.user && !t.rlist[PC] && BankOf(emu.mode) != UserBank;
    var fiqMode := outside && emu.mode == Fiq;
    if i < PC {
      SameBank(State(emu), i, outside, value);
      Set(emu, i, outside && (i == 13 || i == 14 || fiqMode), emu.mode == Fiq, value);
    }
  }

  lemma ScatteredStep(s: Regs, t: Transfer, words: seq<Word>, usr: bool, i: nat)
    requires ValidRegs(s) && ValidTransfer(t) && i < 16 && |words| == Count(t.rlist, 16)
    ensures t.rlist[i] ==> Count(t.rlist, i) < |words|
    ensures Scattered(s, t, words, usr, i + 1) ==
            if t.rlist[i] && i < PC then WriteReg(Scattered(s, t, words, usr, i), i, usr, words[Count(t.rlist, i)])
            else Scattered(s, t, words, usr, i)
  {
    CountBound(t.rlist, i);
  }

  method LoadWords(emu: ThreadRegs, t: Transfer, words: seq<Word>)
    requires emu.Valid() && ValidTransfer(t) && |words| == Count(t.rlist, 16)
    modifies emu`low, emu`user, emu`live
    ensures emu.Valid()
    ensures State(emu) == Scattered(old(State(emu)), t, words, UserBanked(emu.mode, t), 16)
  {
    ghost var s, usr := State(emu), UserBanked(emu.mode, t);
    var slot := 0;
    for i := 0 to 16
      invariant emu.Valid() && slot == Count(t.rlist, i)
      invariant State(emu) == Scattered(s, t, words, usr, i)
    {
      ScatteredStep(s, t, words, usr, i);
      if t.rlist[i] {
        LoadWord(emu, t, i, words[slot]);
        slot := slot + 1;
      }
    }
  }

  /** `ldm_stm` for a load: the loaded base wins over the moved one. */
  method LoadInterpreted(emu: ThreadRegs, t: Transfer, words: seq<Word>)
    requires emu.Valid() && ValidTransfer(t) && |words| == Count(t.rlist, 16)
    modifies emu`low, emu`user, emu`live
    ensures emu.Valid() && State(emu) == InterpreterLoad(old(State(emu)), t, words)
  {
    var base := Get(emu, t.rn, false, emu.mode == Fiq);
    var final := if t.up then Plus(base, Size(t)) else Minus(base, Size(t));
    LoadWords(emu, t, words);
    if t.wb && !t.rlist[t.rn] { Set(emu, t.rn, false, emu.mode == Fiq, final); }
  }
}
