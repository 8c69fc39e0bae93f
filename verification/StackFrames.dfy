/**
 A block store and the load that undoes it.

 `PushPop`: for each of the four kinds of stack, a store with write-back followed by the load that walks the other way
 reads from where was written, gives every listed register its word back and leaves the base where it was, whatever
 happened to the other registers in between. It holds for the handler of compiled code, and by `StoreAgreesIff` and
 `LoadAgreesIff` for the interpreter.
 */
module StackFrames {
  import opened BankedRegs
  import opened BlockTransfer

  /** A register transfer with write-back whose base is not in the list. */
  predicate IsFrame(t: Transfer) { ValidTransfer(t) && Packed(t) && t.wb && !t.rlist[t.rn] && !t.rlist[PC] }

  /** The other direction, and before instead of after or after instead of before. */
  function Undo(t: Transfer): Transfer { t.(up := !t.up, pre := !t.pre) }

  lemma ThereAndBack(a: Word, n: Word)
    ensures Minus(Plus(a, n), n) == a && Plus(Minus(a, n), n) == a
  {}

  lemma UndoMoves(base: Word, t: Transfer)
    requires ValidTransfer(t)
    ensures ValidTransfer(Undo(t)) && Moved(Moved(base, t), Undo(t)) == base
    ensures HandlerAddress(Moved(base, t), Undo(t)) == HandlerAddress(base, t)
  {
    ThereAndBack(base, Size(t));
  }

  /** Where the words of a transfer lie: the list upwards from the base or down to it, a word further under `pre`. */
  lemma FrameAddress(base: Word, t: Transfer)
    requires ValidTransfer(t)
    ensures HandlerAddress(base, t)
            == if t.up && !t.pre then base
               else if t.up then Plus(base, 4)
               else if t.pre then Minus(base, Size(t))
               else Plus(Minus(base, Size(t)), 4)
  {}

  /** What a store leaves: the base moved, and every listed register's word at its place. */
  lemma StoreIs(s: Regs, t: Transfer, pc: Word, r: nat)
    requires ValidRegs(s) && IsFrame(t) && r < PC && t.rlist[r]
    ensures var stored := HandlerStore(s, t, pc);
            && |stored.words| == Count(t.rlist, 16) && Count(t.rlist, r) < |stored.words|
            && stored.words[Count(t.rlist, r)] == ReadReg(s, r, UserBanked(s.high.mode, t))
            && ReadReg(stored.s, t.rn, false) == Moved(ReadReg(s, t.rn, false), t)
  {
    var base := ReadReg(s, t.rn, false);
    var s1 := WriteBack(s, t, true, base);
    StoredInOrder(s1, t, pc, 16, r);
    ReadWrite(s, t.rn, false, r, UserBanked(s.high.mode, t), Moved(base, t));
    ReadWrite(s1, t.rn, false, t.rn, false, Moved(base, t));
  }

  lemma LoadIs(u: Regs, t: Transfer, words: seq<Word>, r: nat)
    requires ValidRegs(u) && IsFrame(t) && |words| == Count(t.rlist, 16) && r < PC && t.rlist[r]
    ensures var loaded, usr := HandlerLoad(u, t, words), UserBanked(u.high.mode, t);
            && Count(t.rlist, r) < |words| && ReadReg(loaded, r, usr) == words[Count(t.rlist, r)]
            && ReadReg(loaded, t.rn, false) == Moved(ReadReg(u, t.rn, false), t)
  {
    var base, usr := ReadReg(u, t.rn, false), UserBanked(u.high.mode, t);
    var u1 := WriteBack(u, t, t.wb, base);
    var u2 := Scattered(u1, t, words, usr, 16);
    LoadedExactly(u1, t, words, usr, 16, r, usr);
    ReadWrite(u2, t.rn, false, r, usr, Moved(base, t));
    ReadWrite(u2, t.rn, false, t.rn, false, Moved(base, t));
  }

  /** Push and pop. `u` is any later state of the same mode with the base the store left. */
  lemma PushPop(s: Regs, t: Transfer, pc: Word, u: Regs, r: nat)
    requires ValidRegs(s) && ValidRegs(u) && IsFrame(t) && r < PC && t.rlist[r]
    requires u.high.mode == s.high.mode && ReadReg(u, t.rn, false) == ReadReg(HandlerStore(s, t, pc).s, t.rn, false)
    ensures ValidTransfer(Undo(t))
    ensures HandlerAddress(ReadReg(u, t.rn, false), Undo(t)) == HandlerStore(s, t, pc).address
    ensures |HandlerStore(s, t, pc).words| == Count(t.rlist, 16)
    ensures var loaded := HandlerLoad(u, Undo(t), HandlerStore(s, t, pc).words);
            && ReadReg(loaded, t.rn, false) == ReadReg(s, t.rn, false)
            && ReadReg(loaded, r, UserBanked(s.high.mode, t)) == ReadReg(s, r, UserBanked(s.high.mode, t))
  {
    UndoMoves(ReadReg(s, t.rn, false), t);
    StoreIs(s, t, pc, r);
    LoadIs(u, Undo(t), HandlerStore(s, t, pc).words, r);
  }
}
