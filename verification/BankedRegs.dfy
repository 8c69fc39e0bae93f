/**
 Banked registers R8 to R14 (section A2.4 of the ARM Architecture Reference Manual, ARM DDI 0100).

 The emulator keeps one live copy and per-mode saved copies, and moves words between them on a mode
 switch, by a fast path between user and IRQ and a slow one otherwise. `Bank` is the architecture's view:
 which word a mode's register number names. Every mode switch leaves all banks as they were
 (`SetMode`), every register write changes exactly its own bank's word, and the user-bank accessor
 of LDM and STM reaches exactly the user bank from every other mode, with the saved copies stale or not.
 */
module BankedRegs {

  datatype Mode = User | Fiq | Irq | Supervisor | Abort | Undefined | System

  const U32: nat := 0x1_0000_0000

  type Word = w: nat | w < U32

  /** Owners of a private copy of some of R8 to R14. */
  datatype Owner = UserBank | FiqBank | IrqBank | SvcBank | AbtBank | UndBank

  function BankOf(m: Mode): Owner {
    match m
    case User => UserBank
    case System => UserBank
    case Fiq => FiqBank
    case Irq => IrqBank
    case Supervisor => SvcBank
    case Abort => AbtBank
    case Undefined => UndBank
  }

  /** The architecture: R8 to R12 are private to FIQ, R13 and R14 to every exception mode. `r` counts from R8. */
  function OwnerOf(m: Mode, r: nat): Owner
    requires r < 7
  {
    if r < 5 then (if m == Fiq then FiqBank else UserBank) else BankOf(m)
  }

  /** The words that exist: all seven for user and FIQ, two for the others. */
  predicate Exists(o: Owner, r: nat) { r < 7 && (r >= 5 || o == UserBank || o == FiqBank) }

  class ThreadRegs {
    var mode: Mode
    var low: seq<Word>       // R0 to R7, in no bank
    var live: seq<Word>      // R8 to R14 as the running code sees them
    var user: seq<Word>      // seven words
    var fiq: seq<Word>       // seven words
    var irq: seq<Word>       // two words each
    var svc: seq<Word>
    var abt: seq<Word>
    var und: seq<Word>

    ghost predicate Valid() reads this {
      |low| == 8 && |live| == |user| == |fiq| == 7 && |irq| == |svc| == |abt| == |und| == 2
    }

    /** The saved copy of an owner's word. */
    ghost function Saved(o: Owner, r: nat): Word
      requires Valid() && Exists(o, r)
      reads this
    {
      match o
      case UserBank => user[r]
      case FiqBank => fiq[r]
      case IrqBank => irq[r - 5]
      case SvcBank => svc[r - 5]
      case AbtBank => abt[r - 5]
      case UndBank => und[r - 5]
    }

    /** The architectural word: live if the current mode uses it, saved otherwise. */
    ghost function Bank(o: Owner, r: nat): Word
      requires Valid() && Exists(o, r)
      reads this
    {
      if OwnerOf(mode, r) == o then live[r] else Saved(o, r)
    }

    /** Registers as code in the current mode reads them. */
    method GetReg(r: nat) returns (v: Word)
      requires Valid() && r < 7
      ensures Exists(OwnerOf(mode, r), r) && v == Bank(OwnerOf(mode, r), r)
    {
      v := live[r];
    }

    method SetReg(r: nat, v: Word)
      requires Valid() && r < 7
      modifies this`live
      ensures Valid()
      ensures forall o, k: nat :: Exists(o, k) ==> Bank(o, k) == if k == r && o == OwnerOf(mode, r) then v else old(Bank(o, k))
    {
      live := live[r := v];
    }

    /** The slow path, first half: save the outgoing mode's words. */
    method SaveOld()
      requires Valid()
      modifies this`user, this`fiq, this`irq, this`svc, this`abt, this`und
      ensures Valid()
      ensures forall o, k: nat :: Exists(o, k) ==> Saved(o, k) == old(Bank(o, k))
    {
      match mode
      case User => user := live;
      case System => user := live;
      case Fiq => fiq := live;
      case Irq => user, irq := live[..5] + user[5..], live[5..];
      case Supervisor => user, svc := live[..5] + user[5..], live[5..];
      case Abort => user, abt := live[..5] + user[5..], live[5..];
      case Undefined => user, und := live[..5] + user[5..], live[5..];
    }

    /** The slow path, second half: load the incoming mode's words. */
    method LoadNew(new_: Mode)
      requires Valid()
      modifies this`live
      ensures Valid()
      ensures forall k: nat :: k < 7 ==> Exists(OwnerOf(new_, k), k) && live[k] == Saved(OwnerOf(new_, k), k)
    {
      match new_
      case User => live := user;
      case System => live := user;
      case Fiq => live := fiq;
      case Irq => live := user[..5] + irq;
      case Supervisor => live := user[..5] + svc;
      case Abort => live := user[..5] + abt;
      case Undefined => live := user[..5] + und;
    }

    method SlowPath(new_: Mode)
      requires Valid()
      modifies this
      ensures Valid() && mode == new_ && low == old(low)
      ensures forall o, k: nat :: Exists(o, k) ==> Bank(o, k) == old(Bank(o, k))
    {
      SaveOld();
      LoadNew(new_);
      mode := new_;
    }

    /** `thread_set_cpsr`: no bank changes, whichever path is taken. */
    method SetMode(new_: Mode)
      requires Valid()
      modifies this
      ensures Valid() && mode == new_ && low == old(low)
      ensures forall o, k: nat :: Exists(o, k) ==> Bank(o, k) == old(Bank(o, k))
    {
      if mode != new_ {
        var fromUser, toUser := mode == User || mode == System, new_ == User || new_ == System;
        if fromUser && new_ == Irq {
          user := user[..5] + live[5..];
          live := live[..5] + irq;
        } else if mode == Irq && toUser {
          irq := live[5..];
          live := live[..5] + user[5..];
        } else {
          SlowPath(new_);
        }
      }
      mode := new_;
    }

    /** The accessor of LDM and STM with the user bit, outside user mode: `fiqMode` is checked once by the caller. */
    method GetRegUsr(r: nat, fiqMode: bool) returns (v: Word)
      requires Valid() && r < 7 && BankOf(mode) != UserBank && fiqMode == (mode == Fiq)
      ensures v == Bank(UserBank, r)
    {
      if fiqMode || r >= 5 {
        v := user[r];
      } else {
        v := live[r];
      }
    }

    method SetRegUsr(r: nat, fiqMode: bool, v: Word)
      requires Valid() && r < 7 && BankOf(mode) != UserBank && fiqMode == (mode == Fiq)
      modifies this`user, this`live
      ensures Valid()
      ensures forall o, k: nat :: Exists(o, k) ==> Bank(o, k) == if k == r && o == UserBank then v else old(Bank(o, k))
    {
      if fiqMode || r >= 5 {
        user := user[r := v];
      } else {
        live := live[r := v];
      }
    }

    /** What `r` names: the user bank when asked for it, the current mode's own otherwise. */
    ghost function Target(user_: bool, r: nat): (o: Owner)
      requires r < 7
      ensures Exists(o, r)
      reads this
    {
      if user_ then UserBank else OwnerOf(mode, r)
    }

    // -------------------------------------------------------------------------------------------
    // Whole runs

    /** All banks at once. */
    ghost function View(): map<(Owner, nat), Word>
      requires Valid()
      reads this
    {
      map o: Owner, k: nat | 0 <= k < 7 && Exists(o, k) :: (o, k) := Bank(o, k)
    }

    /** A write to one bank: the user bank from outside user mode, or the current mode's own. */
    method WriteBank(r: nat, v: Word, user_: bool)
      requires Valid() && r < 7
      modifies this`user, this`live
      ensures Valid() && View() == old(View())[(Target(user_, r), r) := v]
    {
      if user_ && BankOf(mode) != UserBank { SetRegUsr(r, mode == Fiq, v); } else { SetReg(r, v); }
    }

    method Switch(new_: Mode)
      requires Valid()
      modifies this
      ensures Valid() && mode == new_ && View() == old(View())
    {
      SetMode(new_);
    }

    method Do(op: Op)
      requires Valid()
      modifies this
      ensures Valid() && Machine(mode, View()) == ApplyTo(Machine(old(mode), old(View())), op)
    {
      match op
      case SwitchTo(m) => Switch(m);
      case Write(r, v) => if r < 7 { WriteBank(r, v, false); }
      case WriteUser(r, v) => if r < 7 { WriteBank(r, v, true); }
    }

    /** Any sequence of writes, user-bank writes and mode switches is the same sequence on separate banks. */
    method Run(ops: seq<Op>)
      requires Valid()
      modifies this
      ensures Valid() && Machine(mode, View()) == RunOn(Machine(old(mode), old(View())), ops)
    {
      ghost var start := Machine(mode, View());
      for i := 0 to |ops|
        invariant Valid() && Machine(mode, View()) == RunOn(start, ops[..i])
      {
        assert ops[..i + 1][..i] == ops[..i];
        Do(ops[i]);
      }
      assert ops[..|ops|] == ops;
    }
  }

  /** The architecture's machine: a mode and separate banks. */
  datatype Machine = Machine(mode: Mode, banks: map<(Owner, nat), Word>)

  datatype Op = SwitchTo(target: Mode) | Write(r: nat, v: Word) | WriteUser(r: nat, v: Word)

  function ApplyTo(m: Machine, op: Op): Machine {
    match op
    case SwitchTo(t) => m.(mode := t)
    case Write(r, v) => if r < 7 then m.(banks := m.banks[(OwnerOf(m.mode, r), r) := v]) else m
    case WriteUser(r, v) => if r < 7 then m.(banks := m.banks[(UserBank, r) := v]) else m
  }

  function RunOn(m: Machine, ops: seq<Op>): Machine
    decreases |ops|
  {
    if ops == [] then m else ApplyTo(RunOn(m, ops[..|ops| - 1]), ops[|ops| - 1])
  }
}
