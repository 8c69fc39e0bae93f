/**
 The emulator around its scheduler: what the main loop and the guest do between checks, and what one dispatch, one
 batch and one check of its own clients amount to.
 */
module EmuSystem {
  import opened Arithmetic
  import opened Clients
  import opened Scheduler

  /** A slice counts its cycles in 16 bits. */
  const SLICE := 0x1_0000

  // ---------------------------------------------------------------------------------------------
  // The system between and during checks

  datatype Fired = Fired(index: nat, at: nat)

  /** `base` is how far the clock is behind the cycles since power-on, through rebases and where it wrapped; `log` has
      every dispatch at its absolute due cycle; `owed` says that the clock has moved since the last check. */
  datatype Sys = Sys(s: Sched, w: World, base: nat, log: seq<Fired>, owed: bool)

  datatype Op =
    | RunSlice(cycles: nat)
    | Halt
    | Check
    | WriteReload(ch: nat, mask: bv16, value: bv16)
    | WriteTimer(ch: nat, mask: bv16, value: bv16)
    | ReadTimer(ch: nat)
    | WriteDispStat(mask: bv16, value: bv16)

  predicate Formed(sys: Sys) {
    Valid(sys.s) && ValidWorld(sys.w)
  }

  /** The main loop runs a slice of guest code or skips to the next event, and checks after either; the
      guest reaches the registers from inside a slice, before its cycles are added. */
  predicate Allowed(sys: Sys, op: Op)
    requires Formed(sys)
  {
    match op
    case RunSlice(cycles) => !sys.owed && 1 <= cycles < SLICE
    case Halt => !sys.owed
    case Check => true
    case WriteReload(ch, _, _) => ch < CHANNELS
    case WriteTimer(ch, _, _) => ch < CHANNELS
    case ReadTimer(ch) => ch < CHANNELS
    case WriteDispStat(_, _) => true
  }

  /** A slice that takes the clock past its 32 bits. */
  predicate Wraps(sys: Sys, op: Op) { op.RunSlice? && sys.s.now + op.cycles > U32_MAX }

  function Absolute(log: seq<Dispatch>, base: nat): (r: seq<Fired>)
    ensures |r| == |log|
  {
    seq(|log|, i requires 0 <= i < |log| => Fired(log[i].index, base + log[i].due))
  }

  /** `timers_set_cnt_h`. */
  function SetTimer(sys: Sys, ch: nat, mask: bv16, value: bv16): Sys
    requires Formed(sys) && ch < CHANNELS
  {
    var c := sys.w.channels[ch];
    var c1 := WriteControl(ch, c, mask, value);
    if NeedsSchedule(ch, c, c1) then
      RemainingRange(c1);
      sys.(w := sys.w.(channels := sys.w.channels[ch := Anchored(c1, sys.s.now)]),
           s := Schedule(sys.s, Remaining(c1), TIMER_0 + ch))
    else
      sys.(w := sys.w.(channels := sys.w.channels[ch := c1]))
  }

  /** The value a counter shows `left` cycles before its overflow. */
  function Reading(left: nat, shift: nat): (r: nat)
    ensures r < TIME_OVERFLOW
  {
    (TIME_OVERFLOW - left / Scale(shift)) % TIME_OVERFLOW
  }

  /** `timers_get_cnt_l`: a running timer derives its value from its schedule. */
  function ReadValue(ch: nat, c: Channel, now: nat): (r: nat)
    requires ValidChannel(c) && now <= U32_MAX
    ensures r < TIME_OVERFLOW
  {
    if Running(ch, c) then Reading((c.scheduled - now) % (U32_MAX + 1), c.shift) else c.value
  }

  function Step(sys: Sys, op: Op): Sys
    requires Formed(sys) && Allowed(sys, op)
  {
    match op
    case RunSlice(cycles) =>
      sys.(s := AddCycles(sys.s, cycles), base := sys.base + (if Wraps(sys, op) then U32_MAX + 1 else 0), owed := true)
    case Halt => sys.(s := JumpToNextEvent(sys.s), owed := true)
    case Check =>
      var r := CheckEvents(sys.s, sys.w, EmuClient());
      Sys(r.s, r.w, sys.base + (if r.rebased then sys.s.now else 0), sys.log + Absolute(r.log, sys.base), false)
    case WriteReload(ch, mask, value) =>
      var c := sys.w.channels[ch];
      sys.(w := sys.w.(channels := sys.w.channels[ch := c.(cntL := Overlay(c.cntL, mask, value))]))
    case WriteTimer(ch, mask, value) => SetTimer(sys, ch, mask, value)
    case ReadTimer(ch) =>
      var c := sys.w.channels[ch];
      sys.(w := sys.w.(channels := sys.w.channels[ch := c.(value := ReadValue(ch, c, sys.s.now))]))
    case WriteDispStat(mask, value) =>
      var m := mask & 0xFFB8;
      sys.(w := sys.w.(dispStat := Overlay(sys.w.dispStat, m, value)))
  }

  function Boot(): Sys {
    var idle := Channel(0, 0, 0, 0, 0, Mark(0, 0, 1));
    var off := Sched(0, seq(EVENTS, _ => 0), NoBits(), U32_MAX, NoBits(), 0);
    Sys(Schedule(Schedule(off, HDRAW_CYCLES, SCANLINE_240), SAMPLE_CYCLES, APU_SAMPLE),
        World([idle, idle, idle, idle], 0, 0), 0, [], false)
  }

  ghost predicate IsRun(sys: Sys, ops: seq<Op>, last: Sys)
    decreases ops
  {
    if ops == [] then sys == last
    else Formed(sys) && Allowed(sys, ops[0]) && IsRun(Step(sys, ops[0]), ops[1..], last)
  }

  lemma {:induction false} RunAppend(sys: Sys, ops: seq<Op>, mid: Sys, op: Op)
    requires IsRun(sys, ops, mid) && Formed(mid) && Allowed(mid, op)
    ensures IsRun(sys, ops + [op], Step(mid, op))
    decreases ops
  {
    if ops == [] {
      assert [op][1..] == [];
    } else {
      assert (ops + [op])[1..] == ops[1..] + [op];
      RunAppend(Step(sys, ops[0]), ops[1..], mid, op);
    }
  }

  // ---------------------------------------------------------------------------------------------
  // One dispatch

  function Dispatched(sys: Sys, c: Client<World>): Sys
    requires Valid(sys.s) && Best(sys.s, EVENTS) != NONE
  {
    var (s, w, d) := DispatchOne(sys.s, sys.w, c, Best(sys.s, EVENTS));
    sys.(s := s, w := w, log := sys.log + [Fired(d.index, sys.base + d.due)])
  }

  function AfterDispatch(sys: Sys): Sys
    requires Formed(sys) && Best(sys.s, EVENTS) != NONE
  {
    Dispatched(sys, EmuClient())
  }

  lemma DispatchedIs(sys: Sys, c: Client<World>) returns (z: Sys, d: Dispatch)
    requires Valid(sys.s) && Best(sys.s, EVENTS) != NONE
    ensures z == Dispatched(sys, c) && (z.s, z.w, d) == DispatchOne(sys.s, sys.w, c, Best(sys.s, EVENTS))
    ensures z == sys.(s := z.s, w := z.w, log := sys.log + [Fired(d.index, sys.base + d.due)])
  {
    var (s1, w1, first) := DispatchOne(sys.s, sys.w, c, Best(sys.s, EVENTS));
    z, d := sys.(s := s1, w := w1, log := sys.log + [Fired(first.index, sys.base + first.due)]), first;
  }

  lemma DispatchKeepsFormed(sys: Sys)
    requires Formed(sys) && Best(sys.s, EVENTS) != NONE
    ensures Formed(AfterDispatch(sys)) && AfterDispatch(sys).s.now == sys.s.now && AfterDispatch(sys).base == sys.base
  {}

  predicate IsPeriodic(index: nat) {
    index == APU_SAMPLE || index == SCANLINE_240 || index == SCANLINE_308
  }

  /** What a periodic handler's single request does. */
  lemma PerformSingle(s: Sched, cycles: nat, ev: nat)
    requires Valid(s) && 1 <= cycles <= U32_MAX && ev < EVENTS
    ensures Perform(s, [FromDue(cycles, ev)]) == SetEvent(s, ev, Min(s.current + cycles, U32_MAX))
  {
    var a: Action := FromDue(cycles, ev);
    assert [a][1..] == [];
    assert Perform(PerformOne(s, a), []) == PerformOne(s, a);
  }

  /** A dispatch of one of the three periodic events, spelled out. */
  lemma PeriodicDispatch(sys: Sys, b: nat, cycles: nat, next: nat)
    requires Formed(sys) && b == Best(sys.s, EVENTS) && 1 <= cycles <= 960
    requires (b, cycles, next) in {(SCANLINE_240, HBLANK_CYCLES, SCANLINE_308),
                                   (SCANLINE_308, HDRAW_CYCLES, SCANLINE_240),
                                   (APU_SAMPLE, SAMPLE_CYCLES, APU_SAMPLE)}
    ensures AfterDispatch(sys).s == SetEvent(Take(sys.s, b), next, Min(sys.s.due[b] + cycles, U32_MAX))
    ensures AfterDispatch(sys).w == OnEvent(sys.w, b, sys.s.now, sys.s.due[b]).0
    ensures AfterDispatch(sys).log == sys.log + [Fired(b, sys.base + sys.s.due[b])]
  {
    PerformSingle(Take(sys.s, b), cycles, next);
  }

  /** A timer's handler leaves the periodic events alone. */
  lemma TimerDispatchSpares(sys: Sys, b: nat)
    requires Formed(sys) && b == Best(sys.s, EVENTS) && TIMER_0 <= b < TIMER_0 + CHANNELS
    ensures forall i: nat :: i < EVENTS && IsPeriodic(i) ==>
              AfterDispatch(sys).s.active[i] == sys.s.active[i] && AfterDispatch(sys).s.due[i] == sys.s.due[i]
  {
    var actions := OnEvent(sys.w, b, sys.s.now, sys.s.due[b]).1;
    forall i: nat | i < EVENTS && IsPeriodic(i)
      ensures AfterDispatch(sys).s.active[i] == sys.s.active[i] && AfterDispatch(sys).s.due[i] == sys.s.due[i]
    {
      PerformSpares(Take(sys.s, b), actions, i);
    }
  }

  // ---------------------------------------------------------------------------------------------
  // A whole check

  /** The system after a batch, at its absolute dispatch cycles. */
  function AfterBatch(sys: Sys, c: Client<World>): Sys
    requires Valid(sys.s)
  {
    var (s, w, log) := Batch(sys.s, sys.w, c);
    sys.(s := s, w := w, log := sys.log + Absolute(log, sys.base))
  }

  lemma NothingDue(z: Sys)
    requires Formed(z) && Best(z.s, EVENTS) == NONE
    ensures AfterBatch(z, EmuClient()) == z
  {
    assert z.log + Absolute([], z.base) == z.log;
  }

  lemma AbsoluteCons(log: seq<Fired>, d: Dispatch, rest: seq<Dispatch>, base: nat)
    ensures log + Absolute([d] + rest, base) == (log + [Fired(d.index, base + d.due)]) + Absolute(rest, base)
  {}

  lemma LogsJoin(sys: Sys, z: Sys, c: Client<World>, d: Dispatch, b: (Sched, World, seq<Dispatch>))
    requires Valid(sys.s) && Valid(z.s) && Batch(z.s, z.w, c) == b
    requires z == sys.(s := z.s, w := z.w, log := sys.log + [Fired(d.index, sys.base + d.due)])
    requires Batch(sys.s, sys.w, c) == (b.0, b.1, [d] + b.2)
    ensures AfterBatch(sys, c) == AfterBatch(z, c)
  {
    AbsoluteCons(sys.log, d, b.2, sys.base);
  }

  lemma AfterBatchStep(sys: Sys, c: Client<World>)
    requires Valid(sys.s) && Best(sys.s, EVENTS) != NONE
    ensures Valid(Dispatched(sys, c).s) && Dispatched(sys, c).s.now == sys.s.now
    ensures Rank(Dispatched(sys, c).s) < Rank(sys.s)
    ensures AfterBatch(sys, c) == AfterBatch(Dispatched(sys, c), c)
  {
    var z, d := DispatchedIs(sys, c);
    BatchUnfolds(sys.s, sys.w, c, z.s, z.w, d);
    LogsJoin(sys, z, c, d, Batch(z.s, z.w, c));
  }

  lemma QuietImmEvents(s: Sched, w: World, pending: Word, i: nat)
    requires Valid(s) && i <= IMM_EVENTS
    ensures RunImm(s, w, EmuClient(), pending, i) == (s, w)
    decreases IMM_EVENTS - i
  {}

  /** The system after the timed half of a check. */
  function AfterFullCheck(sys: Sys, c: Client<World>): Sys
    requires Valid(sys.s)
  {
    var r := FullCheck(sys.s, sys.w, c);
    Sys(r.s, r.w, sys.base + (if r.rebased then sys.s.now else 0), sys.log + Absolute(r.log, sys.base), sys.owed)
  }

  /** A full check is a batch, a fresh bound, and past 2^31 a rebase. */
  lemma FullCheckShape(sys: Sys, c: Client<World>) returns (d: Sys, e: Sys)
    requires Valid(sys.s)
    ensures d == AfterBatch(sys.(s := sys.s.(imm := sys.s.imm, next := U32_MAX)), c) && Valid(d.s)
    ensures e == d.(s := d.s.(imm := d.s.imm, next := LeastDue(d.s, EVENTS, d.s.next)))
    ensures Valid(e.s) && NoneBehind(e.s) && e.s.now == sys.s.now
    ensures AfterFullCheck(sys, c) == if e.s.now > REBASE_ABOVE
                                      then e.(s := Rebase(e.s), w := c.onRebase(e.w, e.s.now), base := e.base + e.s.now)
                                      else e
  {
    var b := sys.(s := sys.s.(imm := sys.s.imm, next := U32_MAX));
    assert b.s == sys.s.(next := U32_MAX);
    d := AfterBatch(b, c);
    e := d.(s := d.s.(imm := d.s.imm, next := LeastDue(d.s, EVENTS, d.s.next)));
    var t, w, log := FullCheckIs(sys.s, sys.w, c);
    assert e.s == t && e.w == w;
  }

  /** There are no immediate handlers to run: a check clears the word, and is then the early return or a full
      check. */
  lemma CheckIs(sys: Sys) returns (a: Sys)
    requires Formed(sys)
    ensures a == sys.(s := sys.s.(imm := NoBits())) && Formed(a)
    ensures Step(sys, Check) == (if a.s.now < a.s.next then a else AfterFullCheck(a, EmuClient())).(owed := false)
    ensures CheckEvents(sys.s, sys.w, EmuClient()).fired <==> a.s.now >= a.s.next
  {
    a := sys.(s := sys.s.(imm := NoBits()));
    QuietImmEvents(a.s, a.w, sys.s.imm, 0);
    assert sys.log + Absolute([], sys.base) == sys.log;
  }

  /** A check leaves the clock where it is or at 0, and never above the cycle it rebases from if it fired. */
  lemma CheckClock(s: Sched, w: World, c: Client<World>)
    requires Valid(s)
    ensures var r := CheckEvents(s, w, c); r.s.now <= s.now && (r.fired ==> r.s.now <= REBASE_ABOVE)
  {
  }
}
