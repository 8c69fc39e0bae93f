/**
 Runs of the main loop in which no check loses the scheduler's bound.

 - `ClockStays`: the clock never comes near the top of its 32 bits, so no slice wraps it, and
   `InTimeKeepsGrid`: every periodic event stays on its grid;
 - `RunKeeps`: the bound holds, and every active timer event is due at its channel's recorded schedule.

 The hypothesis is exact and about the state before a check: `CheckKeepsIff` shows that a check keeps the invariant
 if and only if it is not one that rebases the clock while some due event is late (`LosesBound`).
 */
module MainLoop {
  import opened Arithmetic
  import opened CatchUp
  import opened Clients
  import opened EmuSystem
  import opened EventGrid
  import opened Scheduler

  /** Where the clock stays: a sample period and a slice past the cycle from which checks rebase it. */
  const CLOCK_LIMIT := REBASE_ABOVE + SAMPLE_CYCLES + SLICE

  predicate Fits(sys: Sys) {
    Formed(sys) && sys.s.now <= CLOCK_LIMIT
  }

  /** A check that rebases the clock in a batch that catches up, seen before it: the clock is past 2^31, the check does
      not return early, and the handler of some due event would ask for a cycle behind the clock. */
  ghost predicate LosesBound(sys: Sys, op: Op)
    requires Formed(sys)
  {
    op.Check? && sys.s.now > REBASE_ABOVE && sys.s.next <= sys.s.now && SomeLate(sys.s, sys.w)
  }

  /** No check of the run loses the scheduler's bound. */
  ghost predicate InTime(sys: Sys, ops: seq<Op>)
    decreases ops
  {
    ops != [] && Formed(sys) && Allowed(sys, ops[0]) ==> !LosesBound(sys, ops[0]) && InTime(Step(sys, ops[0]), ops[1..])
  }

  // ---------------------------------------------------------------------------------------------
  // Invariants

  /** An active timer event is due at the channel's schedule, which is the marked start plus the cycles the
      marked value left to the overflow. */
  ghost predicate TimerOk(s: Sched, w: World, ch: nat)
    requires Valid(s) && ValidWorld(w) && ch < CHANNELS
  {
    var c := w.channels[ch];
    s.active[TIMER_0 + ch] ==> s.due[TIMER_0 + ch] == c.scheduled && Marked(c) && c.mark.anchor <= s.now
  }

  ghost predicate Marked(c: Channel) {
    && c.mark.start < TIME_OVERFLOW && c.mark.scale in {1, 64, 256, 1024}
    && c.scheduled == c.mark.anchor + (TIME_OVERFLOW - c.mark.start) * c.mark.scale
  }

  ghost predicate TimersOk(s: Sched, w: World)
    requires Valid(s) && ValidWorld(w)
  {
    forall ch: nat :: ch < CHANNELS ==> TimerOk(s, w, ch)
  }

  /** The periodic events are due within their periods. */
  ghost predicate Soon(s: Sched)
    requires Valid(s)
  {
    var last := Max(s.now, REBASE_ABOVE);
    && (s.active[APU_SAMPLE] ==> s.due[APU_SAMPLE] <= last + SAMPLE_CYCLES)
    && (s.active[SCANLINE_240] ==> s.due[SCANLINE_240] <= last + HDRAW_CYCLES)
    && (s.active[SCANLINE_308] ==> s.due[SCANLINE_308] <= last + HBLANK_CYCLES)
  }

  ghost predicate Inv(sys: Sys) {
    Fits(sys) && GridInv(sys) && TimersOk(sys.s, sys.w) && Soon(sys.s)
  }

  /** Between the steps of a run: the cached bound holds, nothing is due unless a check is owed, and the
      pending sample keeps the clock from running away. */
  ghost predicate RunInv(sys: Sys) {
    && Inv(sys) && Bound(sys.s)
    && sys.s.due[APU_SAMPLE] <= REBASE_ABOVE + SAMPLE_CYCLES
    && (!sys.owed ==> Drained(sys.s))
  }

  lemma BootInv()
    ensures RunInv(Boot())
  {}

  // ---------------------------------------------------------------------------------------------
  // Timers through a dispatch

  lemma {:induction false} PerformConcat(s: Sched, a: seq<Action>, b: seq<Action>)
    requires Valid(s)
    ensures Perform(s, a + b) == Perform(Perform(s, a), b)
    decreases |a|
  {
    if a == [] {
      assert a + b == b;
    } else {
      assert (a + b)[1..] == a[1..] + b;
      PerformConcat(PerformOne(s, a[0]), a[1..], b);
    }
  }

  /** Reloading channel `ch` from the due cycle puts it in order. */
  lemma ReloadKeeps(s: Sched, w: World, ch: nat, due: nat, value: nat, loaded: Channel)
    requires Valid(s) && ValidWorld(w) && ch < CHANNELS && due == s.current <= s.now <= CLOCK_LIMIT
    requires TimersOk(s, w) && value < TIME_OVERFLOW && loaded == w.channels[ch].(value := loaded.value) && loaded.value < TIME_OVERFLOW
    ensures ValidChannel(loaded) && 1 <= Remaining(loaded) <= U32_MAX
    ensures TimersOk(Perform(s, Again(TIMER_0 + ch, Remaining(loaded))),
                     w.(channels := w.channels[ch := Anchored(loaded, due).(value := value)]))
  {
    ReloadedKeeps(s, w, ch, loaded.value, value);
    AgainIs(s, Remaining(loaded), TIMER_0 + ch);
  }

  lemma AgainIs(s: Sched, cycles: nat, ev: nat)
    requires Valid(s) && 1 <= cycles && ev < EVENTS && s.current + cycles <= U32_MAX
    ensures Perform(s, Again(ev, cycles)) == SetEvent(s, ev, s.current + cycles)
  {
    PerformSingle(s, cycles, ev);
  }

  lemma ReloadedKeeps(s: Sched, w: World, ch: nat, reload: nat, value: nat)
    requires Valid(s) && ValidWorld(w) && ch < CHANNELS && s.current <= s.now <= CLOCK_LIMIT
    requires TimersOk(s, w) && value < TIME_OVERFLOW && reload < TIME_OVERFLOW
    ensures var loaded := w.channels[ch].(value := reload);
            var s1 := SetEvent(s, TIMER_0 + ch, s.current + Remaining(loaded));
            1 <= Remaining(loaded) && s.current + Remaining(loaded) <= U32_MAX && Valid(s1) &&
            TimersOk(s1, w.(channels := w.channels[ch := Anchored(loaded, s.current).(value := value)]))
  {
    var loaded := w.channels[ch].(value := reload);
    RemainingRange(loaded);
    var s1 := SetEvent(s, TIMER_0 + ch, s.current + Remaining(loaded));
    var w1 := w.(channels := w.channels[ch := Anchored(loaded, s.current).(value := value)]);
    forall i: nat | i < CHANNELS ensures TimerOk(s1, w1, i) {
      if i != ch { assert TimerOk(s, w, i); }
    }
  }

  /** A channel whose counter alone changes stays in order. */
  lemma IdleKeeps(s: Sched, w: World, ch: nat, value: nat)
    requires Valid(s) && ValidWorld(w) && ch < CHANNELS && TimersOk(s, w) && value < TIME_OVERFLOW
    ensures TimersOk(s, w.(channels := w.channels[ch := w.channels[ch].(value := value)]))
    ensures w.channels[ch].value == value ==> TimersOk(s, w)
  {
    var w1 := w.(channels := w.channels[ch := w.channels[ch].(value := value)]);
    forall i: nat | i < CHANNELS ensures TimerOk(s, w1, i) { assert TimerOk(s, w, i); }
  }

  lemma OverflowOneKeeps(s: Sched, w: World, ch: nat, due: nat)
    requires Valid(s) && ValidWorld(w) && ch < CHANNELS && due == s.current <= s.now <= CLOCK_LIMIT
    requires TimersOk(s, w)
    ensures TimersOk(Perform(s, OverflowOne(w, ch, due).1), OverflowOne(w, ch, due).0)
  {
    var c := w.channels[ch];
    var (w1, actions, overflow) := OverflowOne(w, ch, due);
    if !Started(c.cntH) {
      IdleKeeps(s, w, ch, c.value);
    } else if CountsUp(ch, c.cntH) {
      IdleKeeps(s, w, ch, w1.channels[ch].value);
    } else {
      ReloadKeeps(s, w, ch, due, w1.channels[ch].value, c.(value := c.cntL as nat));
    }
  }

  lemma {:induction false} OverflowKeeps(s: Sched, w: World, ch: nat, due: nat)
    requires Valid(s) && ValidWorld(w) && ch < CHANNELS && due == s.current <= s.now <= CLOCK_LIMIT
    requires TimersOk(s, w)
    ensures TimersOk(Perform(s, TimersOverflow(w, ch, due).1), TimersOverflow(w, ch, due).0)
    decreases CHANNELS - ch
  {
    var (w1, actions, overflow) := OverflowOne(w, ch, due);
    OverflowOneKeeps(s, w, ch, due);
    if overflow {
      OverflowKeeps(Perform(s, actions), w1, ch + 1, due);
      PerformConcat(s, actions, TimersOverflow(w1, ch + 1, due).1);
    }
  }

  lemma {:induction false} PerformSparesTimers(s: Sched, w: World, actions: seq<Action>)
    requires Valid(s) && ValidWorld(w) && TimersOk(s, w)
    requires forall a :: a in actions ==> a.FromDue? && !(TIMER_0 <= a.ev < TIMER_0 + CHANNELS)
    ensures TimersOk(Perform(s, actions), w)
  {
    forall ch: nat | ch < CHANNELS ensures TimerOk(Perform(s, actions), w, ch) {
      assert TimerOk(s, w, ch);
      PerformSpares(s, actions, TIMER_0 + ch);
    }
  }

  lemma TakenKeeps(s: Sched, w: World, b: nat)
    requires Valid(s) && ValidWorld(w) && TimersOk(s, w) && b < EVENTS
    ensures TimersOk(Take(s, b), w)
  {
    forall i: nat | i < CHANNELS ensures TimerOk(Take(s, b), w, i) { assert TimerOk(s, w, i); }
  }

  lemma VideoKeepsTimers(s: Sched, w: World, v: World)
    requires Valid(s) && ValidWorld(w) && TimersOk(s, w) && v.channels == w.channels
    ensures ValidWorld(v) && TimersOk(s, v)
  {
    forall i: nat | i < CHANNELS ensures TimerOk(s, v, i) { assert TimerOk(s, w, i); }
  }

  lemma TimerDispatchKeepsTimers(sys: Sys, b: nat)
    requires Fits(sys) && TimersOk(sys.s, sys.w) && b == Best(sys.s, EVENTS) && TIMER_0 <= b < TIMER_0 + CHANNELS
    requires Formed(AfterDispatch(sys))
    ensures TimersOk(AfterDispatch(sys).s, AfterDispatch(sys).w)
  {
    TakenKeeps(sys.s, sys.w, b);
    OverflowKeeps(Take(sys.s, b), sys.w, b - TIMER_0, sys.s.due[b]);
  }

  lemma OtherDispatchKeepsTimers(sys: Sys, b: nat)
    requires Fits(sys) && TimersOk(sys.s, sys.w) && b == Best(sys.s, EVENTS) != NONE
    requires !(TIMER_0 <= b < TIMER_0 + CHANNELS) && Formed(AfterDispatch(sys))
    ensures TimersOk(AfterDispatch(sys).s, AfterDispatch(sys).w)
  {
    var s := Take(sys.s, b);
    var (w, actions) := OnEvent(sys.w, b, sys.s.now, sys.s.due[b]);
    TakenKeeps(sys.s, sys.w, b);
    VideoKeepsTimers(s, sys.w, w);
    PerformSparesTimers(s, w, actions);
  }

  lemma DispatchKeepsTimers(sys: Sys)
    requires Fits(sys) && TimersOk(sys.s, sys.w) && Best(sys.s, EVENTS) != NONE
    ensures Fits(AfterDispatch(sys)) && TimersOk(AfterDispatch(sys).s, AfterDispatch(sys).w)
  {
    var b := Best(sys.s, EVENTS);
    DispatchKeepsFormed(sys);
    if TIMER_0 <= b < TIMER_0 + CHANNELS {
      TimerDispatchKeepsTimers(sys, b);
    } else {
      OtherDispatchKeepsTimers(sys, b);
    }
  }

  /** A dispatched event is not behind the clock, so what follows it from its due cycle comes within a period. */
  lemma DispatchKeepsSoon(sys: Sys)
    requires Fits(sys) && GridInv(sys) && Soon(sys.s) && Best(sys.s, EVENTS) != NONE
    ensures Valid(AfterDispatch(sys).s) && Soon(AfterDispatch(sys).s)
  {
    var b := Best(sys.s, EVENTS);
    DispatchKeepsFormed(sys);
    if IsPeriodic(b) {
      PeriodicDispatch(sys, b, Wait(b), Successor(b));
      SuccessorIsSoon(sys.s, b, AfterDispatch(sys).s);
    } else {
      TimerDispatchSpares(sys, b);
      SparedIsSoon(sys.s, AfterDispatch(sys).s);
    }
  }

  lemma SparedIsSoon(s: Sched, t: Sched)
    requires Valid(s) && Soon(s) && Valid(t) && t.now == s.now
    requires forall i: nat :: i < EVENTS && IsPeriodic(i) ==> t.active[i] == s.active[i] && t.due[i] == s.due[i]
    ensures Soon(t)
  {}

  lemma SuccessorIsSoon(s: Sched, b: nat, t: Sched)
    requires Valid(s) && Soon(s) && IsPeriodic(b) && IsDue(s, b)
    requires t == SetEvent(Take(s, b), Successor(b), Min(s.due[b] + Wait(b), U32_MAX))
    ensures Valid(t) && Soon(t)
  {}

  lemma DispatchKeeps(sys: Sys)
    requires Inv(sys) && Best(sys.s, EVENTS) != NONE
    ensures Inv(AfterDispatch(sys))
  {
    DispatchKeepsTimers(sys);
    DispatchKeepsSoon(sys);
    var b := Best(sys.s, EVENTS);
    if IsPeriodic(b) {
      DispatchPeriodicKeeps(sys);
    } else {
      DispatchTimerKeepsGrid(sys);
    }
  }

  // ---------------------------------------------------------------------------------------------
  // A whole check

  lemma {:induction false} BatchKeeps(sys: Sys)
    requires Inv(sys)
    ensures Inv(AfterBatch(sys, EmuClient()))
    decreases Rank(sys.s)
  {
    if Best(sys.s, EVENTS) == NONE {
      assert sys.log + Absolute([], sys.base) == sys.log;
    } else {
      DispatchKeeps(sys);
      AfterBatchStep(sys, EmuClient());
      BatchKeeps(AfterDispatch(sys));
    }
  }

  lemma RebaseKeeps(sys: Sys)
    requires Inv(sys) && NoneBehind(sys.s) && sys.s.now > REBASE_ABOVE
    ensures Inv(sys.(s := Rebase(sys.s), w := OnRebase(sys.w, sys.s.now), base := sys.base + sys.s.now))
  {
    var t := sys.(s := Rebase(sys.s), w := OnRebase(sys.w, sys.s.now), base := sys.base + sys.s.now);
    forall ch: nat | ch < CHANNELS ensures TimerOk(t.s, t.w, ch) { assert TimerOk(sys.s, sys.w, ch); }
  }

  /** Neither the immediate word nor the cached bound matters to the grid or the timers. */
  lemma CacheIsFree(sys: Sys, imm: Word, next: nat)
    requires Inv(sys) && next <= U32_MAX && (forall i :: IMM_EVENTS <= i < WORD ==> !imm[i])
    ensures Inv(sys.(s := sys.s.(imm := imm, next := next)))
  {
    var t := sys.(s := sys.s.(imm := imm, next := next));
    forall ch: nat | ch < CHANNELS ensures TimerOk(t.s, t.w, ch) { assert TimerOk(sys.s, sys.w, ch); }
  }

  lemma FullCheckKeeps(sys: Sys)
    requires Inv(sys)
    ensures Inv(AfterFullCheck(sys, EmuClient()))
  {
    CacheIsFree(sys, sys.s.imm, U32_MAX);
    BatchKeeps(sys.(s := sys.s.(imm := sys.s.imm, next := U32_MAX)));
    var d, e := FullCheckShape(sys, EmuClient());
    CacheIsFree(d, d.s.imm, LeastDue(d.s, EVENTS, d.s.next));
    if e.s.now > REBASE_ABOVE { RebaseKeeps(e); }
  }

  lemma CheckKeepsInv(sys: Sys)
    requires Inv(sys)
    ensures Inv(Step(sys, Check))
    ensures !CheckEvents(sys.s, sys.w, EmuClient()).fired ==> Step(sys, Check).s == sys.s.(imm := NoBits())
  {
    var a := CheckIs(sys);
    CacheIsFree(sys, NoBits(), sys.s.next);
    FullCheckKeeps(a);
    SettledKeeps(if a.s.now < a.s.next then a else AfterFullCheck(a, EmuClient()));
  }

  /** No invariant but the run's own looks at whether a check is owed. */
  lemma SettledKeeps(sys: Sys)
    requires Inv(sys)
    ensures Inv(sys.(owed := false))
  {
    var t := sys.(owed := false);
    assert OnGrid(t.log) && TimersOk(t.s, t.w);
  }

  /** What a check does with the bound, from the state before it. */
  lemma LosesIff(sys: Sys)
    requires Inv(sys)
    ensures Loses(sys.s, sys.w, EmuClient()) <==> LosesBound(sys, Check)
  {
    CheckKeepsInv(sys);
    assert AnyActive(Step(sys, Check).s) by { assert Step(sys, Check).s.active[APU_SAMPLE]; }
    CheckCaughtIff(sys.s, sys.w);
  }

  lemma CheckCaughtIff(s: Sched, w: World)
    requires Valid(s) && ValidWorld(w) && OneLine(s)
    ensures var r := CheckEvents(s, w, EmuClient());
            r.rebased && Caught(r.log, s.now) <==> s.now > REBASE_ABOVE && s.next <= s.now && SomeLate(s, w)
  {
    var a := s.(imm := NoBits());
    QuietImmEvents(a, w, s.imm, 0);
    if a.next <= a.now {
      var t, w1, log := FullCheckIs(a, w, EmuClient());
      var b := a.(next := U32_MAX);
      CaughtIff(b, w);
      SameLate(s, b, w);
    }
  }

  /** Lateness looks at the clock, the due cycles and the active bits. */
  lemma SameLate(s: Sched, b: Sched, w: World)
    requires Valid(s) && Valid(b) && ValidWorld(w) && s.now == b.now && s.due == b.due && s.active == b.active
    ensures SomeLate(b, w) <==> SomeLate(s, w)
  {
    forall i: nat ensures LateAt(b, w, i) <==> LateAt(s, w, i) {}
  }

  /** The scheduler's own condition decides the whole invariant: a check keeps it if and only if it does not rebase
      the clock in a batch that catches up. */
  lemma CheckKeepsIff(sys: Sys)
    requires RunInv(sys)
    ensures Formed(sys) && Allowed(sys, Check) && (RunInv(Step(sys, Check)) <==> !LosesBound(sys, Check))
  {
    var t := Step(sys, Check);
    CheckKeepsInv(sys);
    LosesIff(sys);
    CheckKeepsBoundIff(sys.s, sys.w, EmuClient());
    CheckOverdueIff(sys.s, sys.w, EmuClient());
    CheckClock(sys.s, sys.w, EmuClient());
    assert Soon(t.s);
  }

  // ---------------------------------------------------------------------------------------------
  // Every step

  /** A channel just scheduled from the clock is in order, and no other channel is touched. */
  lemma ScheduledKeeps(s: Sched, w: World, ch: nat, c: Channel)
    requires Valid(s) && ValidWorld(w) && TimersOk(s, w) && ch < CHANNELS && ValidChannel(c) && s.now <= CLOCK_LIMIT
    ensures Remaining(c) <= U32_MAX
    ensures TimersOk(Schedule(s, Remaining(c), TIMER_0 + ch), w.(channels := w.channels[ch := Anchored(c, s.now)]))
  {
    RemainingRange(c);
    var t, v := Schedule(s, Remaining(c), TIMER_0 + ch), w.(channels := w.channels[ch := Anchored(c, s.now)]);
    forall i: nat | i < CHANNELS ensures TimerOk(t, v, i) {
      if i != ch { assert TimerOk(s, w, i); }
    }
  }

  /** A channel whose schedule and mark are left alone stays in order, whatever its control bits become. */
  lemma UnscheduledKeeps(s: Sched, w: World, ch: nat, c: Channel)
    requires Valid(s) && ValidWorld(w) && TimersOk(s, w) && ch < CHANNELS && ValidChannel(c)
    requires c.scheduled == w.channels[ch].scheduled && c.mark == w.channels[ch].mark
    ensures TimersOk(s, w.(channels := w.channels[ch := c]))
  {
    var v := w.(channels := w.channels[ch := c]);
    forall i: nat | i < CHANNELS ensures TimerOk(s, v, i) { assert TimerOk(s, w, i); }
  }

  lemma WriteTimerKeepsTimers(sys: Sys, ch: nat, mask: bv16, value: bv16)
    requires Fits(sys) && TimersOk(sys.s, sys.w) && ch < CHANNELS
    ensures Fits(SetTimer(sys, ch, mask, value))
    ensures TimersOk(SetTimer(sys, ch, mask, value).s, SetTimer(sys, ch, mask, value).w)
  {
    var c1 := WriteControl(ch, sys.w.channels[ch], mask, value);
    ControlIsValid(ch, sys.w.channels[ch], mask, value);
    TimerSpares(sys, ch, mask, value);
    RemainingRange(c1);
    if NeedsSchedule(ch, sys.w.channels[ch], c1) {
      ScheduledKeeps(sys.s, sys.w, ch, c1);
    } else {
      UnscheduledKeeps(sys.s, sys.w, ch, c1);
    }
  }

  lemma WriteTimerKeepsSoon(sys: Sys, ch: nat, mask: bv16, value: bv16)
    requires Fits(sys) && Soon(sys.s) && ch < CHANNELS && Fits(SetTimer(sys, ch, mask, value))
    ensures Soon(SetTimer(sys, ch, mask, value).s)
  {}

  /** A timer scheduled from the clock is not due yet, and lowers the cached bound as it must. */
  lemma WriteTimerKeepsBound(sys: Sys, ch: nat, mask: bv16, value: bv16)
    requires Fits(sys) && Bound(sys.s) && ch < CHANNELS
    ensures Bound(SetTimer(sys, ch, mask, value).s)
    ensures Drained(sys.s) ==> Drained(SetTimer(sys, ch, mask, value).s)
    ensures SetTimer(sys, ch, mask, value).s.due[APU_SAMPLE] == sys.s.due[APU_SAMPLE]
  {
    var c1 := WriteControl(ch, sys.w.channels[ch], mask, value);
    ControlIsValid(ch, sys.w.channels[ch], mask, value);
    RemainingRange(c1);
    ScheduleKeepsBound(sys.s, Remaining(c1), TIMER_0 + ch);
  }

  lemma ScheduleKeepsBound(s: Sched, cycles: nat, ev: nat)
    requires Valid(s) && Bound(s) && ev < EVENTS && cycles <= U32_MAX && s.now < U32_MAX
    ensures Bound(Schedule(s, cycles, ev)) && (Drained(s) ==> Drained(Schedule(s, cycles, ev)))
  {
    var t := Schedule(s, cycles, ev);
    forall i: nat | !IsDue(s, i) ensures !IsDue(t, i) {}
  }

  lemma ChannelWriteKeeps(sys: Sys, ch: nat, c: Channel)
    requires Inv(sys) && ch < CHANNELS && c.value < TIME_OVERFLOW
    requires c == sys.w.channels[ch].(value := c.value, cntL := c.cntL)
    ensures Inv(sys.(w := sys.w.(channels := sys.w.channels[ch := c])))
  {
    var t := sys.(w := sys.w.(channels := sys.w.channels[ch := c]));
    forall i: nat | i < CHANNELS ensures TimerOk(t.s, t.w, i) { assert TimerOk(sys.s, sys.w, i); }
  }

  lemma ClockKeeps(sys: Sys, now: nat)
    requires Inv(sys) && sys.s.now <= now <= CLOCK_LIMIT
    ensures Inv(sys.(s := sys.s.(now := now)))
  {
    var t := sys.(s := sys.s.(now := now));
    forall i: nat | i < CHANNELS ensures TimerOk(t.s, t.w, i) { assert TimerOk(sys.s, sys.w, i); }
  }

  /** A guest write to DISPSTAT cannot reach the flags. */
  lemma DispStatKeeps(sys: Sys, mask: bv16, value: bv16)
    requires Inv(sys)
    ensures Inv(Step(sys, WriteDispStat(mask, value)))
  {
    var m := mask & 0xFFB8;
    var t := Step(sys, WriteDispStat(mask, value));
    MaskSparesVblank(sys.w.dispStat, mask, value);
    forall i: nat | i < CHANNELS ensures TimerOk(t.s, t.w, i) { assert TimerOk(sys.s, sys.w, i); }
  }

  /** The bound lies at or before the pending sample, and the clock before it unless a check is owed. */
  lemma ClockIsNear(sys: Sys)
    requires RunInv(sys)
    ensures sys.s.next <= sys.s.due[APU_SAMPLE] && (!sys.owed ==> sys.s.now < sys.s.due[APU_SAMPLE])
  {
    assert !sys.owed ==> !IsDue(sys.s, APU_SAMPLE);
  }

  lemma ClockStepKeeps(sys: Sys, op: Op)
    requires RunInv(sys) && Allowed(sys, op) && (op.RunSlice? || op.Halt?)
    ensures RunInv(Step(sys, op))
  {
    ClockIsNear(sys);
    ClockKeeps(sys, Step(sys, op).s.now);
  }

  lemma WriteStepKeeps(sys: Sys, op: Op)
    requires RunInv(sys) && Allowed(sys, op) && op.WriteTimer?
    ensures RunInv(Step(sys, op))
  {
    WriteTimerKeepsTimers(sys, op.ch, op.mask, op.value);
    WriteTimerKeepsGrid(sys, op.ch, op.mask, op.value);
    WriteTimerKeepsSoon(sys, op.ch, op.mask, op.value);
    WriteTimerKeepsBound(sys, op.ch, op.mask, op.value);
  }

  lemma RegisterStepKeeps(sys: Sys, op: Op)
    requires RunInv(sys) && Allowed(sys, op) && (op.WriteReload? || op.ReadTimer? || op.WriteDispStat?)
    ensures RunInv(Step(sys, op))
  {
    if op.WriteDispStat? {
      DispStatKeeps(sys, op.mask, op.value);
    } else {
      ChannelWriteKeeps(sys, op.ch, Step(sys, op).w.channels[op.ch]);
    }
  }

  lemma StepKeeps(sys: Sys, op: Op)
    requires RunInv(sys) && Allowed(sys, op) && !LosesBound(sys, op)
    ensures RunInv(Step(sys, op))
  {
    if op.Check? {
      CheckKeepsIff(sys);
    } else if op.RunSlice? || op.Halt? {
      ClockStepKeeps(sys, op);
    } else if op.WriteTimer? {
      WriteStepKeeps(sys, op);
    } else {
      RegisterStepKeeps(sys, op);
    }
  }

  lemma {:induction false} RunKeeps(sys: Sys, ops: seq<Op>, last: Sys)
    requires RunInv(sys) && IsRun(sys, ops, last) && InTime(sys, ops)
    ensures RunInv(last)
    decreases ops
  {
    if ops != [] {
      StepKeeps(sys, ops[0]);
      RunKeeps(Step(sys, ops[0]), ops[1..], last);
    }
  }

  // ---------------------------------------------------------------------------------------------
  // What holds over every run

  ghost predicate RunTo(ops: seq<Op>, sys: Sys) { IsRun(Boot(), ops, sys) && InTime(Boot(), ops) }

  /** The end of a run from power-on in which no check lost the bound. */
  ghost predicate Reachable(sys: Sys) {
    exists ops: seq<Op> :: RunTo(ops, sys)
  }

  lemma ReachableInv(sys: Sys)
    requires Reachable(sys)
    ensures RunInv(sys)
  {
    var ops: seq<Op> :| RunTo(ops, sys);
    BootInv();
    RunKeeps(Boot(), ops, sys);
  }

  lemma {:induction false} InTimeAppend(sys: Sys, ops: seq<Op>, mid: Sys, op: Op)
    requires IsRun(sys, ops, mid) && Formed(mid) && Allowed(mid, op) && InTime(sys, ops) && !LosesBound(mid, op)
    ensures InTime(sys, ops + [op])
    decreases ops
  {
    if ops == [] {
      assert [op][1..] == [];
    } else {
      assert (ops + [op])[1..] == ops[1..] + [op];
      InTimeAppend(Step(sys, ops[0]), ops[1..], mid, op);
    }
  }

  /** One more step of a run. */
  lemma ReachOn(sys: Sys, op: Op)
    requires Reachable(sys) && Formed(sys) && Allowed(sys, op) && !LosesBound(sys, op)
    ensures Reachable(Step(sys, op))
  {
    var ops: seq<Op> :| RunTo(ops, sys);
    RunAppend(Boot(), ops, sys, op);
    InTimeAppend(Boot(), ops, sys, op);
    assert RunTo(ops + [op], Step(sys, op));
  }

  /** The clock stays near 2^31: no slice wraps it, and no check comes at its last cycle. */
  lemma ClockStays(sys: Sys)
    requires Reachable(sys)
    ensures Formed(sys) && sys.s.now <= CLOCK_LIMIT < U32_MAX
    ensures !sys.owed ==> sys.s.now < REBASE_ABOVE + SAMPLE_CYCLES
    ensures !sys.owed ==> forall cycles: nat :: cycles < SLICE ==> !Wraps(sys, RunSlice(cycles))
  {
    ReachableInv(sys);
    ClockIsNear(sys);
  }

  /** So far below the top every next grid cycle fits. */
  lemma LowFits(s: Sched)
    requires Valid(s) && s.now <= CLOCK_LIMIT
    ensures GridFits(s)
  {}

  lemma {:induction false} InTimeIsOnTime(sys: Sys, ops: seq<Op>, last: Sys)
    requires RunInv(sys) && IsRun(sys, ops, last) && InTime(sys, ops)
    ensures OnTime(sys, ops)
    decreases ops
  {
    if ops != [] {
      LowFits(sys.s);
      ClockIsNear(sys);
      StepKeeps(sys, ops[0]);
      InTimeIsOnTime(Step(sys, ops[0]), ops[1..], last);
    }
  }

  /** As long as no check loses the bound, no check overruns: the grid of samples and scanlines holds. */
  lemma InTimeKeepsGrid(sys: Sys)
    requires Reachable(sys)
    ensures GridReachable(sys) && GridInv(sys)
  {
    var ops: seq<Op> :| RunTo(ops, sys);
    BootInv();
    InTimeIsOnTime(Boot(), ops, sys);
    assert OnTimeTo(ops, sys);
    GridHolds(sys);
  }

  lemma BootReachable()
    ensures Reachable(Boot()) && Formed(Boot())
  {
    assert RunTo([], Boot());
  }

  /** A register write of a run. */
  lemma Write(sys: Sys, op: Op) returns (after: Sys)
    requires Reachable(sys) && Formed(sys) && Allowed(sys, op) && !op.Check?
    ensures after == Step(sys, op) && Reachable(after) && Formed(after)
  {
    after := Step(sys, op);
    ReachOn(sys, op);
    ReachableInv(after);
  }
}
