/**
 When a running timer keeps its overflow event.

 `StallsIff`: a step takes the pending event away from a running channel exactly if it is a control write that
 leaves count-up mode without a change of prescaler while no event of the channel is pending: the write that starts
 a channel in count-up mode schedules nothing, and the one that leaves it only schedules on a change. `RunStallsIff`
 says so for whole runs, `RunningReadsIff` what every running channel of a run without such a write reads, and
 `TimerCanStall` is a run with one.
 */
module TimerStalls {
  import opened CatchUp
  import opened Clients
  import opened EmuSystem
  import opened MainLoop
  import opened Scheduler
  import opened TimerReads

  /** If the channel is running its overflow is pending. */
  predicate Alive(sys: Sys, ch: nat)
    requires Formed(sys) && ch < CHANNELS
  {
    Running(ch, sys.w.channels[ch]) ==> sys.s.active[TIMER_0 + ch]
  }

  /** A control write that takes a started channel out of count-up mode under an unchanged prescaler, with no event
      of it pending. */
  predicate Stalls(sys: Sys, op: Op, ch: nat)
    requires Formed(sys) && ch < CHANNELS
  {
    && op.WriteTimer? && op.ch == ch && !sys.s.active[TIMER_0 + ch]
    && var c := sys.w.channels[ch];
    && var c1 := WriteControl(ch, c, op.mask, op.value);
    && Started(c.cntH) && CountsUp(ch, c.cntH) && Running(ch, c1) && c1.shift == c.shift
  }

  // ---------------------------------------------------------------------------------------------
  // Through a check

  /** An event is active after a handler's requests if it was before or one of them names it. */
  lemma {:induction false} PerformActive(s: Sched, actions: seq<Action>, i: nat)
    requires Valid(s) && i < EVENTS && forall a :: a in actions ==> a.FromDue?
    ensures Perform(s, actions).active[i] <==> s.active[i] || Names(actions, i)
    decreases |actions|
  {
    if actions != [] {
      var first, rest := actions[0], actions[1..];
      PerformActive(PerformOne(s, first), rest, i);
      assert forall a :: a in actions <==> a == first || a in rest;
    }
  }

  /** The overflow of a running channel asks for its next one. */
  lemma OverflowNamesOwn(w: World, ch: nat, due: nat)
    requires ValidWorld(w) && ch < CHANNELS && Running(ch, w.channels[ch])
    ensures Names(TimersOverflow(w, ch, due).1, TIMER_0 + ch)
  {
    var c := w.channels[ch];
    var own := Rescheduled(ch, c.cntL, c.cntH, c.shift);
    ReloadRange(c.cntL as nat, c.shift);
    assert own[0] in own && own[0] in TimersOverflow(w, ch, due).1;
  }

  lemma ReloadRange(reload: nat, shift: nat)
    requires reload < TIME_OVERFLOW
    ensures 1 <= (TIME_OVERFLOW - reload) * Scale(shift) <= U32_MAX
  {}

  lemma DispatchKeepsAlive(sys: Sys, ch: nat)
    requires Formed(sys) && ch < CHANNELS && Alive(sys, ch) && Best(sys.s, EVENTS) != NONE
    ensures Formed(AfterDispatch(sys)) && Alive(AfterDispatch(sys), ch)
  {
    var b := Best(sys.s, EVENTS);
    DispatchKeepsFormed(sys);
    RequestsFixed(sys.w, sys.w, b, sys.s.now, sys.s.due[b], sys.s.due[b]);
    assert SameChannel(AfterDispatch(sys).w.channels[ch], sys.w.channels[ch]);
    PerformActive(Take(sys.s, b), Requests(sys.w, b, sys.s.now, sys.s.due[b]), TIMER_0 + ch);
    if b == TIMER_0 + ch && Running(ch, sys.w.channels[ch]) { OverflowNamesOwn(sys.w, ch, sys.s.due[b]); }
  }

  lemma {:induction false} BatchKeepsAlive(sys: Sys, ch: nat)
    requires Formed(sys) && ch < CHANNELS && Alive(sys, ch)
    ensures Formed(AfterBatch(sys, EmuClient())) && Alive(AfterBatch(sys, EmuClient()), ch)
    decreases Rank(sys.s)
  {
    if Best(sys.s, EVENTS) == NONE {
      NothingDue(sys);
    } else {
      DispatchKeepsAlive(sys, ch);
      AfterBatchStep(sys, EmuClient());
      BatchKeepsAlive(AfterDispatch(sys), ch);
    }
  }

  lemma RebaseKeepsAlive(sys: Sys, ch: nat)
    requires Formed(sys) && NoneBehind(sys.s) && ch < CHANNELS && Alive(sys, ch)
    ensures var t := sys.(s := Rebase(sys.s), w := OnRebase(sys.w, sys.s.now), base := sys.base + sys.s.now);
            Formed(t) && Alive(t, ch)
  {}

  lemma CheckKeepsAlive(sys: Sys, ch: nat)
    requires Formed(sys) && ch < CHANNELS && Alive(sys, ch)
    ensures Formed(Step(sys, Check)) && Alive(Step(sys, Check), ch)
  {
    var a := CheckIs(sys);
    BatchKeepsAlive(a.(s := a.s.(imm := a.s.imm, next := U32_MAX)), ch);
    var d, e := FullCheckShape(a, EmuClient());
    RebaseKeepsAlive(e, ch);
  }

  // ---------------------------------------------------------------------------------------------
  // Every step, every run

  /** A control write schedules exactly its own channel, if it needs to. */
  lemma WriteActive(sys: Sys, op: Op, ch: nat)
    requires Formed(sys) && Allowed(sys, op) && ch < CHANNELS && op.WriteTimer?
    ensures var c := sys.w.channels[op.ch];
            var c1 := WriteControl(op.ch, c, op.mask, op.value);
            var t := Step(sys, op);
            && Formed(t) && (t.s.active[TIMER_0 + ch] <==> sys.s.active[TIMER_0 + ch] || (op.ch == ch && NeedsSchedule(ch, c, c1)))
            && (if op.ch == ch then t.w.channels[ch].cntH == c1.cntH else t.w.channels[ch] == sys.w.channels[ch])
  {
    var c := sys.w.channels[op.ch];
    ControlIsValid(op.ch, c, op.mask, op.value);
    RemainingRange(WriteControl(op.ch, c, op.mask, op.value));
  }

  lemma WriteStallsIff(sys: Sys, op: Op, ch: nat)
    requires Formed(sys) && Allowed(sys, op) && ch < CHANNELS && Alive(sys, ch) && op.WriteTimer?
    ensures Formed(Step(sys, op)) && (Alive(Step(sys, op), ch) <==> !Stalls(sys, op, ch))
  {
    WriteActive(sys, op, ch);
  }

  /** A step takes the pending event away from a running channel if and only if it is such a write. */
  lemma StallsIff(sys: Sys, op: Op, ch: nat)
    requires Formed(sys) && Allowed(sys, op) && ch < CHANNELS && Alive(sys, ch)
    ensures Formed(Step(sys, op)) && (Alive(Step(sys, op), ch) <==> !Stalls(sys, op, ch))
  {
    if op.Check? {
      CheckKeepsAlive(sys, ch);
    } else if op.WriteTimer? {
      WriteStallsIff(sys, op, ch);
    }
  }

  ghost predicate NeverStalls(sys: Sys, ops: seq<Op>, ch: nat)
    requires ch < CHANNELS
    decreases ops
  {
    ops != [] && Formed(sys) && Allowed(sys, ops[0]) ==>
      !Stalls(sys, ops[0], ch) && NeverStalls(Step(sys, ops[0]), ops[1..], ch)
  }

  /** In every state of a run. */
  ghost predicate AliveAlong(sys: Sys, ops: seq<Op>, ch: nat)
    requires ch < CHANNELS
    decreases ops
  {
    && Formed(sys) && Alive(sys, ch)
    && (ops != [] && Allowed(sys, ops[0]) ==> AliveAlong(Step(sys, ops[0]), ops[1..], ch))
  }

  lemma {:induction false} StallsAlongIff(sys: Sys, ops: seq<Op>, last: Sys, ch: nat)
    requires Formed(sys) && ch < CHANNELS && Alive(sys, ch) && IsRun(sys, ops, last)
    ensures AliveAlong(sys, ops, ch) <==> NeverStalls(sys, ops, ch)
    ensures NeverStalls(sys, ops, ch) ==> Formed(last) && Alive(last, ch)
    decreases ops
  {
    if ops != [] {
      StallsIff(sys, ops[0], ch);
      if !Stalls(sys, ops[0], ch) { StallsAlongIff(Step(sys, ops[0]), ops[1..], last, ch); }
    }
  }

  /** From power-on a channel has its overflow pending whenever it is running, throughout a run, if and only if no
      write of the run stalls it. */
  lemma RunStallsIff(ops: seq<Op>, last: Sys, ch: nat)
    requires IsRun(Boot(), ops, last) && ch < CHANNELS
    ensures AliveAlong(Boot(), ops, ch) <==> NeverStalls(Boot(), ops, ch)
    ensures NeverStalls(Boot(), ops, ch) ==> Formed(last) && Alive(last, ch)
  {
    StallsAlongIff(Boot(), ops, last, ch);
  }

  /** What every running channel reads, up to its schedule, after a run in time whose writes do not stall it. */
  lemma RunningReadsIff(ops: seq<Op>, sys: Sys, ch: nat)
    requires RunTo(ops, sys) && ch < CHANNELS && NeverStalls(Boot(), ops, ch)
    requires Formed(sys) && Running(ch, sys.w.channels[ch]) && sys.s.now <= sys.w.channels[ch].scheduled
    ensures var c := sys.w.channels[ch];
            && sys.s.active[TIMER_0 + ch] && sys.s.due[TIMER_0 + ch] == c.scheduled
            && c.mark.scale > 0 && c.mark.anchor <= sys.s.now
            && var left := c.scheduled - sys.s.now;
            (ReadValue(ch, c, sys.s.now) == Elapsed(c.mark.start, sys.s.now - c.mark.anchor, c.mark.scale) <==>
              left / Scale(c.shift) % TIME_OVERFLOW == left / c.mark.scale % TIME_OVERFLOW)
  {
    RunStallsIff(ops, sys, ch);
    TimerDueIsScheduled(sys, ch);
    TimerReadsIff(sys, ch);
  }

  /** Starting a channel in count-up mode and leaving it under prescaler 0: the second write stalls the channel, which
      then counts as running and never overflows. */
  lemma TimerCanStall() returns (sys: Sys, stalled: Sys)
    ensures Reachable(sys) && Formed(sys) && Alive(sys, 1) && Stalls(sys, WriteTimer(1, 0xFFFF, 0x80), 1)
    ensures Reachable(stalled) && Formed(stalled) && stalled == Step(sys, WriteTimer(1, 0xFFFF, 0x80))
    ensures Running(1, stalled.w.channels[1]) && !stalled.s.active[TIMER_0 + 1]
  {
    BootReachable();
    sys := Write(Boot(), WriteTimer(1, 0xFFFF, 0x84));
    stalled := Write(sys, WriteTimer(1, 0xFFFF, 0x80));
  }
}
