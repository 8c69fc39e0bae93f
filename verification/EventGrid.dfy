/**
 The periodic events of the emulator, for every run and every choice of slice lengths.

 - `SampleGrid`, `ScanlineGrid`, `VblankPeriod`: each periodic event falls on an exact grid of absolute cycles,
   however late it is dispatched and however often the clock is rebased;
 - `VblankFlag`, `HblankFlag`: the flags are set exactly on lines 160 to 226 and in every line's last 272 cycles, as the
   events are dispatched, whatever the guest writes to DISPSTAT; `CounterMatch` is the third flag.

 What takes the grid away is the top of the 32-bit clock, where a reschedule from the due cycle saturates and a slice
 wraps, and nothing else: `StepKeepsGridIff` and `RunKeepsGridIff` are exact, over all runs, in terms of the state
 before the step. Module MainLoop shows that a run stays away from it until a check loses the scheduler's bound.
 */
module EventGrid {
  import opened Arithmetic
  import opened Clients
  import opened EmuSystem
  import opened Scheduler

  // ---------------------------------------------------------------------------------------------
  // The grid

  /** How often event `index` has been dispatched. */
  function Count(log: seq<Fired>, index: nat): nat {
    if log == [] then 0
    else Count(log[..|log| - 1], index) + if log[|log| - 1].index == index then 1 else 0
  }

  lemma CountAppend(log: seq<Fired>, f: Fired, index: nat)
    ensures Count(log + [f], index) == Count(log, index) + if f.index == index then 1 else 0
  {
    assert (log + [f])[..|log|] == log;
  }

  /** The absolute cycle of the (n+1)-st dispatch of a periodic event. */
  function GridCycle(index: nat, n: nat): nat {
    if index == APU_SAMPLE then SAMPLE_CYCLES * (n + 1)
    else if index == SCANLINE_240 then LINE_CYCLES * n + HDRAW_CYCLES
    else LINE_CYCLES * (n + 1)
  }

  ghost predicate OnGrid(log: seq<Fired>) {
    forall m :: 0 <= m < |log| && IsPeriodic(log[m].index) ==>
      log[m].at == GridCycle(log[m].index, Count(log[..m], log[m].index))
  }

  /** Event `index` is pending, at its next grid cycle. */
  predicate Pending(sys: Sys, index: nat)
    requires Valid(sys.s) && index < EVENTS
  {
    sys.s.active[index] && sys.base + sys.s.due[index] == GridCycle(index, Count(sys.log, index))
  }

  predicate VblankOnLine(stat: bv16, line: nat) {
    stat & 1 != 0 <==> VISIBLE_LINES <= line <= 226
  }

  /** The log so far and the next occurrence of every periodic event are on the grid; exactly one of
      the two scanline events is pending. */
  ghost predicate Periodics(sys: Sys)
    requires Valid(sys.s)
  {
    var n240, n308 := Count(sys.log, SCANLINE_240), Count(sys.log, SCANLINE_308);
    && OnGrid(sys.log)
    && Pending(sys, APU_SAMPLE)
    && (if n240 == n308 then Pending(sys, SCANLINE_240) && !sys.s.active[SCANLINE_308]
        else n240 == n308 + 1 && Pending(sys, SCANLINE_308) && !sys.s.active[SCANLINE_240])
  }

  /** The line counter is the number of lines ended, the vblank flag goes with it, and the hblank flag is set between
      the two events of a line. */
  ghost predicate Lines(w: World, log: seq<Fired>) {
    && w.vCount == Count(log, SCANLINE_308) % TOTAL_LINES
    && VblankOnLine(w.dispStat, w.vCount)
    && (w.dispStat & 2 != 0 <==> Count(log, SCANLINE_240) > Count(log, SCANLINE_308))
  }

  ghost predicate GridInv(sys: Sys) {
    Formed(sys) && Periodics(sys) && Lines(sys.w, sys.log)
  }

  /** How long after a periodic event its successor comes, and which event that is. */
  function Wait(index: nat): nat {
    if index == SCANLINE_240 then HBLANK_CYCLES else if index == SCANLINE_308 then HDRAW_CYCLES else SAMPLE_CYCLES
  }

  function Successor(index: nat): nat {
    if index == SCANLINE_240 then SCANLINE_308 else if index == SCANLINE_308 then SCANLINE_240 else APU_SAMPLE
  }

  lemma PeriodicPending(sys: Sys, b: nat)
    requires Valid(sys.s) && Periodics(sys) && IsPeriodic(b) && sys.s.active[b]
    ensures Pending(sys, b) && (b != APU_SAMPLE ==> !sys.s.active[Successor(b)])
  {}

  // ---------------------------------------------------------------------------------------------
  // One dispatch

  lemma LogGrows(log: seq<Fired>, f: Fired)
    requires OnGrid(log) && (IsPeriodic(f.index) ==> f.at == GridCycle(f.index, Count(log, f.index)))
    ensures OnGrid(log + [f])
  {
    forall m | 0 <= m < |log + [f]| && IsPeriodic((log + [f])[m].index)
      ensures (log + [f])[m].at == GridCycle((log + [f])[m].index, Count((log + [f])[..m], (log + [f])[m].index))
    {
      if m < |log| { assert (log + [f])[..m] == log[..m]; } else { assert (log + [f])[..m] == log; }
    }
  }

  /** The other flags of DISPSTAT leave the vblank flag alone. */
  lemma FlagKeepsVblank(stat: bv16, bit: bv16, on: bool)
    requires bit == 2 || bit == 4
    ensures WithFlag(stat, bit, on) & 1 == stat & 1
  {}

  lemma SetVblank(stat: bv16)
    ensures WithFlag(stat, 1, true) & 1 == 1 && WithFlag(stat, 1, false) & 1 == 0 && (stat | 2) & 1 == stat & 1
  {}

  /** The end of a line, by its parts. */
  lemma Scanline308Is(w: World) returns (v: World, stat: bv16, matches: bool)
    ensures v == OnScanline308(w) && stat == AtLine(w.dispStat, w.vCount + 1) && v.dispStat == LineStart(stat, matches)
    ensures v.vCount == (if w.vCount == 227 then 0 else w.vCount + 1) && v.channels == w.channels
    ensures matches == (v.vCount == (stat >> 8) as nat)
  {
    v, stat := OnScanline308(w), AtLine(w.dispStat, w.vCount + 1);
    matches := v.vCount == (stat >> 8) as nat;
  }

  lemma VblankStep(w: World)
    requires VblankOnLine(w.dispStat, w.vCount) && w.vCount < TOTAL_LINES
    ensures VblankOnLine(OnScanline308(w).dispStat, OnScanline308(w).vCount)
    ensures VblankOnLine(OnScanline240(w).dispStat, w.vCount)
  {
    SetVblank(w.dispStat);
    var v, stat, matches := Scanline308Is(w);
    VblankLine(w.dispStat, w.vCount, stat);
    LineStartKeepsVblank(stat, v.vCount, matches, v.dispStat);
  }

  lemma VblankLine(stat: bv16, vCount: nat, stat1: bv16)
    requires VblankOnLine(stat, vCount) && vCount < TOTAL_LINES && stat1 == AtLine(stat, vCount + 1)
    ensures VblankOnLine(stat1, if vCount + 1 == TOTAL_LINES then 0 else vCount + 1)
  {
    SetVblank(stat);
  }

  lemma LineStartKeepsVblank(stat: bv16, line: nat, matches: bool, after: bv16)
    requires VblankOnLine(stat, line) && after == LineStart(stat, matches)
    ensures VblankOnLine(after, line)
  {
    FlagKeepsVblank(stat, 4, matches);
    FlagKeepsVblank(WithFlag(stat, 4, matches), 2, false);
  }

  lemma LogStep(sys: Sys, b: nat)
    requires OnGrid(sys.log) && Valid(sys.s) && b < EVENTS && Pending(sys, b)
    ensures var log := sys.log + [Fired(b, sys.base + sys.s.due[b])];
            && OnGrid(log)
            && forall i: nat :: i < EVENTS ==> Count(log, i) == Count(sys.log, i) + if b == i then 1 else 0
  {
    var f := Fired(b, sys.base + sys.s.due[b]);
    LogGrows(sys.log, f);
    forall i: nat | i < EVENTS ensures Count(sys.log + [f], i) == Count(sys.log, i) + if b == i then 1 else 0 {
      CountAppend(sys.log, f, i);
    }
  }

  lemma LineStep(w: World, n: nat)
    requires w.vCount == n % TOTAL_LINES
    ensures OnScanline308(w).vCount == (n + 1) % TOTAL_LINES && OnScanline308(w).channels == w.channels
  {}

  lemma SetHblank(stat: bv16, matches: bool)
    ensures (stat | 2) & 2 != 0 && LineStart(stat, matches) & 2 == 0
  {}

  /** The two events of a line set and clear the hblank flag. */
  lemma HblankStep(w: World)
    ensures OnScanline240(w).dispStat & 2 != 0 && OnScanline308(w).dispStat & 2 == 0
  {
    SetHblank(w.dispStat, true);
    var v, stat, matches := Scanline308Is(w);
    SetHblank(stat, matches);
  }

  lemma PeriodicDispatchKeepsLines(sys: Sys, b: nat)
    requires Formed(sys) && Periodics(sys) && Lines(sys.w, sys.log) && b < EVENTS && Pending(sys, b) && IsPeriodic(b)
    ensures Lines(OnEvent(sys.w, b, sys.s.now, sys.s.due[b]).0, sys.log + [Fired(b, sys.base + sys.s.due[b])])
    ensures OnEvent(sys.w, b, sys.s.now, sys.s.due[b]).0.channels == sys.w.channels
  {
    LogStep(sys, b);
    VblankStep(sys.w);
    HblankStep(sys.w);
    LineStep(sys.w, Count(sys.log, SCANLINE_308));
  }

  /** The pending events after a dispatch, given only what the handler asked of the scheduler. */
  lemma PeriodicDispatchKeepsGrid(sys: Sys, b: nat, cycles: nat, next: nat, t: Sys)
    requires Valid(sys.s) && Periodics(sys) && b < EVENTS && Pending(sys, b) && sys.s.due[b] + cycles <= U32_MAX
    requires (b, cycles, next) in {(SCANLINE_240, HBLANK_CYCLES, SCANLINE_308),
                                   (SCANLINE_308, HDRAW_CYCLES, SCANLINE_240),
                                   (APU_SAMPLE, SAMPLE_CYCLES, APU_SAMPLE)}
    requires t.s == SetEvent(Take(sys.s, b), next, sys.s.due[b] + cycles) && t.base == sys.base
    requires t.log == sys.log + [Fired(b, sys.base + sys.s.due[b])]
    ensures Valid(t.s) && Periodics(t)
  {
    LogStep(sys, b);
  }

  lemma DispatchPeriodicKeeps(sys: Sys)
    requires GridInv(sys) && Best(sys.s, EVENTS) != NONE && IsPeriodic(Best(sys.s, EVENTS))
    requires sys.s.due[Best(sys.s, EVENTS)] + Wait(Best(sys.s, EVENTS)) <= U32_MAX
    ensures GridInv(AfterDispatch(sys))
  {
    var b := Best(sys.s, EVENTS);
    PeriodicPending(sys, b);
    PeriodicDispatch(sys, b, Wait(b), Successor(b));
    PeriodicDispatchKeepsLines(sys, b);
    PeriodicDispatchKeepsGrid(sys, b, Wait(b), Successor(b), AfterDispatch(sys));
    DispatchKeepsFormed(sys);
  }

  /** A dispatch that leaves the three periodic events alone. */
  lemma OtherDispatchKeepsGrid(sys: Sys, t: Sys, f: Fired)
    requires Valid(sys.s) && Periodics(sys) && Valid(t.s) && t.base == sys.base && !IsPeriodic(f.index)
    requires t.log == sys.log + [f]
    requires forall i: nat :: i < EVENTS && IsPeriodic(i) ==>
               t.s.active[i] == sys.s.active[i] && t.s.due[i] == sys.s.due[i]
    ensures Periodics(t) && Count(t.log, SCANLINE_308) == Count(sys.log, SCANLINE_308)
    ensures Count(t.log, SCANLINE_240) == Count(sys.log, SCANLINE_240)
  {
    LogGrows(sys.log, f);
    CountAppend(sys.log, f, SCANLINE_240);
    CountAppend(sys.log, f, SCANLINE_308);
    CountAppend(sys.log, f, APU_SAMPLE);
  }

  lemma DispatchTimerKeepsGrid(sys: Sys)
    requires GridInv(sys) && TIMER_0 <= Best(sys.s, EVENTS) < TIMER_0 + CHANNELS
    ensures GridInv(AfterDispatch(sys))
  {
    var b := Best(sys.s, EVENTS);
    TimerDispatchSpares(sys, b);
    OtherDispatchKeepsGrid(sys, AfterDispatch(sys), Fired(b, sys.base + sys.s.due[b]));
  }

  // ---------------------------------------------------------------------------------------------
  // The top of the clock

  /** The last cycle a check dispatches: its clock, but never the last one of all. */
  function Horizon(s: Sched): (h: nat)
    requires Valid(s)
    ensures forall i: nat :: IsDue(s, i) <==> i < EVENTS && s.active[i] && s.due[i] <= h
    ensures h < U32_MAX
  {
    Min(s.now, U32_MAX - 1)
  }

  /** The first cycle past the horizon on the grid of samples. */
  function NextSample(s: Sched): int
    requires Valid(s)
  {
    var due, h := s.due[APU_SAMPLE], Horizon(s);
    if h < due then due else h - (h - due) % 512 + 512
  }

  /** The first cycle past `now` on the grid of scanlines, where the pending event is due at `due` and the other one
      comes `wait` cycles after it. */
  function NextTurn(now: nat, due: nat, wait: nat): int {
    if now < due then due
    else
      var t := (now - due) % 1232;
      now - t + if t < wait then wait else 1232
  }

  function NextLine(s: Sched): int
    requires Valid(s)
  {
    if s.active[SCANLINE_240] then NextTurn(Horizon(s), s.due[SCANLINE_240], HBLANK_CYCLES)
    else NextTurn(Horizon(s), s.due[SCANLINE_308], HDRAW_CYCLES)
  }

  /** The next sample and the next scanline event past the horizon have a cycle of 32 bits. */
  predicate GridFits(s: Sched)
    requires Valid(s)
  {
    NextSample(s) <= U32_MAX && NextLine(s) <= U32_MAX
  }

  lemma SampleStep(now: nat, due: nat)
    requires due <= now
    ensures now < due + 512 ==> (now - due) % 512 == now - due
    ensures due + 512 <= now ==> (now - (due + 512)) % 512 == (now - due) % 512
  {
    var x := now - due;
    if x >= 512 { DivModIs(x - 512, 512, x / 512 - 1, x % 512); }
  }

  lemma TurnStep(now: nat, due: nat, wait: nat)
    requires due <= now && 0 < wait < 1232
    ensures NextTurn(now, due + wait, 1232 - wait) == NextTurn(now, due, wait)
    ensures now < due + wait ==> NextTurn(now, due, wait) == due + wait
  {
    var x := now - due;
    var q, t := x / 1232, x % 1232;
    if x < wait {
      assert t == x;
    } else if t >= wait {
      DivModIs(x - wait, 1232, q, t - wait);
    } else {
      DivModIs(x - wait, 1232, q - 1, t - wait + 1232);
    }
  }

  /** Dispatching a periodic event does not move what comes after the clock. */
  lemma FitsStays(s: Sched, t: Sched, b: nat)
    requires Valid(s) && Valid(t) && IsPeriodic(b) && IsDue(s, b) && s.due[b] + Wait(b) <= U32_MAX
    requires b != APU_SAMPLE ==> !s.active[Successor(b)]
    requires t == SetEvent(Take(s, b), Successor(b), s.due[b] + Wait(b))
    ensures GridFits(t) <==> GridFits(s)
  {
    if b == APU_SAMPLE {
      SampleStep(Horizon(s), s.due[b]);
    } else {
      TurnStep(Horizon(s), s.due[b], Wait(b));
    }
  }

  lemma NoFit(s: Sched, b: nat)
    requires Valid(s) && IsPeriodic(b) && IsDue(s, b) && s.due[b] + Wait(b) > U32_MAX
    requires b != APU_SAMPLE ==> !s.active[Successor(b)]
    ensures !GridFits(s)
  {
    if b == APU_SAMPLE {
      SampleStep(Horizon(s), s.due[b]);
    } else {
      TurnStep(Horizon(s), s.due[b], Wait(b));
    }
  }

  /** Event `e` is pending at the last cycle of the clock, before its own grid cycle. */
  predicate Saturated(sys: Sys, e: nat) {
    && Formed(sys) && IsPeriodic(e) && sys.s.active[e] && sys.s.due[e] == U32_MAX
    && sys.base + U32_MAX < GridCycle(e, Count(sys.log, e)) && (e != APU_SAMPLE ==> !sys.s.active[Successor(e)])
  }

  lemma SaturatedIsOff(sys: Sys, e: nat)
    requires Saturated(sys, e)
    ensures !GridInv(sys)
  {}

  lemma DispatchSaturates(sys: Sys, b: nat)
    requires GridInv(sys) && b == Best(sys.s, EVENTS) != NONE && IsPeriodic(b)
    requires sys.s.due[b] + Wait(b) > U32_MAX
    ensures Saturated(AfterDispatch(sys), Successor(b))
  {
    PeriodicPending(sys, b);
    PeriodicDispatch(sys, b, Wait(b), Successor(b));
    DispatchKeepsFormed(sys);
    CountAppend(sys.log, Fired(b, sys.base + sys.s.due[b]), Successor(b));
  }

  lemma DispatchSpares(sys: Sys, i: nat)
    requires Formed(sys) && Best(sys.s, EVENTS) != NONE && i < EVENTS && IsPeriodic(i) && Best(sys.s, EVENTS) != i
    requires Successor(Best(sys.s, EVENTS)) != i || !IsPeriodic(Best(sys.s, EVENTS))
    ensures AfterDispatch(sys).s.active[i] == sys.s.active[i] && AfterDispatch(sys).s.due[i] == sys.s.due[i]
  {
    var b := Best(sys.s, EVENTS);
    PerformSpares(Take(sys.s, b), OnEvent(sys.w, b, sys.s.now, sys.s.due[b]).1, i);
  }

  /** It is never due again in the batch, and nothing else moves it. */
  lemma DispatchStaysSaturated(sys: Sys, e: nat)
    requires Saturated(sys, e) && Best(sys.s, EVENTS) != NONE
    ensures Saturated(AfterDispatch(sys), e)
  {
    var b := Best(sys.s, EVENTS);
    DispatchKeepsFormed(sys);
    DispatchSpares(sys, e);
    if e != APU_SAMPLE { DispatchSpares(sys, Successor(e)); }
    CountAppend(sys.log, Fired(b, sys.base + sys.s.due[b]), e);
  }

  lemma {:induction false} BatchStaysSaturated(sys: Sys, e: nat)
    requires Saturated(sys, e)
    ensures Saturated(AfterBatch(sys, EmuClient()), e)
    decreases Rank(sys.s)
  {
    if Best(sys.s, EVENTS) == NONE {
      NothingDue(sys);
    } else {
      DispatchStaysSaturated(sys, e);
      AfterBatchStep(sys, EmuClient());
      BatchStaysSaturated(AfterDispatch(sys), e);
    }
  }

  // ---------------------------------------------------------------------------------------------
  // A whole check

  lemma IdleFits(sys: Sys)
    requires GridInv(sys) && Best(sys.s, EVENTS) == NONE
    ensures GridFits(sys.s)
  {
    assert !IsDue(sys.s, APU_SAMPLE) && !IsDue(sys.s, SCANLINE_240) && !IsDue(sys.s, SCANLINE_308);
  }

  /** A timer's dispatch moves nothing of the grid. */
  lemma TimerKeepsFits(sys: Sys)
    requires GridInv(sys) && TIMER_0 <= Best(sys.s, EVENTS) < TIMER_0 + CHANNELS
    ensures GridInv(AfterDispatch(sys)) && AfterDispatch(sys).s.now == sys.s.now
    ensures GridFits(AfterDispatch(sys).s) <==> GridFits(sys.s)
  {
    DispatchTimerKeepsGrid(sys);
    DispatchKeepsFormed(sys);
    TimerDispatchSpares(sys, Best(sys.s, EVENTS));
    SparedFits(sys.s, AfterDispatch(sys).s);
  }

  lemma SparedFits(s: Sched, t: Sched)
    requires Valid(s) && Valid(t) && t.now == s.now
    requires forall i: nat :: i < EVENTS && IsPeriodic(i) ==> t.active[i] == s.active[i] && t.due[i] == s.due[i]
    ensures GridFits(t) <==> GridFits(s)
  {}

  lemma PeriodicKeepsFits(sys: Sys, b: nat)
    requires GridInv(sys) && b == Best(sys.s, EVENTS) != NONE && IsPeriodic(b) && sys.s.due[b] + Wait(b) <= U32_MAX
    ensures GridInv(AfterDispatch(sys)) && AfterDispatch(sys).s.now == sys.s.now
    ensures GridFits(AfterDispatch(sys).s) <==> GridFits(sys.s)
  {
    DispatchPeriodicKeeps(sys);
    DispatchKeepsFormed(sys);
    PeriodicPending(sys, b);
    PeriodicDispatch(sys, b, Wait(b), Successor(b));
    FitsStays(sys.s, AfterDispatch(sys).s, b);
  }

  lemma SaturatedBatch(sys: Sys, b: nat)
    requires GridInv(sys) && b == Best(sys.s, EVENTS) != NONE && IsPeriodic(b)
    requires sys.s.due[b] + Wait(b) > U32_MAX
    ensures !GridFits(sys.s) && Formed(AfterBatch(sys, EmuClient())) && !GridInv(AfterBatch(sys, EmuClient()))
  {
    PeriodicPending(sys, b);
    NoFit(sys.s, b);
    DispatchSaturates(sys, b);
    AfterBatchStep(sys, EmuClient());
    BatchStaysSaturated(AfterDispatch(sys), Successor(b));
    SaturatedIsOff(AfterBatch(sys, EmuClient()), Successor(b));
  }

  /** A batch keeps the grid exactly when what comes after the clock still has a cycle. */
  lemma {:induction false} BatchGridIff(sys: Sys)
    requires GridInv(sys)
    ensures Formed(AfterBatch(sys, EmuClient())) && (GridInv(AfterBatch(sys, EmuClient())) <==> GridFits(sys.s))
    decreases Rank(sys.s)
  {
    var b := Best(sys.s, EVENTS);
    if b == NONE {
      NothingDue(sys);
      IdleFits(sys);
    } else if IsPeriodic(b) && sys.s.due[b] + Wait(b) > U32_MAX {
      SaturatedBatch(sys, b);
    } else {
      if IsPeriodic(b) { PeriodicKeepsFits(sys, b); } else { TimerKeepsFits(sys); }
      AfterBatchStep(sys, EmuClient());
      BatchGridIff(AfterDispatch(sys));
    }
  }

  /** The grid looks at the three periodic events, the log, the line counter and the display status only. */
  lemma SameGrid(a: Sys, b: Sys)
    requires Formed(a) && Formed(b) && a.base == b.base && a.log == b.log
    requires a.w.vCount == b.w.vCount && a.w.dispStat == b.w.dispStat
    requires forall i: nat :: i < EVENTS && IsPeriodic(i) ==> a.s.active[i] == b.s.active[i] && a.s.due[i] == b.s.due[i]
    ensures GridInv(a) <==> GridInv(b)
  {}

  lemma SameFits(s: Sched, t: Sched)
    requires Valid(s) && Valid(t) && s.due == t.due && s.active == t.active && s.now == t.now
    ensures GridFits(s) <==> GridFits(t)
  {}

  /** Moving the clock's origin moves every pending cycle along. */
  lemma RebaseGridIff(sys: Sys)
    requires Formed(sys) && NoneBehind(sys.s)
    ensures var t := sys.(s := Rebase(sys.s), w := OnRebase(sys.w, sys.s.now), base := sys.base + sys.s.now);
            GridInv(t) <==> GridInv(sys)
  {
    var t := sys.(s := Rebase(sys.s), w := OnRebase(sys.w, sys.s.now), base := sys.base + sys.s.now);
    RebasedWorld(sys.w, sys.s.now);
    forall i: nat | i < EVENTS ensures Pending(t, i) <==> Pending(sys, i) {}
  }

  lemma RebasedWorld(w: World, now: nat)
    requires ValidWorld(w)
    ensures ValidWorld(OnRebase(w, now)) && OnRebase(w, now).vCount == w.vCount && OnRebase(w, now).dispStat == w.dispStat
  {}

  lemma FullCheckGridIff(sys: Sys)
    requires GridInv(sys)
    ensures Formed(AfterFullCheck(sys, EmuClient())) && (GridInv(AfterFullCheck(sys, EmuClient())) <==> GridFits(sys.s))
  {
    var b := sys.(s := sys.s.(imm := sys.s.imm, next := U32_MAX));
    SameGrid(sys, b);
    SameFits(sys.s, b.s);
    BatchGridIff(b);
    var d, e := FullCheckShape(sys, EmuClient());
    var f := AfterFullCheck(sys, EmuClient());
    FreshGridIff(d, e, f);
  }

  /** A fresh bound and a rebase make no difference to the grid. */
  lemma FreshGridIff(d: Sys, e: Sys, f: Sys)
    requires Formed(d) && Valid(e.s) && e == d.(s := d.s.(imm := d.s.imm, next := e.s.next)) && NoneBehind(e.s)
    requires f == if e.s.now > REBASE_ABOVE
                  then e.(s := Rebase(e.s), w := OnRebase(e.w, e.s.now), base := e.base + e.s.now)
                  else e
    ensures Formed(f) && (GridInv(f) <==> GridInv(d))
  {
    SameGrid(d, e);
    RebaseGridIff(e);
  }

  /** A check that dispatches although a next grid cycle does not fit, or a slice that wraps the clock. */
  predicate Overruns(sys: Sys, op: Op)
    requires Formed(sys)
  {
    (op.Check? && sys.s.next <= sys.s.now && !GridFits(sys.s)) || Wraps(sys, op)
  }

  /** A check keeps the grid if and only if it returns early or the next sample and the next scanline event past the
      horizon have a cycle of 32 bits; whether it loses the scheduler's bound does not matter. */
  lemma CheckKeepsGridIff(sys: Sys)
    requires GridInv(sys)
    ensures GridInv(Step(sys, Check)) <==> !Overruns(sys, Check)
  {
    var a := CheckIs(sys);
    SameGrid(sys, a);
    SameFits(sys.s, a.s);
    if a.s.now < a.s.next {
      SameGrid(a, a.(owed := false));
    } else {
      FullCheckGridIff(a);
      var f := AfterFullCheck(a, EmuClient());
      SameGrid(f, f.(owed := false));
    }
  }

  // ---------------------------------------------------------------------------------------------
  // Every step, every run

  lemma WriteTimerKeepsGrid(sys: Sys, ch: nat, mask: bv16, value: bv16)
    requires GridInv(sys) && ch < CHANNELS
    ensures GridInv(SetTimer(sys, ch, mask, value))
  {
    ControlIsValid(ch, sys.w.channels[ch], mask, value);
    TimerSpares(sys, ch, mask, value);
    SameGrid(sys, SetTimer(sys, ch, mask, value));
  }

  lemma TimerSpares(sys: Sys, ch: nat, mask: bv16, value: bv16)
    requires Formed(sys) && ch < CHANNELS && ValidChannel(WriteControl(ch, sys.w.channels[ch], mask, value))
    ensures var t := SetTimer(sys, ch, mask, value);
            && Formed(t) && t.s.now == sys.s.now && t.base == sys.base && t.log == sys.log
            && t.w.vCount == sys.w.vCount && t.w.dispStat == sys.w.dispStat
            && forall i: nat :: i < EVENTS && IsPeriodic(i) ==> t.s.active[i] == sys.s.active[i] && t.s.due[i] == sys.s.due[i]
  {
    RemainingRange(WriteControl(ch, sys.w.channels[ch], mask, value));
  }

  /** The clock and the channels' registers are no part of the grid. */
  lemma OtherKeepsGrid(sys: Sys, op: Op)
    requires GridInv(sys) && Allowed(sys, op) && (op.Halt? || op.WriteReload? || op.ReadTimer?)
    ensures GridInv(Step(sys, op))
  {
    SameGrid(sys, Step(sys, op));
  }

  /** Once the clock wraps, every pending event is 2^32 cycles late. */
  lemma SliceKeepsGridIff(sys: Sys, op: Op)
    requires GridInv(sys) && Allowed(sys, op) && op.RunSlice?
    ensures GridInv(Step(sys, op)) <==> !Wraps(sys, op)
  {
    if !Wraps(sys, op) { SameGrid(sys, Step(sys, op)); }
  }

  /** A guest write to DISPSTAT cannot reach the flags. */
  lemma DispStatKeepsGrid(sys: Sys, mask: bv16, value: bv16)
    requires GridInv(sys)
    ensures GridInv(Step(sys, WriteDispStat(mask, value)))
  {
    MaskSparesVblank(sys.w.dispStat, mask, value);
  }

  lemma MaskSparesVblank(stat: bv16, mask: bv16, value: bv16)
    ensures Overlay(stat, mask & 0xFFB8, value) & 1 == stat & 1 && Overlay(stat, mask & 0xFFB8, value) & 2 == stat & 2
  {}

  /** Nothing but an overrunning check or a wrapping slice takes the grid away. */
  lemma StepKeepsGridIff(sys: Sys, op: Op)
    requires GridInv(sys) && Allowed(sys, op)
    ensures GridInv(Step(sys, op)) <==> !Overruns(sys, op)
  {
    match op
    case Check => CheckKeepsGridIff(sys);
    case RunSlice(_) => SliceKeepsGridIff(sys, op);
    case WriteTimer(ch, mask, value) => WriteTimerKeepsGrid(sys, ch, mask, value);
    case WriteDispStat(mask, value) => DispStatKeepsGrid(sys, mask, value);
    case _ => OtherKeepsGrid(sys, op);
  }

  ghost predicate OnTime(sys: Sys, ops: seq<Op>)
    decreases ops
  {
    ops != [] && Formed(sys) && Allowed(sys, ops[0]) ==> !Overruns(sys, ops[0]) && OnTime(Step(sys, ops[0]), ops[1..])
  }

  /** The grid holds in every state of a run. */
  ghost predicate GridAlong(sys: Sys, ops: seq<Op>)
    decreases ops
  {
    GridInv(sys) && (ops != [] && Allowed(sys, ops[0]) ==> GridAlong(Step(sys, ops[0]), ops[1..]))
  }

  /** A run keeps the grid throughout if and only if none of its steps overruns. */
  lemma {:induction false} RunKeepsGridIff(sys: Sys, ops: seq<Op>, last: Sys)
    requires GridInv(sys) && IsRun(sys, ops, last)
    ensures GridAlong(sys, ops) <==> OnTime(sys, ops)
    ensures OnTime(sys, ops) ==> GridInv(last)
    decreases ops
  {
    if ops != [] {
      StepKeepsGridIff(sys, ops[0]);
      if !Overruns(sys, ops[0]) { RunKeepsGridIff(Step(sys, ops[0]), ops[1..], last); }
    }
  }

  lemma BootOnGrid()
    ensures GridInv(Boot())
  {}

  ghost predicate OnTimeTo(ops: seq<Op>, sys: Sys) { IsRun(Boot(), ops, sys) && OnTime(Boot(), ops) }

  /** The end of a run from power-on in which no step overruns. */
  ghost predicate GridReachable(sys: Sys) {
    exists ops: seq<Op> :: OnTimeTo(ops, sys)
  }

  lemma GridHolds(sys: Sys)
    requires GridReachable(sys)
    ensures GridInv(sys)
  {
    var ops: seq<Op> :| OnTimeTo(ops, sys);
    BootOnGrid();
    RunKeepsGridIff(Boot(), ops, sys);
  }

  // ---------------------------------------------------------------------------------------------
  // What holds over every run

  /** The k-th audio sample is due exactly 512 k cycles after boot, never drifting, and the next one is
      always pending at its own grid cycle. */
  lemma SampleGrid(sys: Sys, m: nat)
    requires GridReachable(sys)
    ensures m < |sys.log| && sys.log[m].index == APU_SAMPLE ==>
              sys.log[m].at == SAMPLE_CYCLES * (Count(sys.log[..m], APU_SAMPLE) + 1)
    ensures Formed(sys) && sys.s.active[APU_SAMPLE]
    ensures sys.base + sys.s.due[APU_SAMPLE] == SAMPLE_CYCLES * (Count(sys.log, APU_SAMPLE) + 1)
  {
    GridHolds(sys);
  }

  /** Line n enters hblank at 1232 n + 960 and ends at 1232 (n + 1), and the next scanline event is
      always pending at its own grid cycle. */
  lemma ScanlineGrid(sys: Sys, m: nat)
    requires GridReachable(sys)
    ensures m < |sys.log| && sys.log[m].index == SCANLINE_240 ==>
              sys.log[m].at == LINE_CYCLES * Count(sys.log[..m], SCANLINE_240) + HDRAW_CYCLES
    ensures m < |sys.log| && sys.log[m].index == SCANLINE_308 ==>
              sys.log[m].at == LINE_CYCLES * (Count(sys.log[..m], SCANLINE_308) + 1)
    ensures Formed(sys) && (Pending(sys, SCANLINE_240) || Pending(sys, SCANLINE_308))
    ensures Count(sys.log, SCANLINE_308) <= Count(sys.log, SCANLINE_240) <= Count(sys.log, SCANLINE_308) + 1
  {
    GridHolds(sys);
  }

  /** Dispatch m ends a line after which the counter stands at 160. */
  ghost predicate EntersVblank(log: seq<Fired>, m: nat)
    requires m < |log|
  {
    log[m].index == SCANLINE_308 && (Count(log[..m], SCANLINE_308) + 1) % TOTAL_LINES == VISIBLE_LINES
  }

  /** Two vblank entries are a whole number of 228-line frames apart, and with none between them exactly
      one frame: 228 * 1232 cycles. */
  lemma VblankPeriod(sys: Sys, m: nat, k: nat)
    requires GridReachable(sys) && m < k < |sys.log| && EntersVblank(sys.log, m) && EntersVblank(sys.log, k)
    ensures var a, b := Count(sys.log[..m], SCANLINE_308), Count(sys.log[..k], SCANLINE_308);
            && a < b && (b - a) % TOTAL_LINES == 0
            && sys.log[k].at - sys.log[m].at == (b - a) / TOTAL_LINES * (TOTAL_LINES * LINE_CYCLES)
    ensures (forall j: nat :: m < j < k ==> !EntersVblank(sys.log, j)) ==>
              sys.log[k].at - sys.log[m].at == TOTAL_LINES * LINE_CYCLES
  {
    ScanlineGrid(sys, m);
    ScanlineGrid(sys, k);
    var a, b := Count(sys.log[..m], SCANLINE_308), Count(sys.log[..k], SCANLINE_308);
    CountPast(sys.log, m, k, SCANLINE_308);
    FramesApart(a, b);
    if b > a + TOTAL_LINES {
      var j := NthBetween(sys.log, m, k, SCANLINE_308, a + TOTAL_LINES);
      NextFrame(a);
      assert EntersVblank(sys.log, j);
    }
  }

  lemma NextFrame(a: nat)
    requires (a + 1) % 228 == 160
    ensures (a + 228 + 1) % 228 == 160
  {}

  lemma FramesApart(a: nat, b: nat)
    requires a < b && (a + 1) % 228 == 160 && (b + 1) % 228 == 160
    ensures (b - a) % 228 == 0 && (b - a) / 228 * (228 * 1232) == (b - a) * 1232 && b >= a + 228
  {
    var p, q := (a + 1) / 228, (b + 1) / 228;
    assert a + 1 == 228 * p + 160 && b + 1 == 228 * q + 160;
    assert b - a == 228 * (q - p);
  }

  lemma {:induction false} CountMonotone(log: seq<Fired>, m: nat, k: nat, index: nat)
    requires m <= k <= |log|
    ensures Count(log[..m], index) <= Count(log[..k], index)
    decreases k
  {
    if m < k {
      CountMonotone(log, m, k - 1, index);
      assert log[..k][..k - 1] == log[..k - 1];
    }
  }

  lemma CountPast(log: seq<Fired>, m: nat, k: nat, index: nat)
    requires m < k <= |log| && log[m].index == index
    ensures Count(log[..m], index) < Count(log[..k], index)
  {
    assert log[..m + 1][..m] == log[..m];
    CountMonotone(log, m + 1, k, index);
  }

  /** Counting passes every number on the way: the dispatch at which `n` have gone before. */
  lemma {:induction false} NthBetween(log: seq<Fired>, m: nat, k: nat, index: nat, n: nat) returns (j: nat)
    requires m <= k <= |log| && Count(log[..m], index) <= n < Count(log[..k], index)
    ensures m <= j < k && log[j].index == index && Count(log[..j], index) == n
    decreases k
  {
    assert log[..k][..k - 1] == log[..k - 1];
    if Count(log[..k - 1], index) <= n {
      j := k - 1;
    } else {
      j := NthBetween(log, m, k - 1, index, n);
    }
  }

  /** The vblank flag is set exactly on lines 160 to 226. */
  lemma VblankFlag(sys: Sys)
    requires GridReachable(sys)
    ensures sys.w.vCount == Count(sys.log, SCANLINE_308) % TOTAL_LINES
    ensures sys.w.dispStat & 1 != 0 <==> VISIBLE_LINES <= sys.w.vCount <= 226
  {
    GridHolds(sys);
  }

  /** The hblank flag is set exactly while the line's end is the pending event. */
  lemma HblankFlag(sys: Sys)
    requires GridReachable(sys)
    ensures Formed(sys) && (sys.w.dispStat & 2 != 0 <==> sys.s.active[SCANLINE_308])
  {
    GridHolds(sys);
  }

  lemma MatchFlag(stat: bv16, matches: bool)
    ensures (LineStart(stat, matches) & 4 != 0 <==> matches) && LineStart(stat, matches) >> 8 == stat >> 8
    ensures LineStart(stat, matches) & 0x00F8 == stat & 0x00F8
  {}

  lemma KeptFlags(stat: bv16, after: bv16)
    requires after == stat | 1 || after == stat & !1
    ensures after >> 8 == stat >> 8 && after & 0x00F8 == stat & 0x00F8
  {}

  lemma AtLineCases(stat: bv16, line: nat) returns (after: bv16)
    ensures after == AtLine(stat, line) && (after == stat || after == stat | 1 || after == stat & !1)
  {
    after := AtLine(stat, line);
  }

  /** The vblank flag's turn keeps the guest's setting and bits. */
  lemma SettingKept(stat: bv16, line: nat) returns (after: bv16)
    ensures after == AtLine(stat, line) && after >> 8 == stat >> 8 && after & 0x00F8 == stat & 0x00F8
  {
    after := AtLineCases(stat, line);
    if after != stat { KeptFlags(stat, after); }
  }

  /** The end of a line sets the counter-match flag by comparing the new line counter with the guest's setting, which
      it keeps (`SettingKept`), with the guest's other bits. */
  lemma CounterMatch(w: World) returns (v: World, stat: bv16, matches: bool)
    ensures v == OnScanline308(w) && stat == AtLine(w.dispStat, w.vCount + 1)
    ensures v.vCount == (if w.vCount == 227 then 0 else w.vCount + 1) && v.channels == w.channels
    ensures matches == (v.vCount == (stat >> 8) as nat) && (v.dispStat & 4 != 0 <==> matches)
    ensures v.dispStat >> 8 == stat >> 8 && v.dispStat & 0x00F8 == stat & 0x00F8
  {
    v, stat, matches := Scanline308Is(w);
    MatchFlag(stat, matches);
  }
}
