/**
 A run in which a check loses the scheduler's bound, and the periodic grid with it.

 From power-on the clock is brought one cycle at a time to the last cycle before a rebase (`ClockReaches`).
 One slice that ends 514 cycles past cycle 2^31 then makes its check catch up with an audio sample and rebase
 in the same batch; the next halt skips to the wrapped bound, and the check there saturates the sample at the
 top of the clock (`GridBreaks`). A slice one cycle shorter takes the halt to the last cycle of the clock itself, whose
 check leaves the sample overdue (`SampleIsStuck`), as a check does exactly there (`SampleOverdueIff`).
 */
module GridLoss {
  import opened Arithmetic
  import opened CatchUp
  import opened Clients
  import opened EmuSystem
  import opened EventGrid
  import opened MainLoop
  import opened Scheduler

  /** No timer was ever written. */
  predicate Quiet(sys: Sys) {
    && Formed(sys) && (forall i :: TIMER_0 <= i < TIMER_0 + CHANNELS ==> !sys.s.active[i]) && sys.s.imm == NoBits()
  }

  lemma QuietDispatch(sys: Sys)
    requires GridInv(sys) && Quiet(sys) && Best(sys.s, EVENTS) != NONE
    ensures Quiet(AfterDispatch(sys))
  {
    var b := Best(sys.s, EVENTS);
    assert !(TIMER_0 <= b < TIMER_0 + CHANNELS);
    if b == SCANLINE_240 {
      PeriodicDispatch(sys, b, HBLANK_CYCLES, SCANLINE_308);
    } else if b == SCANLINE_308 {
      PeriodicDispatch(sys, b, HDRAW_CYCLES, SCANLINE_240);
    } else {
      PeriodicDispatch(sys, b, SAMPLE_CYCLES, APU_SAMPLE);
    }
  }

  lemma {:induction false} QuietBatch(sys: Sys)
    requires Inv(sys) && Quiet(sys)
    ensures Quiet(AfterBatch(sys, EmuClient()))
    decreases Rank(sys.s)
  {
    if Best(sys.s, EVENTS) != NONE {
      QuietDispatch(sys);
      DispatchKeeps(sys);
      AfterBatchStep(sys, EmuClient());
      QuietBatch(AfterDispatch(sys));
    }
  }

  lemma QuietFullCheck(sys: Sys)
    requires Inv(sys) && Quiet(sys) && sys.s.now <= REBASE_ABOVE
    ensures var t := AfterFullCheck(sys, EmuClient());
            Quiet(t) && t.base == sys.base && t.s.now == sys.s.now && !FullCheck(sys.s, sys.w, EmuClient()).rebased
  {
    CacheIsFree(sys, sys.s.imm, U32_MAX);
    QuietBatch(sys.(s := sys.s.(imm := sys.s.imm, next := U32_MAX)));
    var d, e := FullCheckShape(sys, EmuClient());
  }

  /** A check before the first rebase. */
  lemma QuietCheck(sys: Sys)
    requires Inv(sys) && Quiet(sys) && sys.s.now <= REBASE_ABOVE
    ensures Formed(sys) && Allowed(sys, Check) && Quiet(Step(sys, Check)) && !LosesBound(sys, Check)
    ensures Step(sys, Check).base == sys.base && Step(sys, Check).s.now == sys.s.now && !Step(sys, Check).owed
  {
    var a := CheckIs(sys);
    assert a == sys;
    QuietFullCheck(sys);
    NoRebase(sys);
  }

  lemma NoRebase(sys: Sys)
    requires Formed(sys) && sys.s.now <= REBASE_ABOVE
    ensures Allowed(sys, Check) && !LosesBound(sys, Check)
  {}

  /** One cycle at a time the clock reaches every cycle up to the last one before a rebase. A check that fired is made
      twice, as in the main loop. */
  lemma {:induction false} ClockReaches(n: nat) returns (sys: Sys)
    requires n <= REBASE_ABOVE
    ensures Reachable(sys) && Quiet(sys) && !sys.owed && sys.base == 0 && sys.s.now == n
    decreases n
  {
    if n == 0 {
      BootReachable();
      sys := Boot();
    } else {
      sys := ClockReaches(n - 1);
      ReachOn(sys, RunSlice(1));
      sys := Step(sys, RunSlice(1));
      var fires := sys.s.next <= sys.s.now;
      sys := QuietStep(sys);
      if fires { sys := QuietStep(sys); }
    }
  }

  lemma QuietStep(sys: Sys) returns (t: Sys)
    requires Reachable(sys) && Quiet(sys) && sys.s.now <= REBASE_ABOVE
    ensures t == Step(sys, Check) && Reachable(t) && Quiet(t) && !t.owed && t.base == sys.base && t.s.now == sys.s.now
  {
    ReachableInv(sys);
    QuietCheck(sys);
    ReachOn(sys, Check);
    t := Step(sys, Check);
  }

  const EVE := 0x8000_0000

  /** The eve of the rebase: a sample is due one cycle on, and the line's hblank 496 cycles after it. */
  lemma OnTheEve(sys: Sys)
    requires Reachable(sys) && Quiet(sys) && !sys.owed && sys.base == 0 && sys.s.now == REBASE_ABOVE
    ensures sys.s.active == NoBits()[SCANLINE_240 := true][APU_SAMPLE := true]
    ensures sys.s.due[APU_SAMPLE] == EVE && sys.s.due[SCANLINE_240] == EVE + 496
  {
    ReachableInv(sys);
    assert !IsDue(sys.s, APU_SAMPLE) && !IsDue(sys.s, SCANLINE_240) && !IsDue(sys.s, SCANLINE_308);
    EveSample(sys.s.due[APU_SAMPLE], Count(sys.log, APU_SAMPLE));
    var n := Count(sys.log, SCANLINE_308);
    if Count(sys.log, SCANLINE_240) == n {
      EveLine(sys.s.due[SCANLINE_240], n);
    } else {
      EveLineEnd(sys.s.due[SCANLINE_308], n);
    }
    forall i | 0 <= i < WORD
      ensures sys.s.active[i] == (i == SCANLINE_240 || i == APU_SAMPLE)
    {}
  }

  lemma EveSample(due: nat, n: nat)
    requires due == 512 * (n + 1) && 0x7FFF_FFFF < due <= 0x7FFF_FFFF + 512
    ensures due == 0x8000_0000
  {}

  lemma EveLine(due: nat, n: nat)
    requires due == 1232 * n + 960 && 0x7FFF_FFFF < due <= 0x7FFF_FFFF + 960
    ensures due == 0x8000_0000 + 496
  {}

  /** No line ends this close after the eve. */
  lemma EveLineEnd(due: nat, n: nat)
    requires due == 1232 * (n + 1)
    ensures !(0x7FFF_FFFF < due <= 0x7FFF_FFFF + 272)
  {}

  /** Only the first and the last event are active. */
  predicate Pair(s: Sched, first: nat, last: nat, dueFirst: nat, dueLast: nat) {
    && Valid(s) && first < EVENTS && last < EVENTS && s.active == NoBits()[first := true][last := true]
    && s.due[first] == dueFirst && s.due[last] == dueLast && s.imm == NoBits()
  }

  lemma BestOfPair(s: Sched, first: nat, last: nat, dueFirst: nat, dueLast: nat)
    requires Pair(s, first, last, dueFirst, dueLast) && first < last && dueFirst < U32_MAX && dueLast < U32_MAX
    ensures dueLast < dueFirst && dueLast <= s.now ==> Best(s, EVENTS) == last
    ensures dueFirst <= dueLast && dueFirst <= s.now ==> Best(s, EVENTS) == first
    ensures s.now < dueFirst && s.now < dueLast ==> Best(s, EVENTS) == NONE
  {
    var b := Best(s, EVENTS);
    assert IsDue(s, first) <==> dueFirst <= s.now;
    assert IsDue(s, last) <==> dueLast <= s.now;
    assert b != NONE ==> IsDue(s, b) && (b == first || b == last);
  }

  /** One periodic dispatch out of a pair of pending events. */
  lemma PairStep(a: Sys, first: nat, dueFirst: nat, dueLast: nat, b: nat, cycles: nat, next: nat) returns (z: Sys)
    requires Fits(a) && Pair(a.s, first, APU_SAMPLE, dueFirst, dueLast) && b == Best(a.s, EVENTS) && a.s.next <= U32_MAX
    requires (first, b, cycles, next) in {(SCANLINE_240, SCANLINE_240, HBLANK_CYCLES, SCANLINE_308),
                                          (SCANLINE_240, APU_SAMPLE, SAMPLE_CYCLES, APU_SAMPLE),
                                          (SCANLINE_308, APU_SAMPLE, SAMPLE_CYCLES, APU_SAMPLE)}
    ensures z == AfterDispatch(a) && Fits(z) && z.s.now == a.s.now && z.base == a.base
    ensures z.s.next == Min(a.s.next, a.s.due[b] + cycles)
    ensures b == SCANLINE_240 ==> Pair(z.s, SCANLINE_308, APU_SAMPLE, dueFirst + cycles, dueLast)
    ensures b == APU_SAMPLE ==> Pair(z.s, first, APU_SAMPLE, dueFirst, dueLast + cycles)
    ensures AfterBatch(a, EmuClient()) == AfterBatch(z, EmuClient())
  {
    z := AfterDispatch(a);
    PeriodicDispatch(a, b, cycles, next);
    AfterBatchStep(a, EmuClient());
    DispatchKeepsFormed(a);
    PairAfter(a.s, first, dueFirst, dueLast, b, cycles, next);
  }

  lemma PairAfter(s: Sched, first: nat, dueFirst: nat, dueLast: nat, b: nat, cycles: nat, next: nat)
    requires Pair(s, first, APU_SAMPLE, dueFirst, dueLast) && b < EVENTS && s.due[b] + cycles <= U32_MAX
    requires (first, b, cycles, next) in {(SCANLINE_240, SCANLINE_240, HBLANK_CYCLES, SCANLINE_308),
                                          (SCANLINE_240, APU_SAMPLE, SAMPLE_CYCLES, APU_SAMPLE),
                                          (SCANLINE_308, APU_SAMPLE, SAMPLE_CYCLES, APU_SAMPLE)}
    ensures var t := SetEvent(Take(s, b), next, s.due[b] + cycles);
            && (b == SCANLINE_240 ==> Pair(t, SCANLINE_308, APU_SAMPLE, dueFirst + cycles, dueLast))
            && (b == APU_SAMPLE ==> Pair(t, first, APU_SAMPLE, dueFirst, dueLast + cycles))
  {
    if b == SCANLINE_240 {
      assert NoBits()[SCANLINE_240 := true][APU_SAMPLE := true][SCANLINE_240 := false][SCANLINE_308 := true]
             == NoBits()[SCANLINE_308 := true][APU_SAMPLE := true];
    } else {
      assert s.active[APU_SAMPLE := false][APU_SAMPLE := true] == s.active;
    }
  }

  /** A slice that ends between the second sample and the next line: two samples and the hblank between them are
      dispatched, the first sample's successor from behind the clock. */
  lemma EveBatch(a: Sys) returns (z: Sys)
    requires Fits(a) && Pair(a.s, SCANLINE_240, APU_SAMPLE, EVE + 496, EVE) && EVE + 512 < a.s.now < EVE + 768
    requires a.s.next == U32_MAX
    ensures z == AfterBatch(a, EmuClient()) && Pair(z.s, SCANLINE_308, APU_SAMPLE, EVE + 768, EVE + 1024)
    ensures z.s.now == a.s.now && z.s.next == EVE + 512 && z.base == a.base && Fits(z)
  {
    BestOfPair(a.s, SCANLINE_240, APU_SAMPLE, EVE + 496, EVE);
    var a1 := PairStep(a, SCANLINE_240, EVE + 496, EVE, APU_SAMPLE, SAMPLE_CYCLES, APU_SAMPLE);
    z := EveCatchUp(a1);
  }

  lemma EveCatchUp(a: Sys) returns (z: Sys)
    requires Fits(a) && Pair(a.s, SCANLINE_240, APU_SAMPLE, EVE + 496, EVE + 512) && EVE + 512 < a.s.now < EVE + 768
    requires a.s.next == EVE + 512
    ensures z == AfterBatch(a, EmuClient()) && Pair(z.s, SCANLINE_308, APU_SAMPLE, EVE + 768, EVE + 1024)
    ensures z.s.now == a.s.now && z.s.next == EVE + 512 && z.base == a.base && Fits(z)
  {
    BestOfPair(a.s, SCANLINE_240, APU_SAMPLE, EVE + 496, EVE + 512);
    var a1 := PairStep(a, SCANLINE_240, EVE + 496, EVE + 512, SCANLINE_240, HBLANK_CYCLES, SCANLINE_308);
    z := EveSecond(a1);
  }

  lemma EveSecond(a: Sys) returns (z: Sys)
    requires Fits(a) && Pair(a.s, SCANLINE_308, APU_SAMPLE, EVE + 768, EVE + 512) && EVE + 512 < a.s.now < EVE + 768
    requires a.s.next == EVE + 512
    ensures z == AfterBatch(a, EmuClient()) && Pair(z.s, SCANLINE_308, APU_SAMPLE, EVE + 768, EVE + 1024)
    ensures z.s.now == a.s.now && z.s.next == EVE + 512 && z.base == a.base && Fits(z)
  {
    BestOfPair(a.s, SCANLINE_308, APU_SAMPLE, EVE + 768, EVE + 512);
    z := PairStep(a, SCANLINE_308, EVE + 768, EVE + 512, APU_SAMPLE, SAMPLE_CYCLES, APU_SAMPLE);
    BestOfPair(z.s, SCANLINE_308, APU_SAMPLE, EVE + 768, EVE + 1024);
    NothingDue(z);
  }

  /** The system just rebased from cycle `n`, its bound wrapped. */
  predicate EveLost(t: Sys, base: nat, n: nat) {
    && Formed(t) && EVE + 512 < n < EVE + 768 && t.base == base + n && t.s.now == 0
    && t.s.next == U32_MAX + 1 - (n - (EVE + 512)) && Pair(t.s, SCANLINE_308, APU_SAMPLE, EVE + 768 - n, EVE + 1024 - n)
  }

  /** The check after that slice rebases with the bound behind the clock, and the bound wraps. */
  lemma EveCheck(sys: Sys, n: nat) returns (t: Sys)
    requires Fits(sys) && Pair(sys.s, SCANLINE_240, APU_SAMPLE, EVE + 496, EVE) && n == sys.s.now
    requires EVE + 512 < n < EVE + 768 && sys.s.next <= sys.s.now && sys.s.imm == NoBits()
    ensures t == Step(sys, Check) && EveLost(t, sys.base, n) && !t.owed
  {
    var a := CheckIs(sys);
    assert a == sys;
    var f := EveFullCheck(sys, n);
    t := Step(sys, Check);
  }

  lemma EveFullCheck(sys: Sys, n: nat) returns (t: Sys)
    requires Fits(sys) && Pair(sys.s, SCANLINE_240, APU_SAMPLE, EVE + 496, EVE) && n == sys.s.now
    requires EVE + 512 < n < EVE + 768
    ensures t == AfterFullCheck(sys, EmuClient()) && EveLost(t, sys.base, n)
  {
    var d, e := FullCheckShape(sys, EmuClient());
    var z := EveBatch(sys.(s := sys.s.(imm := sys.s.imm, next := U32_MAX)));
    assert d == z;
    EveLeast(d.s);
    EveRebase(e.s, n);
    RebasedWorld(e.w, e.s.now);
    t := AfterFullCheck(sys, EmuClient());
  }

  lemma EveLeast(s: Sched)
    requires Pair(s, SCANLINE_308, APU_SAMPLE, EVE + 768, EVE + 1024) && s.next == EVE + 512
    ensures LeastDue(s, EVENTS, s.next) == EVE + 512
  {
    assert forall i: nat :: i < EVENTS && s.active[i] ==> i == SCANLINE_308 || i == APU_SAMPLE;
  }

  lemma EveRebase(s: Sched, n: nat)
    requires Pair(s, SCANLINE_308, APU_SAMPLE, EVE + 768, EVE + 1024) && s.next == EVE + 512 && s.now == n
    requires NoneBehind(s) && EVE + 512 < n < EVE + 768
    ensures Pair(Rebase(s), SCANLINE_308, APU_SAMPLE, EVE + 768 - n, EVE + 1024 - n) && Rebase(s).now == 0
    ensures Rebase(s).next == U32_MAX + 1 - (n - (EVE + 512))
  {
    assert (s.next - s.now) % (U32_MAX + 1) == U32_MAX + 1 - (n - (EVE + 512));
  }

  /** With nothing due and the clock below 2^31, the second check of the main loop is inert: at most it refreshes the
      cached bound. */
  lemma SecondCheck(t: Sys) returns (z: Sys)
    requires Formed(t) && t.s.now <= REBASE_ABOVE && Best(t.s, EVENTS) == NONE
    ensures z == Step(t, Check) && Formed(z) && z.base == t.base && z.log == t.log && z.w == t.w
    ensures z.s.now == t.s.now && z.s.due == t.s.due && z.s.active == t.s.active && z.s.imm == NoBits() && !z.owed
    ensures t.s.now < t.s.next ==> z.s.next == t.s.next
  {
    var a := CheckIs(t);
    z := Step(t, Check);
    if a.s.next <= a.s.now {
      var b := a.(s := a.s.(imm := a.s.imm, next := U32_MAX));
      BestOf(t.s, b.s, EVENTS);
      NothingDue(b);
      var d, e := FullCheckShape(a, EmuClient());
    }
  }

  /** The sample event is never lost: only its own handler touches it, and that reschedules it. */
  lemma SampleStays(sys: Sys)
    requires Formed(sys) && sys.s.active[APU_SAMPLE] && Best(sys.s, EVENTS) != NONE
    ensures Formed(Dispatched(sys, EmuClient())) && Dispatched(sys, EmuClient()).s.active[APU_SAMPLE]
  {
    var b := Best(sys.s, EVENTS);
    var (w, actions) := OnEvent(sys.w, b, sys.s.now, sys.s.due[b]);
    if b == APU_SAMPLE {
      assert Perform(Take(sys.s, b), actions) == Perform(PerformOne(Take(sys.s, b), actions[0]), actions[1..]);
    } else {
      PerformSpares(Take(sys.s, b), actions, APU_SAMPLE);
    }
  }

  lemma {:induction false} SampleStaysInBatch(sys: Sys)
    requires Formed(sys) && sys.s.active[APU_SAMPLE]
    ensures Formed(AfterBatch(sys, EmuClient())) && AfterBatch(sys, EmuClient()).s.active[APU_SAMPLE]
    decreases Rank(sys.s)
  {
    if Best(sys.s, EVENTS) != NONE {
      SampleStays(sys);
      AfterBatchStep(sys, EmuClient());
      SampleStaysInBatch(Dispatched(sys, EmuClient()));
    }
  }

  lemma SampleStaysInCheck(sys: Sys)
    requires Formed(sys) && sys.s.active[APU_SAMPLE]
    ensures Formed(Step(sys, Check)) && Step(sys, Check).s.active[APU_SAMPLE]
  {
    var a := CheckIs(sys);
    SampleStaysInBatch(a.(s := a.s.(imm := a.s.imm, next := U32_MAX)));
    var d, e := FullCheckShape(a, EmuClient());
    RebasedWorld(e.w, e.s.now);
  }

  /** A check of the emulator that fires, or any under the bound, leaves an event at or before the clock if and only if
      it comes at the last cycle of the clock. */
  lemma SampleOverdueIff(sys: Sys)
    requires Formed(sys) && sys.s.active[APU_SAMPLE]
    ensures Formed(Step(sys, Check))
    ensures CheckEvents(sys.s, sys.w, EmuClient()).fired || Bound(sys.s) ==>
              (Overdue(Step(sys, Check).s) <==> sys.s.now == U32_MAX)
  {
    SampleStaysInCheck(sys);
    CheckOverdueIff(sys.s, sys.w, EmuClient());
    assert AnyActive(Step(sys, Check).s);
  }

  /** At either of the last two cycles, a check can only leave the sample saturated at the last one. */
  lemma TopCheck(sys: Sys) returns (t: Sys)
    requires Formed(sys) && sys.s.now >= U32_MAX - 1 && sys.s.next <= sys.s.now && sys.s.imm == NoBits()
    requires sys.s.active[APU_SAMPLE]
    ensures t == Step(sys, Check) && Formed(t) && t.s.active[APU_SAMPLE] && t.s.now == 0
    ensures t.base + t.s.due[APU_SAMPLE] == sys.base + U32_MAX
    ensures sys.s.now < U32_MAX ==> Best(t.s, EVENTS) == NONE
    ensures SomeLate(sys.s, sys.w) && OneLine(sys.s) ==> t.s.now < t.s.next
  {
    var a := CheckIs(sys);
    assert a == sys;
    var f := TopFullCheck(sys);
    t := Step(sys, Check);
  }

  lemma TopFullCheck(sys: Sys) returns (t: Sys)
    requires Formed(sys) && sys.s.now >= U32_MAX - 1 && sys.s.active[APU_SAMPLE]
    ensures t == AfterFullCheck(sys, EmuClient()) && Formed(t) && t.s.active[APU_SAMPLE] && t.s.now == 0
    ensures t.base + t.s.due[APU_SAMPLE] == sys.base + U32_MAX
    ensures sys.s.now < U32_MAX ==> Best(t.s, EVENTS) == NONE
    ensures SomeLate(sys.s, sys.w) && OneLine(sys.s) ==> t.s.now < t.s.next
  {
    var b := sys.(s := sys.s.(imm := sys.s.imm, next := U32_MAX));
    SampleStaysInBatch(b);
    BatchDrains(b.s, b.w, EmuClient());
    var d, e := FullCheckShape(sys, EmuClient());
    assert !IsDue(d.s, APU_SAMPLE);
    TopBound(sys, e.s);
    TopRebase(e.s);
    RebasedWorld(e.w, e.s.now);
    FullCheckKeepsBoundIff(sys.s, sys.w, EmuClient());
    t := AfterFullCheck(sys, EmuClient());
  }

  /** If the batch caught up, the bound is behind the clock. */
  lemma TopBound(sys: Sys, t: Sched)
    requires Formed(sys) && Valid(t) && t.now == sys.s.now
    requires t == Batch(sys.s.(next := U32_MAX), sys.w, EmuClient()).0.(next := t.next)
    requires t.next == LeastDue(Batch(sys.s.(next := U32_MAX), sys.w, EmuClient()).0, EVENTS,
                                Batch(sys.s.(next := U32_MAX), sys.w, EmuClient()).0.next)
    ensures SomeLate(sys.s, sys.w) && OneLine(sys.s) ==> t.next < t.now
  {
    if SomeLate(sys.s, sys.w) && OneLine(sys.s) {
      var s := sys.s.(next := U32_MAX);
      forall i: nat ensures LateAt(s, sys.w, i) <==> LateAt(sys.s, sys.w, i) {}
      CaughtIff(s, sys.w);
      BehindIffCatchUp(s, sys.w, EmuClient());
    }
  }

  lemma TopRebase(s: Sched)
    requires Valid(s) && NoneBehind(s) && s.now >= U32_MAX - 1 && s.active[APU_SAMPLE] && !IsDue(s, APU_SAMPLE)
    ensures Rebase(s).active[APU_SAMPLE] && Rebase(s).due[APU_SAMPLE] == U32_MAX - s.now
    ensures s.next < s.now ==> Rebase(s).next > 0
  {}

  /** A run whose only bad luck is one late check: a slice of 515 cycles across cycle 2^31, its check, which
      loses the bound, a halt, which then skips to the last cycle but one of the clock, and the check after
      it, each check followed by the second one of the main loop. The check at the top overruns, and the next audio
      sample is pending off its grid of 512 cycles. */
  lemma GridBreaks() returns (sys: Sys, lost: Sys, broken: Sys)
    ensures Reachable(sys) && IsRun(sys, [RunSlice(515), Check, Check], lost) && !InTime(sys, [RunSlice(515), Check, Check])
    ensures IsRun(lost, [Halt, Check, Check], broken) && Formed(lost) && Formed(broken)
    ensures Formed(Step(lost, Halt)) && Overruns(Step(lost, Halt), Check)
    ensures broken.s.active[APU_SAMPLE] && (broken.base + broken.s.due[APU_SAMPLE]) % SAMPLE_CYCLES != 0
  {
    sys := ClockReaches(REBASE_ABOVE);
    lost := LateRun(sys, 515);
    broken := Overrun(lost);
    OffGrid(broken.base + broken.s.due[APU_SAMPLE]);
  }

  /** With a slice one cycle shorter the bound wraps to the last cycle of the clock, and the halt comes there. Its check
      leaves the audio sample at cycle 0 of the rebased clock, overdue; the bound is lost again, and so the main loop's
      second check returns early and leaves it there. */
  lemma SampleIsStuck() returns (sys: Sys, lost: Sys, stuck: Sys)
    ensures Reachable(sys) && IsRun(sys, [RunSlice(514), Check, Check], lost) && !InTime(sys, [RunSlice(514), Check, Check])
    ensures IsRun(lost, [Halt, Check, Check], stuck) && Formed(lost) && Step(lost, Halt).s.now == U32_MAX
    ensures Formed(stuck) && stuck.s.now == 0 && IsDue(stuck.s, APU_SAMPLE) && stuck.s.now < stuck.s.next
  {
    sys := ClockReaches(REBASE_ABOVE);
    lost := LateRun(sys, 514);
    stuck := Stuck(lost);
  }

  /** The slice across cycle 2^31 and its two checks. */
  lemma LateRun(sys: Sys, cycles: nat) returns (lost: Sys)
    requires Reachable(sys) && Quiet(sys) && !sys.owed && sys.base == 0 && sys.s.now == REBASE_ABOVE
    requires 513 < cycles < 769
    ensures IsRun(sys, [RunSlice(cycles), Check, Check], lost) && !InTime(sys, [RunSlice(cycles), Check, Check])
    ensures EveLost(lost, 0, REBASE_ABOVE + cycles) && !lost.owed
  {
    OnTheEve(sys);
    var late, first := LateCheck(sys, cycles);
    BestOfPair(first.s, SCANLINE_308, APU_SAMPLE, EVE + 768 - (REBASE_ABOVE + cycles), EVE + 1024 - (REBASE_ABOVE + cycles));
    lost := SecondCheck(first);
    ThreeSteps(sys, RunSlice(cycles), Check, Check);
  }

  lemma LateCheck(sys: Sys, cycles: nat) returns (late: Sys, first: Sys)
    requires Reachable(sys) && Quiet(sys) && !sys.owed && sys.base == 0 && sys.s.now == REBASE_ABOVE
    requires Pair(sys.s, SCANLINE_240, APU_SAMPLE, EVE + 496, EVE) && 513 < cycles < 769
    ensures Allowed(sys, RunSlice(cycles)) && late == Step(sys, RunSlice(cycles)) && Formed(late)
    ensures LosesBound(late, Check) && first == Step(late, Check) && EveLost(first, 0, REBASE_ABOVE + cycles)
  {
    ReachableInv(sys);
    ClockIsNear(sys);
    late := Step(sys, RunSlice(cycles));
    StepKeeps(sys, RunSlice(cycles));
    first := EveCheck(late, REBASE_ABOVE + cycles);
    BoundLost(late, first);
  }

  /** The halt to the wrapped bound and the checks at the last cycle but one of the clock. */
  lemma Overrun(lost: Sys) returns (broken: Sys)
    requires EveLost(lost, 0, EVE + 514) && !lost.owed
    ensures IsRun(lost, [Halt, Check, Check], broken) && Formed(broken)
    ensures Formed(Step(lost, Halt)) && Overruns(Step(lost, Halt), Check)
    ensures broken.s.active[APU_SAMPLE] && broken.base + broken.s.due[APU_SAMPLE] == lost.base + U32_MAX
  {
    var top := Step(lost, Halt);
    assert NextSample(top.s) > U32_MAX;
    var t := TopCheck(top);
    broken := SecondCheck(t);
    ThreeSteps(lost, Halt, Check, Check);
  }

  /** The same at the last cycle of all. */
  lemma Stuck(lost: Sys) returns (stuck: Sys)
    requires EveLost(lost, 0, EVE + 513) && !lost.owed
    ensures IsRun(lost, [Halt, Check, Check], stuck) && Step(lost, Halt).s.now == U32_MAX
    ensures Formed(stuck) && stuck.s.now == 0 && IsDue(stuck.s, APU_SAMPLE) && stuck.s.now < stuck.s.next
  {
    var top := Step(lost, Halt);
    assert OneLine(top.s);
    SampleIsLate(top.s, top.w);
    var t := TopCheck(top);
    var a := CheckIs(t);
    stuck := Step(t, Check);
    ThreeSteps(lost, Halt, Check, Check);
  }

  lemma SampleIsLate(s: Sched, w: World)
    requires Valid(s) && ValidWorld(w) && IsDue(s, APU_SAMPLE) && s.due[APU_SAMPLE] + SAMPLE_CYCLES < s.now
    ensures SomeLate(s, w)
  {
    var a: Action := FromDue(SAMPLE_CYCLES, APU_SAMPLE);
    assert a in Requests(w, APU_SAMPLE, s.now, s.due[APU_SAMPLE]);
    assert LateAt(s, w, APU_SAMPLE);
  }

  lemma BoundLost(late: Sys, lost: Sys)
    requires RunInv(late) && lost == Step(late, Check) && Formed(lost) && lost.s.active[APU_SAMPLE]
    requires lost.s.due[APU_SAMPLE] < lost.s.next
    ensures LosesBound(late, Check)
  {
    CheckKeepsIff(late);
  }

  lemma ThreeSteps(sys: Sys, a: Op, b: Op, c: Op)
    requires Formed(sys) && Allowed(sys, a) && Formed(Step(sys, a)) && Allowed(Step(sys, a), b)
    requires Formed(Step(Step(sys, a), b)) && Allowed(Step(Step(sys, a), b), c)
    ensures IsRun(sys, [a, b, c], Step(Step(Step(sys, a), b), c))
    ensures LosesBound(Step(sys, a), b) ==> !InTime(sys, [a, b, c])
  {
    var z := Step(Step(Step(sys, a), b), c);
    OneStep(Step(Step(sys, a), b), c, [], z);
    OneStep(Step(sys, a), b, [c], z);
    OneStep(sys, a, [b, c], z);
    assert [c] + [] == [c] && [b] + [c] == [b, c] && [a] + [b, c] == [a, b, c];
    assert [a, b, c][1..] == [b, c];
  }

  lemma OneStep(sys: Sys, op: Op, rest: seq<Op>, last: Sys)
    requires Formed(sys) && Allowed(sys, op) && IsRun(Step(sys, op), rest, last)
    ensures IsRun(sys, [op] + rest, last)
  {
    assert ([op] + rest)[1..] == rest;
  }

  lemma OffGrid(at: nat)
    requires at == EVE + 514 + U32_MAX
    ensures at % 512 != 0
  {}
}
