/**
 How fast a timer runs, and when it overflows.

 - `RunRates`: in every run a channel counts once in 1, 64, 256 or 1024 cycles, as its prescaler bits say;
 - `ControlSchedules`, `OverflowSchedules`: a control write and an overflow put the next overflow exactly that many
   counts ahead, from the clock and from the due cycle;
 - `CountUpIff`: what an overflow does to a count-up channel above it, which is to count it only in a corner
   (`CountUpStands`).
 */
module TimerRates {
  import opened Arithmetic
  import opened CatchUp
  import opened Clients
  import opened EmuSystem
  import opened MainLoop
  import opened Scheduler

  /** Cycles per count, by the prescaler bits; 1 in count-up mode. */
  function Rate(ch: nat, cntH: bv16): nat {
    if CountsUp(ch, cntH) || cntH & 3 == 0 then 1 else if cntH & 3 == 1 then 64 else if cntH & 3 == 2 then 256 else 1024
  }

  function Pow2(n: nat): nat { if n == 0 then 1 else 2 * Pow2(n - 1) }

  /** Prescaler p stands for 2^(4 + 2p) cycles per count, and for one if it is 0. */
  lemma PrescalerIs(ch: nat, cntH: bv16)
    ensures Rate(ch, cntH) ==
            if CountsUp(ch, cntH) || (cntH & 3) as nat == 0 then 1 else Pow2(4 + 2 * (cntH & 3) as nat)
  {
    TwoBits(cntH & 3);
    assert Pow2(6) == 64 && Pow2(8) == 256 && Pow2(10) == 1024;
  }

  lemma TwoBits(p: bv16)
    requires p < 4
    ensures p == 0 || p == 1 || p == 2 || p == 3
  {}

  /** The shift a control write stores is that rate's. */
  lemma RateIs(ch: nat, cntH: bv16)
    ensures Scale(ShiftOf(ch, cntH)) == Rate(ch, cntH)
  {}

  // ---------------------------------------------------------------------------------------------
  // Registers

  /** A masked write takes the bits under the mask and keeps the others. */
  lemma OverlayIs(before: bv16, mask: bv16, value: bv16)
    ensures Overlay(before, mask, value) & mask == value & mask && Overlay(before, mask, value) & !mask == before & !mask
  {}

  /** A write to a reload register changes it, under the mask, and nothing else of the machine. */
  lemma ReloadIs(sys: Sys, ch: nat, mask: bv16, value: bv16)
    requires Formed(sys) && ch < CHANNELS
    ensures var c := sys.w.channels[ch];
            Step(sys, WriteReload(ch, mask, value))
            == sys.(w := sys.w.(channels := sys.w.channels[ch := c.(cntL := Overlay(c.cntL, mask, value))]))
  {}

  /** The control register: start, interrupt, count-up and prescaler bits only. */
  lemma ControlIs(ch: nat, c: Channel, mask: bv16, value: bv16)
    ensures WriteControl(ch, c, mask, value).cntH == Overlay(c.cntH, mask & 0xC7, value)
    ensures WriteControl(ch, c, mask, value).cntL == c.cntL
  {}

  /** A read latches the value it returns, and changes nothing else of the machine. */
  lemma ReadIs(sys: Sys, ch: nat)
    requires Formed(sys) && ch < CHANNELS
    ensures var c := sys.w.channels[ch];
            Step(sys, ReadTimer(ch))
            == sys.(w := sys.w.(channels := sys.w.channels[ch := c.(value := ReadValue(ch, c, sys.s.now))]))
    ensures !Running(ch, sys.w.channels[ch]) ==> Step(sys, ReadTimer(ch)) == sys
  {
    var c := sys.w.channels[ch];
    if !Running(ch, c) { assert sys.w.channels[ch := c] == sys.w.channels; }
  }

  /** A rebase takes the clock off every schedule, down to 0, and touches no register. */
  lemma RebaseIs(w: World, now: nat, ch: nat)
    requires ValidWorld(w) && ch < CHANNELS
    ensures var c, r := w.channels[ch], OnRebase(w, now).channels[ch];
            r == c.(scheduled := Max(c.scheduled - now, 0), mark := c.mark.(anchor := c.mark.anchor - now))
  {}

  // ---------------------------------------------------------------------------------------------
  // Rates in force

  predicate RateOk(ch: nat, c: Channel) { Scale(c.shift) == Rate(ch, c.cntH) }

  predicate RatesOk(w: World)
    requires ValidWorld(w)
  {
    forall ch: nat :: ch < CHANNELS ==> RateOk(ch, w.channels[ch])
  }

  lemma NothingMasked(cntH: bv16, mask: bv16, value: bv16)
    requires (mask & 0xC7) & 0xFF == 0
    ensures Overlay(cntH, mask & 0xC7, value) == cntH
  {}

  lemma ControlKeepsRate(ch: nat, c: Channel, mask: bv16, value: bv16)
    requires RateOk(ch, c)
    ensures RateOk(ch, WriteControl(ch, c, mask, value))
  {
    if (mask & 0xC7) & 0xFF == 0 { NothingMasked(c.cntH, mask, value); }
    RateIs(ch, WriteControl(ch, c, mask, value).cntH);
  }

  lemma SameRates(w: World, v: World)
    requires ValidWorld(w) && ValidWorld(v) && SameTimers(w, v) && RatesOk(v)
    ensures RatesOk(w)
  {
    forall ch: nat | ch < CHANNELS ensures RateOk(ch, w.channels[ch]) {
      assert SameChannel(w.channels[ch], v.channels[ch]) && RateOk(ch, v.channels[ch]);
    }
  }

  lemma {:induction false} BatchKeepsRates(sys: Sys)
    requires Formed(sys) && RatesOk(sys.w)
    ensures Formed(AfterBatch(sys, EmuClient())) && RatesOk(AfterBatch(sys, EmuClient()).w)
    decreases Rank(sys.s)
  {
    var b := Best(sys.s, EVENTS);
    if b == NONE {
      NothingDue(sys);
    } else {
      DispatchKeepsFormed(sys);
      RequestsFixed(sys.w, sys.w, b, sys.s.now, sys.s.due[b], sys.s.due[b]);
      SameRates(AfterDispatch(sys).w, sys.w);
      AfterBatchStep(sys, EmuClient());
      BatchKeepsRates(AfterDispatch(sys));
    }
  }

  lemma RebaseKeepsRates(w: World, now: nat)
    requires ValidWorld(w) && RatesOk(w)
    ensures ValidWorld(OnRebase(w, now)) && RatesOk(OnRebase(w, now))
  {
    forall ch: nat | ch < CHANNELS ensures RateOk(ch, OnRebase(w, now).channels[ch]) { assert RateOk(ch, w.channels[ch]); }
  }

  lemma CheckKeepsRates(sys: Sys)
    requires Formed(sys) && RatesOk(sys.w)
    ensures Formed(Step(sys, Check)) && RatesOk(Step(sys, Check).w)
  {
    var a := CheckIs(sys);
    BatchKeepsRates(a.(s := a.s.(imm := a.s.imm, next := U32_MAX)));
    var d, e := FullCheckShape(a, EmuClient());
    RebaseKeepsRates(e.w, e.s.now);
  }

  lemma ChannelKeepsRates(w: World, ch: nat, c: Channel)
    requires ValidWorld(w) && RatesOk(w) && ch < CHANNELS && ValidChannel(c) && RateOk(ch, c)
    ensures var v := w.(channels := w.channels[ch := c]); ValidWorld(v) && RatesOk(v)
  {
    var v := w.(channels := w.channels[ch := c]);
    forall i: nat | i < CHANNELS ensures RateOk(i, v.channels[i]) { assert RateOk(i, w.channels[i]); }
  }

  /** The channel after a control write, scheduled or not. */
  lemma WrittenChannel(sys: Sys, op: Op) returns (c1: Channel)
    requires Formed(sys) && Allowed(sys, op) && op.WriteTimer? && RateOk(op.ch, sys.w.channels[op.ch])
    ensures ValidChannel(c1) && RateOk(op.ch, c1)
    ensures Formed(Step(sys, op)) && Step(sys, op).w == sys.w.(channels := sys.w.channels[op.ch := c1])
  {
    var c := sys.w.channels[op.ch];
    ControlIsValid(op.ch, c, op.mask, op.value);
    ControlKeepsRate(op.ch, c, op.mask, op.value);
    var written := WriteControl(op.ch, c, op.mask, op.value);
    RemainingRange(written);
    c1 := if NeedsSchedule(op.ch, c, written) then Anchored(written, sys.s.now) else written;
  }

  lemma WriteKeepsRates(sys: Sys, op: Op)
    requires Formed(sys) && RatesOk(sys.w) && Allowed(sys, op) && op.WriteTimer?
    ensures Formed(Step(sys, op)) && RatesOk(Step(sys, op).w)
  {
    assert RateOk(op.ch, sys.w.channels[op.ch]);
    var c1 := WrittenChannel(sys, op);
    ChannelKeepsRates(sys.w, op.ch, c1);
  }

  lemma StepKeepsRates(sys: Sys, op: Op)
    requires Formed(sys) && RatesOk(sys.w) && Allowed(sys, op)
    ensures Formed(Step(sys, op)) && RatesOk(Step(sys, op).w)
  {
    if op.Check? {
      CheckKeepsRates(sys);
    } else if op.WriteTimer? {
      WriteKeepsRates(sys, op);
    } else if op.WriteReload? || op.ReadTimer? {
      assert RateOk(op.ch, sys.w.channels[op.ch]);
      ChannelKeepsRates(sys.w, op.ch, Step(sys, op).w.channels[op.ch]);
    }
  }

  lemma {:induction false} RunKeepsRates(sys: Sys, ops: seq<Op>, last: Sys)
    requires Formed(sys) && RatesOk(sys.w) && IsRun(sys, ops, last)
    ensures Formed(last) && RatesOk(last.w)
    decreases ops
  {
    if ops != [] {
      StepKeepsRates(sys, ops[0]);
      RunKeepsRates(Step(sys, ops[0]), ops[1..], last);
    }
  }

  lemma BootRates()
    ensures Formed(Boot()) && RatesOk(Boot().w)
  {
    forall ch: nat | ch < CHANNELS ensures RateOk(ch, Boot().w.channels[ch]) { RateIs(ch, 0); }
  }

  /** In every run from power-on a channel counts at the rate its prescaler bits name. */
  lemma RunRates(ops: seq<Op>, last: Sys, ch: nat)
    requires IsRun(Boot(), ops, last) && ch < CHANNELS
    ensures Formed(last) && Scale(last.w.channels[ch].shift) == Rate(ch, last.w.channels[ch].cntH)
  {
    BootRates();
    RunKeepsRates(Boot(), ops, last);
    assert RateOk(ch, last.w.channels[ch]);
  }

  // ---------------------------------------------------------------------------------------------
  // Schedules

  /** A write that starts the channel. */
  predicate Starts(before: bv16, after: bv16) { !Started(before) && Started(after) }

  lemma SchedulingMasks(ch: nat, c: Channel, mask: bv16, value: bv16)
    requires NeedsSchedule(ch, c, WriteControl(ch, c, mask, value))
    ensures (mask & 0xC7) & 0xFF != 0
  {
    if (mask & 0xC7) & 0xFF == 0 { NothingMasked(c.cntH, mask, value); }
  }

  /** A control write that starts a channel, or changes its rate, outside count-up mode: its overflow is pending after
      the counts left from the reload value, or from the value last latched, at the rate just written. */
  lemma ControlSchedules(sys: Sys, ch: nat, mask: bv16, value: bv16, c: Channel, c1: Channel, start: nat) returns (t: Sys)
    requires Formed(sys) && ch < CHANNELS && c == sys.w.channels[ch] && c1 == WriteControl(ch, c, mask, value)
    requires Started(c1.cntH) && !CountsUp(ch, c1.cntH) && (Starts(c.cntH, c1.cntH) || c1.shift != c.shift)
    requires start == if Starts(c.cntH, c1.cntH) then c.cntL as nat else c.value
    ensures t == Step(sys, WriteTimer(ch, mask, value)) && Formed(t) && t.s.active[TIMER_0 + ch] && t.s.now == sys.s.now
    ensures t.s.due[TIMER_0 + ch] == t.w.channels[ch].scheduled
            == Min(sys.s.now + (TIME_OVERFLOW - start) * Rate(ch, c1.cntH), U32_MAX)
    ensures t.w.channels[ch].cntH == c1.cntH && t.w.channels[ch].shift == c1.shift
    ensures forall i: nat :: i < EVENTS && i != TIMER_0 + ch ==> t.s.active[i] == sys.s.active[i] && t.s.due[i] == sys.s.due[i]
    ensures forall i: nat :: i < CHANNELS && i != ch ==> t.w.channels[i] == sys.w.channels[i]
  {
    ControlIsValid(ch, c, mask, value);
    ControlStarts(ch, c, mask, value, c1, start);
    RemainingRange(c1);
    ScheduledAt(sys.s, Remaining(c1), TIMER_0 + ch);
    t := SetTimer(sys, ch, mask, value);
    SetTimerSchedules(sys, ch, mask, value, c1);
  }

  lemma SetTimerSchedules(sys: Sys, ch: nat, mask: bv16, value: bv16, c1: Channel)
    requires Formed(sys) && ch < CHANNELS && c1 == WriteControl(ch, sys.w.channels[ch], mask, value) && ValidChannel(c1)
    requires NeedsSchedule(ch, sys.w.channels[ch], c1)
    ensures 1 <= Remaining(c1) <= U32_MAX
    ensures SetTimer(sys, ch, mask, value)
            == sys.(w := sys.w.(channels := sys.w.channels[ch := Anchored(c1, sys.s.now)]),
                    s := Schedule(sys.s, Remaining(c1), TIMER_0 + ch))
  {
    RemainingRange(c1);
  }

  /** Where the count starts, and how fast it goes. */
  lemma ControlStarts(ch: nat, c: Channel, mask: bv16, value: bv16, c1: Channel, start: nat)
    requires ValidChannel(c) && c1 == WriteControl(ch, c, mask, value) && NeedsSchedule(ch, c, c1)
    requires start == if Starts(c.cntH, c1.cntH) then c.cntL as nat else c.value
    ensures c1.value == start && Scale(c1.shift) == Rate(ch, c1.cntH)
  {
    SchedulingMasks(ch, c, mask, value);
    RateIs(ch, c1.cntH);
  }

  lemma ScheduledAt(s: Sched, cycles: nat, ev: nat)
    requires Valid(s) && ev < EVENTS && 1 <= cycles <= U32_MAX
    ensures var t := Schedule(s, cycles, ev);
            && t.active[ev] && t.due[ev] == Min(s.now + cycles, U32_MAX) && t.now == s.now
            && forall i: nat :: i < EVENTS && i != ev ==> t.active[i] == s.active[i] && t.due[i] == s.due[i]
  {}

  /** What an overflow asks for above its own channel. */
  lemma {:induction false} CascadeAbove(w: World, ch: nat, due: nat, i: nat)
    requires ValidWorld(w) && ch < CHANNELS && i < ch
    ensures TimersOverflow(w, ch, due).0.channels[i] == w.channels[i]
    ensures forall a :: a in TimersOverflow(w, ch, due).1 ==> a.ev != TIMER_0 + i
    decreases CHANNELS - ch
  {
    var (w1, actions, overflow) := OverflowOne(w, ch, due);
    if overflow { CascadeAbove(w1, ch + 1, due, i); }
  }

  /** The overflow of a running channel reschedules it, whatever the cascade does above it. */
  lemma OverflowSplits(w: World, ch: nat, due: nat) returns (own: seq<Action>, more: seq<Action>)
    requires ValidWorld(w) && ch < CHANNELS && Running(ch, w.channels[ch])
    ensures TimersOverflow(w, ch, due).1 == own + more && (forall a :: a in more ==> a.FromDue? && a.ev != TIMER_0 + ch)
    ensures var c := w.channels[ch]; own == Again(TIMER_0 + ch, (TIME_OVERFLOW - c.cntL as nat) * Scale(c.shift))
    ensures TimersOverflow(w, ch, due).0.channels[ch] == OverflowOne(w, ch, due).0.channels[ch]
  {
    var (w1, actions, overflow) := OverflowOne(w, ch, due);
    own, more := actions, [];
    if overflow {
      more := TimersOverflow(w1, ch + 1, due).1;
      CascadeAbove(w1, ch + 1, due, ch);
    }
    assert actions + [] == actions;
  }

  /** What performing the handler's requests does to the channel's event. */
  lemma OverflowPerforms(s: Sched, w: World, ch: nat, due: nat, cycles: nat)
    requires Valid(s) && s.current == due && ValidWorld(w) && ch < CHANNELS && Running(ch, w.channels[ch])
    requires var c := w.channels[ch]; cycles == (TIME_OVERFLOW - c.cntL as nat) * Scale(c.shift) && 1 <= cycles <= U32_MAX
    ensures var t := Perform(s, TimersOverflow(w, ch, due).1);
            t.active[TIMER_0 + ch] && t.due[TIMER_0 + ch] == Min(due + cycles, U32_MAX)
  {
    var own, more := OverflowSplits(w, ch, due);
    OwnThenMore(s, TimersOverflow(w, ch, due).1, own, more, cycles, TIMER_0 + ch);
  }

  lemma OwnThenMore(s: Sched, all: seq<Action>, own: seq<Action>, more: seq<Action>, cycles: nat, ev: nat)
    requires Valid(s) && ev < EVENTS && 1 <= cycles <= U32_MAX && own == Again(ev, cycles) && all == own + more
    requires forall a :: a in more ==> a.FromDue? && a.ev != ev
    ensures Perform(s, all).active[ev] && Perform(s, all).due[ev] == Min(s.current + cycles, U32_MAX)
  {
    PerformConcat(s, own, more);
    PerformSingle(s, cycles, ev);
    PerformSpares(Perform(s, own), more, ev);
  }

  lemma OverflowAnchors(w: World, ch: nat, due: nat, cycles: nat)
    requires ValidWorld(w) && ch < CHANNELS && Running(ch, w.channels[ch])
    requires var c := w.channels[ch]; cycles == (TIME_OVERFLOW - c.cntL as nat) * Scale(c.shift)
    ensures var c, r := w.channels[ch], TimersOverflow(w, ch, due).0.channels[ch];
            && r.scheduled == Min(due + cycles, U32_MAX)
            && r.cntH == c.cntH && r.cntL == c.cntL && r.shift == c.shift
  {
    var own, more := OverflowSplits(w, ch, due);
  }

  lemma OverflowIs(s: Sched, w: World, ch: nat, t: Sched, v: World, cycles: nat)
    requires Valid(s) && ValidWorld(w) && ch < CHANNELS && Running(ch, w.channels[ch])
    requires var c := w.channels[ch]; cycles == (TIME_OVERFLOW - c.cntL as nat) * Scale(c.shift) && 1 <= cycles <= U32_MAX
    requires t == Perform(Take(s, TIMER_0 + ch), TimersOverflow(w, ch, s.due[TIMER_0 + ch]).1)
    requires v == TimersOverflow(w, ch, s.due[TIMER_0 + ch]).0
    ensures t.active[TIMER_0 + ch]
    ensures t.due[TIMER_0 + ch] == v.channels[ch].scheduled == Min(s.due[TIMER_0 + ch] + cycles, U32_MAX)
    ensures v.channels[ch].cntH == w.channels[ch].cntH && v.channels[ch].cntL == w.channels[ch].cntL
  {
    OverflowPerforms(Take(s, TIMER_0 + ch), w, ch, s.due[TIMER_0 + ch], cycles);
    OverflowAnchors(w, ch, s.due[TIMER_0 + ch], cycles);
  }

  /** The cycles of a full count. */
  lemma FullCycles(reload: nat, shift: nat, rate: nat) returns (cycles: nat)
    requires reload < TIME_OVERFLOW && Scale(shift) == rate
    ensures cycles == (TIME_OVERFLOW - reload) * Scale(shift) && cycles == (TIME_OVERFLOW - reload) * rate
    ensures 1 <= cycles <= U32_MAX
  {
    cycles := (TIME_OVERFLOW - reload) * rate;
    assert rate == 1 || rate == 64 || rate == 256 || rate == 1024;
  }

  lemma DispatchIsOverflow(s: Sched, w: World, ch: nat, t: Sched, v: World)
    requires Valid(s) && ValidWorld(w) && ch < CHANNELS
    requires t == DispatchOne(s, w, EmuClient(), TIMER_0 + ch).0 && v == DispatchOne(s, w, EmuClient(), TIMER_0 + ch).1
    ensures t == Perform(Take(s, TIMER_0 + ch), TimersOverflow(w, ch, s.due[TIMER_0 + ch]).1)
    ensures v == TimersOverflow(w, ch, s.due[TIMER_0 + ch]).0
  {}

  /** An overflow of a running channel puts the next one exactly a full count from the reload value ahead of its own due
      cycle, however late it is dispatched. */
  lemma OverflowSchedules(s: Sched, w: World, ch: nat, t: Sched, v: World) returns (cycles: nat)
    requires Valid(s) && ValidWorld(w) && ch < CHANNELS && Running(ch, w.channels[ch]) && RatesOk(w)
    requires t == DispatchOne(s, w, EmuClient(), TIMER_0 + ch).0 && v == DispatchOne(s, w, EmuClient(), TIMER_0 + ch).1
    ensures cycles == (TIME_OVERFLOW - w.channels[ch].cntL as nat) * Rate(ch, w.channels[ch].cntH)
    ensures ValidWorld(v) && Valid(t) && t.active[TIMER_0 + ch]
    ensures t.due[TIMER_0 + ch] == v.channels[ch].scheduled == Min(s.due[TIMER_0 + ch] + cycles, U32_MAX)
    ensures v.channels[ch].cntH == w.channels[ch].cntH && v.channels[ch].cntL == w.channels[ch].cntL
  {
    assert RateOk(ch, w.channels[ch]);
    cycles := FullCycles(w.channels[ch].cntL as nat, w.channels[ch].shift, Rate(ch, w.channels[ch].cntH));
    DispatchIsOverflow(s, w, ch, t, v);
    OverflowIs(s, w, ch, t, v, cycles);
  }

  // ---------------------------------------------------------------------------------------------
  // Count-up

  /** What a count-up channel holds after it has counted one overflow of the channel below. */
  function Counted(c: Channel): nat { if c.value == TIME_OVERFLOW - 1 then c.cntL as nat else c.value + 1 }

  /** What the overflow of a channel carries into it. */
  function Carried(ch: nat, cntL: bv16): nat { if ch < 3 then (cntL as nat + 1) % TIME_OVERFLOW else cntL as nat }

  lemma CarriedIs(ch: nat, cntL: bv16, cntH: bv16)
    requires 1 <= ch < CHANNELS && CountsUp(ch, cntH)
    ensures Reloaded(ch, cntL, cntH) == Carried(ch, cntL)
  {}

  lemma CarriedChannel(w: World, ch: nat, due: nat)
    requires ValidWorld(w) && 1 <= ch < CHANNELS && Started(w.channels[ch].cntH) && CountsUp(ch, w.channels[ch].cntH)
    ensures var c := w.channels[ch];
            TimersOverflow(w, ch, due).0.channels[ch] == c.(value := Reloaded(ch, c.cntL, c.cntH))
  {
    var (w1, actions, overflow) := OverflowOne(w, ch, due);
    if overflow { CascadeAbove(w1, ch + 1, due, ch); }
  }

  /** The channel above an overflow. */
  lemma NextChannelIs(w: World, ch: nat, due: nat)
    requires ValidWorld(w) && ch < CHANNELS - 1
    requires Started(w.channels[ch + 1].cntH) && CountsUp(ch + 1, w.channels[ch + 1].cntH)
    ensures var c, n := w.channels[ch], w.channels[ch + 1];
            TimersOverflow(w, ch, due).0.channels[ch + 1] ==
            if Carries(ch, c.cntL, c.cntH) then n.(value := Reloaded(ch + 1, n.cntL, n.cntH)) else n
  {
    var (w1, actions, overflow) := OverflowOne(w, ch, due);
    if overflow { CarriedChannel(w1, ch + 1, due); }
  }

  /** The cascade test: the overflowing channel's own count-up bit, and a reload value that is the last one. */
  lemma CarriesIff(ch: nat, cntL: bv16, cntH: bv16)
    requires ch < 3 && Started(cntH)
    ensures Carries(ch, cntL, cntH) <==> cntH & 4 != 0 && cntL == 0xFFFF
  {
    LastValue(cntL);
  }

  lemma LastValue(cntL: bv16)
    ensures (cntL as nat + 1) % TIME_OVERFLOW == 0 <==> cntL == 0xFFFF
  {
    LastReload(cntL);
    LastNumber(cntL as nat);
  }

  lemma LastNumber(n: nat)
    requires n < TIME_OVERFLOW
    ensures (n + 1) % TIME_OVERFLOW == 0 <==> n == TIME_OVERFLOW - 1
  {}

  /** So a count-up channel counts the overflow below it exactly in the corner where that comes to one more. */
  lemma CountUpIff(w: World, ch: nat, due: nat, c: Channel, n: Channel, carried: nat, counted: nat)
    requires ValidWorld(w) && ch < CHANNELS - 1 && c == w.channels[ch] && n == w.channels[ch + 1]
    requires Started(c.cntH) && Started(n.cntH) && CountsUp(ch + 1, n.cntH)
    requires carried == Carried(ch + 1, n.cntL) && counted == Counted(n)
    ensures TimersOverflow(w, ch, due).0.channels[ch + 1].value == counted <==>
              if c.cntH & 4 != 0 && c.cntL == 0xFFFF then carried == counted else n.value == counted
  {
    NextChannelIs(w, ch, due);
    CarriesIff(ch, c.cntL, c.cntH);
    CarriedIs(ch + 1, n.cntL, n.cntH);
  }

  lemma LastReload(cntL: bv16)
    ensures cntL as nat == 0xFFFF <==> cntL == 0xFFFF
  {}

  /** Channel 0 free-running and channel 1 counting its overflows: the overflow leaves channel 1 at 0. */
  lemma CountUpStands(due: nat) returns (w: World)
    ensures ValidWorld(w) && Running(0, w.channels[0]) && Started(w.channels[1].cntH) && CountsUp(1, w.channels[1].cntH)
    ensures TimersOverflow(w, 0, due).0.channels[1].value == w.channels[1].value == 0 && Counted(w.channels[1]) == 1
  {
    var idle := Channel(0, 0, 0, 0, 0, Mark(0, 0, 1));
    w := World([Channel(0, 0x80, 0, 0, 0, Mark(0, 0, 1)), Channel(0, 0x84, 0, 0, 0, Mark(0, 0, 1)), idle, idle], 0, 0);
    NextChannelIs(w, 0, due);
  }
}
