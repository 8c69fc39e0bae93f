/**
 Reading a timer, in runs in which no check loses the scheduler's bound.

 - `TimerDueIsScheduled`: an active timer event is due at the channel's recorded schedule;
 - `TimerReadsIff`: the channel then reads as its start value plus the elapsed prescaled cycles, rounded up, modulo
   2^16, exactly when the prescaler in force counts the remaining cycles like the one it was scheduled with, over a
   whole period when they are the same (`ReadsThroughoutIff`); `TimerCanMisread` is a run where they are not.
 */
module TimerReads {
  import opened Arithmetic
  import opened Clients
  import opened EmuSystem
  import opened MainLoop
  import opened Scheduler

  /** Whenever a timer's event is active, its due cycle is the channel's recorded schedule, made at the marked
      cycle for the counts the marked value left; between checks it is not behind the clock. */
  lemma TimerDueIsScheduled(sys: Sys, ch: nat)
    requires Reachable(sys) && ch < CHANNELS
    ensures Formed(sys)
    ensures sys.s.active[TIMER_0 + ch] ==>
              var c := sys.w.channels[ch];
              && sys.s.due[TIMER_0 + ch] == c.scheduled == c.mark.anchor + (TIME_OVERFLOW - c.mark.start) * c.mark.scale
              && c.mark.anchor <= sys.s.now && (!sys.owed ==> sys.s.now < c.scheduled)
  {
    ReachableInv(sys);
    assert TimerOk(sys.s, sys.w, ch);
    assert !sys.owed ==> !IsDue(sys.s, TIMER_0 + ch);
  }

  /** A counter that started at `start` and has counted for `elapsed` cycles, rounding up. */
  function Elapsed(start: nat, elapsed: nat, scale: nat): nat
    requires scale > 0
  {
    (start + (elapsed + scale - 1) / scale) % TIME_OVERFLOW
  }

  /** A running timer with an active event reads, up to its due cycle, as the value it was scheduled from plus
      the cycles since, in counts of its schedule and rounded up, modulo 2^16: exactly when the prescaler in
      force divides what is left into as many counts, modulo 2^16, as the one it was scheduled with. */
  lemma TimerReadsIff(sys: Sys, ch: nat)
    requires Reachable(sys) && Formed(sys) && ch < CHANNELS && Running(ch, sys.w.channels[ch])
    requires sys.s.active[TIMER_0 + ch] && sys.s.now <= sys.w.channels[ch].scheduled
    ensures var c := sys.w.channels[ch];
            && c.mark.scale > 0 && c.mark.anchor <= sys.s.now
            && var left := c.scheduled - sys.s.now;
            && (ReadValue(ch, c, sys.s.now) == Elapsed(c.mark.start, sys.s.now - c.mark.anchor, c.mark.scale) <==>
                left / Scale(c.shift) % TIME_OVERFLOW == left / c.mark.scale % TIME_OVERFLOW)
            && (c.mark.scale == Scale(c.shift) ==>
                ReadValue(ch, c, sys.s.now) == Elapsed(c.mark.start, sys.s.now - c.mark.anchor, c.mark.scale))
  {
    TimerDueIsScheduled(sys, ch);
    ScaleKnown(sys, ch);
    MarkedReadsIff(sys.w.channels[ch], ch, sys.s.now);
  }

  lemma MarkedReadsIff(c: Channel, ch: nat, now: nat)
    requires ValidChannel(c) && Marked(c) && Running(ch, c) && c.mark.anchor <= now <= c.scheduled
    ensures var left := c.scheduled - now;
            ReadValue(ch, c, now) == Elapsed(c.mark.start, now - c.mark.anchor, c.mark.scale) <==>
              left / Scale(c.shift) % TIME_OVERFLOW == left / c.mark.scale % TIME_OVERFLOW
  {
    var left := c.scheduled - now;
    assert left % (U32_MAX + 1) == left;
    ReadingIff(c.mark.start, c.mark.scale, c.shift, left);
  }

  lemma ScaleKnown(sys: Sys, ch: nat)
    requires Reachable(sys) && Formed(sys) && ch < CHANNELS && sys.s.active[TIMER_0 + ch]
    ensures Marked(sys.w.channels[ch])
  {
    ReachableInv(sys);
    assert TimerOk(sys.s, sys.w, ch);
  }

  /** Reading `left` cycles before the overflow of a schedule made at `scale`. */
  lemma ReadingIff(start: nat, scale: nat, shift: nat, left: nat)
    requires start < TIME_OVERFLOW && scale in {1, 64, 256, 1024} && left <= (TIME_OVERFLOW - start) * scale
    ensures Reading(left, shift) == Elapsed(start, (TIME_OVERFLOW - start) * scale - left, scale) <==>
              left / Scale(shift) % TIME_OVERFLOW == left / scale % TIME_OVERFLOW
  {
    RoundUp(TIME_OVERFLOW - start, left, scale);
    NegatedMod(left / Scale(shift), left / scale);
  }

  /** Counting down from n periods, the counts done are n minus the whole periods left, when rounded up. */
  lemma RoundUp(n: int, left: int, scale: nat)
    requires scale in {1, 64, 256, 1024} && 0 <= left <= n * scale
    ensures (n * scale - left + scale - 1) / scale == n - left / scale
  {}

  lemma NegatedMod(a: int, b: int)
    ensures (0x1_0000 - a) % 0x1_0000 == (0x1_0000 - b) % 0x1_0000 <==> a % 0x1_0000 == b % 0x1_0000
  {}

  /** Over a whole period the reading is right if and only if the prescaler in force is the scheduled one. */
  lemma ReadsThroughoutIff(start: nat, scale: nat, shift: nat)
    requires start < TIME_OVERFLOW && scale in {1, 64, 256, 1024} && shift in {0, 6, 8, 10}
    ensures (forall left: nat :: left <= (TIME_OVERFLOW - start) * scale ==>
               Reading(left, shift) == Elapsed(start, (TIME_OVERFLOW - start) * scale - left, scale))
            <==> Scale(shift) == scale
  {
    var total := (TIME_OVERFLOW - start) * scale;
    if Scale(shift) == scale {
      forall left: nat | left <= total ensures Reading(left, shift) == Elapsed(start, total - left, scale) {
        ReadingIff(start, scale, shift, left);
      }
    } else {
      var left := MisreadsAt(start, scale, shift);
    }
  }

  /** One count of the finer prescaler before the overflow, the two disagree. */
  lemma MisreadsAt(start: nat, scale: nat, shift: nat) returns (left: nat)
    requires start < TIME_OVERFLOW && scale in {1, 64, 256, 1024} && shift in {0, 6, 8, 10} && Scale(shift) != scale
    ensures left <= (TIME_OVERFLOW - start) * scale
    ensures Reading(left, shift) != Elapsed(start, (TIME_OVERFLOW - start) * scale - left, scale)
  {
    left := if scale < Scale(shift) then scale else Scale(shift);
    assert left <= 1 * scale <= (TIME_OVERFLOW - start) * scale;
    ReadingIff(start, scale, shift, left);
    FinerCount(left, scale, Scale(shift));
  }

  lemma FinerCount(left: nat, a: nat, b: nat)
    requires a in {1, 64, 256, 1024} && b in {1, 64, 256, 1024} && a != b && left == Min(a, b)
    ensures left / b % TIME_OVERFLOW != left / a % TIME_OVERFLOW
  {}

  /** Four control writes to a channel with reload 1: start it at a count of 64 cycles, set count-up, clear its
      prescaler, clear count-up. */
  function Written(shift: nat, cntH: bv16): Channel { Channel(1, cntH, 1, shift, 0x3F_FFC0, Mark(0, 1, 64)) }

  lemma OnlyFirstSchedules()
    ensures var idle := Channel(1, 0, 0, 0, 0, Mark(0, 0, 1));
            var started := WriteControl(1, idle, 0xFFFF, 0x81);
            NeedsSchedule(1, idle, started) && ValidChannel(started) && Anchored(started, 0) == Written(6, 0x81)
    ensures Unscheduled(Written(6, 0x81), 0x85, Written(0, 0x85))
    ensures Unscheduled(Written(0, 0x85), 0x84, Written(0, 0x84))
    ensures Unscheduled(Written(0, 0x84), 0x80, Written(0, 0x80))
  {}

  /** A write to channel 1 that does not schedule it. */
  predicate Unscheduled(before: Channel, value: bv16, after: Channel) {
    WriteControl(1, before, 0xFFFF, value) == after && !NeedsSchedule(1, before, after)
  }

  lemma WriteUnscheduled(sys: Sys, value: bv16, after: Channel) returns (t: Sys)
    requires Reachable(sys) && Formed(sys) && Unscheduled(sys.w.channels[1], value, after)
    ensures Reachable(t) && Formed(t) && t.s == sys.s && t.w.channels[1] == after
  {
    t := Write(sys, WriteTimer(1, 0xFFFF, value));
  }

  /** The same in the first cycle of a run: only the first write schedules, and the counter reads 64 where it
      holds 1. */
  lemma TimerCanMisread() returns (sys: Sys)
    ensures Reachable(sys) && Formed(sys) && sys.s.now == 0
    ensures var c := sys.w.channels[1];
            && Running(1, c) && sys.s.active[TIMER_0 + 1] && c.mark == Mark(0, 1, 64) && c.shift == 0
            && ReadValue(1, c, 0) == 64 && Elapsed(1, 0, 64) == 1
  {
    OnlyFirstSchedules();
    Misreads();
    sys := StartedChannel();
    sys := WriteUnscheduled(sys, 0x85, Written(0, 0x85));
    sys := WriteUnscheduled(sys, 0x84, Written(0, 0x84));
    sys := WriteUnscheduled(sys, 0x80, Written(0, 0x80));
  }

  lemma Misreads()
    ensures Running(1, Written(0, 0x80)) && ValidChannel(Written(0, 0x80))
    ensures ReadValue(1, Written(0, 0x80), 0) == 64 && Elapsed(1, 0, 64) == 1
  {}

  lemma LoadedChannel() returns (sys: Sys)
    ensures Reachable(sys) && Formed(sys) && sys.s.now == 0 && sys.w.channels[1] == Channel(1, 0, 0, 0, 0, Mark(0, 0, 1))
  {
    BootReachable();
    sys := Write(Boot(), WriteReload(1, 0xFFFF, 1));
  }

  lemma StartedChannel() returns (sys: Sys)
    ensures Reachable(sys) && Formed(sys) && sys.s.now == 0 && sys.s.active[TIMER_0 + 1]
    ensures sys.w.channels[1] == Written(6, 0x81)
  {
    var loaded := LoadedChannel();
    OnlyFirstSchedules();
    sys := Write(loaded, WriteTimer(1, 0xFFFF, 0x81));
    ScheduledActive(loaded, 0xFFFF, 0x81, sys);
  }

  lemma ScheduledActive(loaded: Sys, mask: bv16, value: bv16, sys: Sys)
    requires Formed(loaded) && sys == SetTimer(loaded, 1, mask, value)
    requires NeedsSchedule(1, loaded.w.channels[1], WriteControl(1, loaded.w.channels[1], mask, value))
    ensures Formed(sys) ==> sys.s.active[TIMER_0 + 1] && sys.s.now == loaded.s.now
  {}
}
