/**
 The cycle manager as the emulator runs it: fields updated in place, and the leading-zero scans over
 the event words. Every operation is proved to be its counterpart in `Scheduler`.
 */
module CycleManagerImpl {
  import opened Arithmetic
  import opened Scheduler

  function LeadingZeros(w: seq<bool>): (n: nat)
    ensures n <= |w| && (forall i :: 0 <= i < n ==> !w[i]) && (n < |w| ==> w[n])
  {
    if w == [] || w[0] then 0 else 1 + LeadingZeros(w[1..])
  }

  /** Shift left by less than the word size; a shift by 32 would overflow. */
  function ShiftLeft(w: Word, k: nat): Word
    requires k < WORD
  {
    w[k..] + seq(k, _ => false)
  }

  lemma {:induction false} BestSkips(s: Sched, m: nat, n: nat)
    requires Valid(s) && m <= n <= EVENTS && forall i :: m <= i < n ==> !s.active[i]
    ensures Best(s, n) == Best(s, m)
    decreases n
  {
    if m < n { BestSkips(s, m, n - 1); }
  }

  /** One more event seen by the scan, after some that are not active. */
  lemma BestNext(s: Sched, m: nat, n: nat, best: nat, bestCycle: nat)
    requires Valid(s) && m <= n < EVENTS && (forall i :: m <= i < n ==> !s.active[i]) && s.active[n] && best == Best(s, m)
    requires bestCycle == if best == NONE then U32_MAX else s.due[best]
    ensures Best(s, n + 1) == if s.due[n] <= s.now && s.due[n] < bestCycle then n else best
  {
    BestSkips(s, m, n);
  }

  lemma LeastDueNext(s: Sched, n: nat, bound: nat)
    requires Valid(s) && n < EVENTS && s.active[n]
    ensures LeastDue(s, n + 1, bound) == Min(s.due[n], LeastDue(s, n, bound))
  {}

  lemma {:induction false} LeastDueSkips(s: Sched, m: nat, n: nat, bound: nat)
    requires Valid(s) && m <= n <= EVENTS && forall i :: m <= i < n ==> !s.active[i]
    ensures LeastDue(s, n, bound) == LeastDue(s, m, bound)
    decreases n
  {
    if m < n { LeastDueSkips(s, m, n - 1, bound); }
  }

  lemma {:induction false} RunImmSkips<W>(s: Sched, w: W, c: Client<W>, pending: Word, m: nat, n: nat)
    requires Valid(s) && m <= n <= IMM_EVENTS && forall i :: m <= i < n ==> !pending[i]
    ensures RunImm(s, w, c, pending, m) == RunImm(s, w, c, pending, n)
    decreases n - m
  {
    if m < n { RunImmSkips(s, w, c, pending, m + 1, n); }
  }

  lemma LogAssociates(log: seq<Dispatch>, d: Dispatch, rest: seq<Dispatch>)
    ensures log + ([d] + rest) == (log + [d]) + rest
  {}

  /** What a scan has left: the word shifted past the `offset` bits it has seen. */
  ghost predicate Rest(word: Word, bits: Word, offset: nat)
  {
    offset < WORD && word == bits[offset..] + seq(offset, _ => false)
  }

  lemma AllClear(word: Word)
    requires |word| == WORD
    ensures LeadingZeros(word) == WORD ==> word == NoBits()
  {
  }

  /** The next set bit of a scan over a word whose bits from `limit` on are clear. */
  lemma NextBit(word: Word, bits: Word, offset: nat, limit: nat)
    requires Rest(word, bits, offset) && word != NoBits() && offset <= limit < WORD
    requires forall i :: limit <= i < WORD ==> !bits[i]
    ensures offset + LeadingZeros(word) < limit && bits[offset + LeadingZeros(word)]
    ensures forall i :: offset <= i < offset + LeadingZeros(word) ==> !bits[i]
    ensures Rest(ShiftLeft(word, LeadingZeros(word) + 1), bits, offset + LeadingZeros(word) + 1)
  {
    var z := LeadingZeros(word);
    AllClear(word);
    assert word[z];
    assert z < WORD - offset;
    forall i | offset <= i < offset + z ensures !bits[i] { assert !word[i - offset]; }
    assert bits[offset + z];
    assert ShiftLeft(word, z + 1) == bits[offset + z + 1..] + seq(offset + z + 1, _ => false);
  }

  lemma ScanEnds(word: Word, bits: Word, offset: nat)
    requires Rest(word, bits, offset) && word == NoBits()
    ensures forall i :: offset <= i < WORD ==> !bits[i]
  {
    forall i | offset <= i < WORD ensures !bits[i] { assert !word[i - offset]; }
  }

  class CycleManager {
    var cycleCount: nat
    var events: seq<nat>
    var nextEventCycle: nat
    var activeEvents: Word
    var activeImmEvents: Word
    var currentEventDue: nat

    function State(): Sched
      reads this
    {
      Sched(cycleCount, events, activeEvents, nextEventCycle, activeImmEvents, currentEventDue)
    }

    constructor ()
      ensures State() == Sched(0, seq(EVENTS, _ => 0), NoBits(), U32_MAX, NoBits(), 0)
      ensures Valid(State()) && Bound(State())
    {
      cycleCount, events, nextEventCycle := 0, seq(EVENTS, _ => 0), U32_MAX;
      activeEvents, activeImmEvents, currentEventDue := NoBits(), NoBits(), 0;
    }

    method DoAddCycles(cycles: nat)
      requires Valid(State()) && cycles < 0x1_0000
      modifies this`cycleCount
      ensures State() == AddCycles(old(State()), cycles) && Valid(State())
    {
      cycleCount := (cycleCount + cycles) % (U32_MAX + 1);
    }

    method DoScheduleImm(ev: nat)
      requires Valid(State()) && ev < IMM_EVENTS
      modifies this`activeImmEvents
      ensures State() == ScheduleImm(old(State()), ev) && Valid(State())
    {
      activeImmEvents := activeImmEvents[ev := true];
    }

    method DoSchedule(cycles: nat, ev: nat)
      requires Valid(State()) && ev < EVENTS && cycles <= U32_MAX
      modifies this`events, this`activeEvents, this`nextEventCycle
      ensures State() == Schedule(old(State()), cycles, ev) && Valid(State())
    {
      var inCycles := Max(cycles, 1);
      if U32_MAX - inCycles < cycleCount {
        inCycles := U32_MAX - cycleCount;
      }
      var eventCycle := cycleCount + inCycles;
      events := events[ev := eventCycle];
      activeEvents := activeEvents[ev := true];
      if eventCycle < nextEventCycle {
        nextEventCycle := eventCycle;
      }
    }

    method DoScheduleFromDue(cycles: nat, ev: nat)
      requires Valid(State()) && ev < EVENTS && 1 <= cycles <= U32_MAX
      modifies this`events, this`activeEvents, this`nextEventCycle
      ensures State() == ScheduleFromDue(old(State()), cycles, ev) && Valid(State())
    {
      var eventCycle := Min(currentEventDue + cycles, U32_MAX);
      events := events[ev := eventCycle];
      activeEvents := activeEvents[ev := true];
      if eventCycle < nextEventCycle {
        nextEventCycle := eventCycle;
      }
    }

    /** Never moves the clock backwards, although a catch-up can leave the next event in the past. */
    method DoJumpToNextEvent()
      requires Valid(State())
      modifies this`cycleCount
      ensures State() == JumpToNextEvent(old(State())) && Valid(State()) && cycleCount >= old(cycleCount)
    {
      if nextEventCycle > cycleCount {
        cycleCount := nextEventCycle;
      }
    }

    /** A handler's requests, carried out in order. */
    method DoPerform(actions: seq<Action>)
      requires Valid(State())
      modifies this
      ensures State() == Perform(old(State()), actions) && Valid(State())
    {
      var i := 0;
      assert actions[0..] == actions;
      while i < |actions|
        invariant 0 <= i <= |actions| && Valid(State())
        invariant Perform(State(), actions[i..]) == Perform(old(State()), actions)
      {
        assert actions[i..][0] == actions[i] && actions[i..][1..] == actions[i + 1..];
        match actions[i] {
          case In(cycles, ev) => DoSchedule(cycles, ev);
          case FromDue(cycles, ev) => DoScheduleFromDue(cycles, ev);
          case Imm(ev) => DoScheduleImm(ev);
        }
        i := i + 1;
      }
      assert actions[i..] == [];
    }

    /** The scan for the first due event in dispatch order. */
    method PickDue() returns (best: nat)
      requires Valid(State())
      ensures best == Best(State(), EVENTS)
    {
      ghost var s := State();
      var bestCycle := U32_MAX;
      best := NONE;
      var word, offset := activeEvents, 0;
      while word != NoBits()
        invariant offset <= EVENTS && Rest(word, s.active, offset)
        invariant best == Best(s, offset) && bestCycle == if best == NONE then U32_MAX else s.due[best]
        decreases EVENTS - offset
      {
        NextBit(word, s.active, offset, EVENTS);
        var zeros := LeadingZeros(word);
        var index := zeros + offset;
        BestNext(s, offset, index, best, bestCycle);
        var eventCycle := events[index];
        if eventCycle <= cycleCount && eventCycle < bestCycle {
          bestCycle := eventCycle;
          best := index;
        }
        word := ShiftLeft(word, zeros + 1);
        offset := offset + zeros + 1;
      }
      ScanEnds(word, s.active, offset);
      BestSkips(s, offset, EVENTS);
    }

    /** The scan that lowers the cached bound to the least active due cycle. */
    method RecomputeNext()
      requires Valid(State())
      modifies this`nextEventCycle
      ensures State() == old(State()).(next := LeastDue(old(State()), EVENTS, old(nextEventCycle)))
    {
      ghost var s := State();
      var word, offset := activeEvents, 0;
      while word != NoBits()
        invariant offset <= EVENTS && Rest(word, activeEvents, offset)
        invariant nextEventCycle == LeastDue(s, offset, s.next)
        decreases EVENTS - offset
      {
        NextBit(word, activeEvents, offset, EVENTS);
        var zeros := LeadingZeros(word);
        var index := zeros + offset;
        LeastDueSkips(s, offset, index, s.next);
        LeastDueNext(s, index, s.next);
        if events[index] < nextEventCycle {
          nextEventCycle := events[index];
        }
        word := ShiftLeft(word, zeros + 1);
        offset := offset + zeros + 1;
      }
      ScanEnds(word, activeEvents, offset);
      LeastDueSkips(s, offset, EVENTS, s.next);
    }

    method OnOverflow()
      requires Valid(State()) && NoneBehind(State())
      modifies this`events, this`nextEventCycle, this`cycleCount
      ensures State() == Rebase(old(State())) && Valid(State())
    {
      ghost var s := State();
      var i := 0;
      while i < EVENTS
        invariant 0 <= i <= EVENTS == |events| && cycleCount == s.now && nextEventCycle == s.next
        invariant forall j :: 0 <= j < i ==> events[j] == if activeEvents[j] then s.due[j] - cycleCount else s.due[j]
        invariant forall j :: i <= j < EVENTS ==> events[j] == s.due[j]
      {
        if activeEvents[i] {
          events := events[i := events[i] - cycleCount];
        }
        i := i + 1;
      }
      assert events == Rebase(s).due;
      nextEventCycle := (nextEventCycle - cycleCount) % (U32_MAX + 1);
      cycleCount := 0;
    }

    /** The dispatch loop over immediate events. */
    method RunImmEvents<W>(w: W, c: Client<W>) returns (w': W)
      requires Valid(State())
      modifies this
      ensures (State(), w') == RunImm(old(State()).(imm := NoBits()), w, c, old(activeImmEvents), 0)
      ensures Valid(State())
    {
      ghost var target := RunImm(State().(imm := NoBits()), w, c, activeImmEvents, 0);
      ghost var pending := activeImmEvents;
      var word, offset := activeImmEvents, 0;
      activeImmEvents := NoBits();
      w' := w;
      while word != NoBits()
        invariant offset <= IMM_EVENTS && Rest(word, pending, offset) && Valid(State())
        invariant RunImm(State(), w', c, pending, offset) == target
        decreases IMM_EVENTS - offset
      {
        NextBit(word, pending, offset, IMM_EVENTS);
        var zeros := LeadingZeros(word);
        var index := zeros + offset;
        RunImmSkips(State(), w', c, pending, offset, index);
        var (w1, actions) := c.onImm(w', index, cycleCount);
        DoPerform(actions);
        w' := w1;
        word := ShiftLeft(word, zeros + 1);
        offset := offset + zeros + 1;
      }
      ScanEnds(word, pending, offset);
      RunImmSkips(State(), w', c, pending, offset, IMM_EVENTS);
    }

    /** Clears the event, records its due cycle and calls its handler. */
    method DispatchEvent<W>(best: nat, w: W, c: Client<W>) returns (w': W, ghost d: Dispatch)
      requires Valid(State()) && best < EVENTS
      modifies this
      ensures (State(), w', d) == DispatchOne(old(State()), w, c, best) && Valid(State())
    {
      activeEvents := activeEvents[best := false];
      currentEventDue := events[best];
      d := Dispatch(best, events[best], c.onEvent(w, best, cycleCount, events[best]).1);
      var (w1, actions) := c.onEvent(w, best, cycleCount, events[best]);
      DoPerform(actions);
      w' := w1;
    }

    /** Dispatches until nothing is due. */
    method RunDueEvents<W>(w: W, c: Client<W>) returns (w': W, ghost log: seq<Dispatch>)
      requires Valid(State())
      modifies this
      ensures (State(), w', log) == Batch(old(State()), w, c) && Valid(State())
    {
      ghost var target := Batch(State(), w, c);
      w', log := w, [];
      var best := PickDue();
      while best != NONE
        invariant Valid(State()) && cycleCount == old(cycleCount) && best == Best(State(), EVENTS)
        invariant Batch(State(), w', c).0 == target.0 && Batch(State(), w', c).1 == target.1
        invariant log + Batch(State(), w', c).2 == target.2
        decreases Rank(State())
      {
        ghost var s0, w0 := State(), w';
        ghost var d;
        w', d := DispatchEvent(best, w', c);
        BatchUnfolds(s0, w0, c, State(), w', d);
        LogAssociates(log, d, Batch(State(), w', c).2);
        log := log + [d];
        best := PickDue();
      }
      assert log + Batch(State(), w', c).2 == log;
    }

    /** `cm_check_events`. */
    method DoCheckEvents<W>(w: W, c: Client<W>) returns (w': W, fired: bool)
      requires Valid(State())
      modifies this
      ensures var r := Scheduler.CheckEvents(old(State()), w, c);
              State() == r.s && w' == r.w && fired == r.fired
    {
      w' := RunImmEvents(w, c);
      if cycleCount < nextEventCycle {
        return w', false;
      }
      ghost var s1, w1 := State().(next := U32_MAX), w';
      nextEventCycle := U32_MAX;
      ghost var log;
      w', log := RunDueEvents(w', c);
      BatchDrains(s1, w1, c);
      DrainedNoneBehind(State(), State().(next := LeastDue(State(), EVENTS, nextEventCycle)));
      RecomputeNext();
      if cycleCount > REBASE_ABOVE {
        w' := c.onRebase(w', cycleCount);
        OnOverflow();
      }
      fired := true;
    }
  }
}
