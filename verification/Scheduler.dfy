/**
 The cycle manager: seven timed events with absolute due cycles, five immediate ones, and the loop
 that dispatches everything that is due.

 Handlers are arbitrary code that reschedules through the scheduler's own operations; they are modelled
 as functions from the client's state to its new state and the scheduling operations they perform.

 Main results, for every client and every state:
 - `DispatchOrder`, `BatchDrains`, `NoEventMissed`: a batch terminates (the measure of `Batch`),
   dispatches in strictly increasing (due cycle, table index) order even across catch-up reschedules,
   leaves nothing due, and dispatches every event that was due unless another handler moved it;
 - `CheckKeepsBoundIff`: `next_event_cycle` stays a lower bound of every active due cycle, so that
   `EarlyReturnIsSafe`: returning early never skips an event, exactly when the clock rebase is not
   entered with `next_event_cycle` behind the clock (`RebaseKeepsBoundIff`, `BehindIffCatchUp`,
   `RebaseCanLoseEvents`);
 - `CheckOverdueIff`: a check ends with an active event at or before the clock exactly at the last cycle of the
   32-bit clock, where an event is never dispatched.
 */
module Scheduler {
  import opened Arithmetic

  const EVENTS := 7
  const IMM_EVENTS := 5
  const WORD := 32
  const U32_MAX := 0xFFFF_FFFF
  const REBASE_ABOVE := 0x7FFF_FFFF
  const NONE := EVENTS

  // ---------------------------------------------------------------------------------------------
  // State

  /** A 32-bit word, most significant bit first: event i owns bit 31 - i, that is index i. */
  type Word = w: seq<bool> | |w| == WORD witness seq(WORD, _ => false)

  function NoBits(): Word { seq(WORD, _ => false) }

  datatype Sched = Sched(now: nat, due: seq<nat>, active: Word, next: nat, imm: Word, current: nat)

  predicate Valid(s: Sched) {
    && |s.due| == EVENTS
    && (forall i :: EVENTS <= i < WORD ==> !s.active[i])
    && (forall i :: IMM_EVENTS <= i < WORD ==> !s.imm[i])
    && (forall i :: 0 <= i < EVENTS ==> s.due[i] <= U32_MAX)
    && s.now <= U32_MAX && s.next <= U32_MAX && s.current <= U32_MAX
  }

  /** What a handler may ask of the scheduler. */
  datatype RawAction =
    | In(cycles: nat, ev: nat)       // schedule
    | FromDue(cycles: nat, ev: nat)  // schedule_from_due, which asserts cycles >= 1
    | Imm(ev: nat)                   // schedule_imm

  predicate IsAction(a: RawAction) {
    match a
    case In(cycles, ev) => cycles <= U32_MAX && ev < EVENTS
    case FromDue(cycles, ev) => 1 <= cycles <= U32_MAX && ev < EVENTS
    case Imm(ev) => ev < IMM_EVENTS
  }

  type Action = a: RawAction | IsAction(a) witness In(1, 0)

  /** The handler tables. A timed handler sees the clock and its own due cycle. */
  datatype Client<!W> = Client(
    onEvent: (W, nat, nat, nat) -> (W, seq<Action>),
    onImm: (W, nat, nat) -> (W, seq<Action>),
    onRebase: (W, nat) -> W)

  /** One dispatched event: its table index, its due cycle and what its handler asked for. */
  datatype Dispatch = Dispatch(index: nat, due: nat, actions: seq<Action>)

  // ---------------------------------------------------------------------------------------------
  // Operations

  function SetEvent(s: Sched, ev: nat, at: nat): Sched
    requires |s.due| == EVENTS && ev < EVENTS
  {
    s.(due := s.due[ev := at], active := s.active[ev := true], next := if at < s.next then at else s.next)
  }

  function Schedule(s: Sched, cycles: nat, ev: nat): Sched
    requires Valid(s) && ev < EVENTS && cycles <= U32_MAX
  {
    var c := Max(cycles, 1);
    SetEvent(s, ev, s.now + if U32_MAX - c < s.now then U32_MAX - s.now else c)
  }

  function ScheduleFromDue(s: Sched, cycles: nat, ev: nat): Sched
    requires Valid(s) && ev < EVENTS
  {
    SetEvent(s, ev, Min(s.current + cycles, U32_MAX))
  }

  function ScheduleImm(s: Sched, ev: nat): Sched
    requires Valid(s) && ev < IMM_EVENTS
  {
    s.(imm := s.imm[ev := true])
  }

  /** A slice's cycles. The addition is unchecked in a release build and wraps. */
  function AddCycles(s: Sched, cycles: nat): Sched {
    s.(now := if s.now + cycles <= U32_MAX then s.now + cycles else s.now + cycles - (U32_MAX + 1))
  }

  function JumpToNextEvent(s: Sched): Sched {
    if s.next > s.now then s.(now := s.next) else s
  }

  function PerformOne(s: Sched, a: Action): (r: Sched)
    requires Valid(s)
    ensures Valid(r) && r.now == s.now && r.current == s.current
  {
    match a
    case In(cycles, ev) => Schedule(s, cycles, ev)
    case FromDue(cycles, ev) => ScheduleFromDue(s, cycles, ev)
    case Imm(ev) => ScheduleImm(s, ev)
  }

  function Perform(s: Sched, actions: seq<Action>): (r: Sched)
    requires Valid(s)
    ensures Valid(r) && r.now == s.now && r.current == s.current
    decreases |actions|
  {
    if actions == [] then s else Perform(PerformOne(s, actions[0]), actions[1..])
  }

  /** An event at the last cycle of the clock is never picked: the scan starts from there, and looks for less. */
  predicate IsDue(s: Sched, i: nat)
    requires Valid(s)
  {
    i < EVENTS && s.active[i] && s.due[i] <= s.now && s.due[i] < U32_MAX
  }

  /** The order of dispatch: by due cycle, ties by table index. */
  predicate Before(d: nat, i: nat, d': nat, i': nat) {
    d < d' || (d == d' && i < i')
  }

  /** The due event among the first `n` that dispatches first, or NONE. */
  function Best(s: Sched, n: nat): (b: nat)
    requires Valid(s) && n <= EVENTS
    ensures b == NONE <==> forall i: nat :: i < n ==> !IsDue(s, i)
    ensures b != NONE ==> b < n && IsDue(s, b)
    ensures b != NONE ==> forall i: nat :: i < n && IsDue(s, i) && i != b ==> Before(s.due[b], b, s.due[i], i)
  {
    if n == 0 then NONE
    else
      var b := Best(s, n - 1);
      if IsDue(s, n - 1) && (b == NONE || s.due[n - 1] < s.due[b]) then n - 1 else b
  }

  /** The scheduler as the handler of event `b` finds it. */
  function Take(s: Sched, b: nat): (r: Sched)
    requires Valid(s) && b < EVENTS
    ensures Valid(r)
  {
    s.(active := s.active[b := false], current := s.due[b])
  }

  function DispatchOne<W>(s: Sched, w: W, c: Client<W>, b: nat): (r: (Sched, W, Dispatch))
    requires Valid(s) && b < EVENTS
    ensures Valid(r.0) && r.0.now == s.now
  {
    var (w', actions) := c.onEvent(w, b, s.now, s.due[b]);
    (Perform(Take(s, b), actions), w', Dispatch(b, s.due[b], actions))
  }

  /** How many (due cycle, index) pairs are left from the next dispatch up to the clock. */
  function Rank(s: Sched): nat
    requires Valid(s)
  {
    var b := Best(s, EVENTS);
    if b == NONE then 0 else (s.now - s.due[b]) * EVENTS + (EVENTS - b)
  }

  /** Everything due is after (d, i) in dispatch order. */
  ghost predicate DueAfter(s: Sched, d: nat, i: nat)
    requires Valid(s)
  {
    forall j: nat :: IsDue(s, j) ==> Before(d, i, s.due[j], j)
  }

  /** No rescheduling operation can produce an event due at or before the one being dispatched. */
  lemma {:induction false} PerformKeepsDueAfter(s: Sched, actions: seq<Action>, i: nat)
    requires Valid(s) && s.current <= s.now && DueAfter(s, s.current, i)
    ensures DueAfter(Perform(s, actions), s.current, i)
    decreases |actions|
  {
    if actions != [] {
      PerformKeepsDueAfter(PerformOne(s, actions[0]), actions[1..], i);
    }
  }

  lemma RankFalls(s: Sched, s1: Sched)
    requires Valid(s) && Valid(s1) && s1.now == s.now && Best(s, EVENTS) != NONE
    requires DueAfter(s1, s.due[Best(s, EVENTS)], Best(s, EVENTS))
    ensures Rank(s1) < Rank(s)
  {
    var b, b1 := Best(s, EVENTS), Best(s1, EVENTS);
    if b1 != NONE && s.due[b] < s1.due[b1] {
      assert (s.now - s1.due[b1]) * EVENTS + EVENTS <= (s.now - s.due[b]) * EVENTS;
    }
  }

  lemma DispatchAdvances<W>(s: Sched, w: W, c: Client<W>, b: nat)
    requires Valid(s) && b == Best(s, EVENTS) != NONE
    ensures DueAfter(DispatchOne(s, w, c, b).0, s.due[b], b)
    ensures Rank(DispatchOne(s, w, c, b).0) < Rank(s)
  {
    PerformKeepsDueAfter(Take(s, b), c.onEvent(w, b, s.now, s.due[b]).1, b);
    RankFalls(s, DispatchOne(s, w, c, b).0);
  }

  /** The dispatch loop: the best due event, then whatever is due after its handler ran. */
  function Batch<W>(s: Sched, w: W, c: Client<W>): (r: (Sched, W, seq<Dispatch>))
    requires Valid(s)
    ensures Valid(r.0) && r.0.now == s.now
    decreases Rank(s)
  {
    var b := Best(s, EVENTS);
    if b == NONE then (s, w, [])
    else
      DispatchAdvances(s, w, c, b);
      var (s1, w1, d) := DispatchOne(s, w, c, b);
      var (s2, w2, log) := Batch(s1, w1, c);
      (s2, w2, [d] + log)
  }

  /** One turn of the dispatch loop. */
  lemma BatchUnfolds<W>(s: Sched, w: W, c: Client<W>, s1: Sched, w1: W, d: Dispatch)
    requires Valid(s) && Best(s, EVENTS) != NONE
    requires (s1, w1, d) == DispatchOne(s, w, c, Best(s, EVENTS))
    ensures Valid(s1) && s1.now == s.now && Rank(s1) < Rank(s)
    ensures Batch(s, w, c) == (Batch(s1, w1, c).0, Batch(s1, w1, c).1, [d] + Batch(s1, w1, c).2)
  {
    DispatchAdvances(s, w, c, Best(s, EVENTS));
  }

  /** The least of `bound` and the due cycles of the active events below `n`. */
  function LeastDue(s: Sched, n: nat, bound: nat): (r: nat)
    requires Valid(s) && n <= EVENTS
    ensures r <= bound && forall i: nat :: i < n && s.active[i] ==> r <= s.due[i]
    ensures r == bound || exists i: nat :: i < n && s.active[i] && r == s.due[i]
  {
    if n == 0 then bound
    else
      var r := LeastDue(s, n - 1, bound);
      if s.active[n - 1] && s.due[n - 1] < r then s.due[n - 1] else r
  }

  /** No active event is behind the clock. */
  predicate NoneBehind(s: Sched)
    requires Valid(s)
  {
    forall i: nat :: i < EVENTS && s.active[i] ==> s.now <= s.due[i]
  }

  /** `cm_on_overflow_event`. The subtraction from `next` is unchecked in a release build and wraps. */
  function Rebase(s: Sched): (r: Sched)
    requires Valid(s) && NoneBehind(s)
    ensures Valid(r)
  {
    s.(due := seq(EVENTS, i requires 0 <= i < EVENTS => if s.active[i] then s.due[i] - s.now else s.due[i]),
       next := (s.next - s.now) % (U32_MAX + 1),
       now := 0)
  }

  /** The immediate events of `pending` from index `i` up, in index order. */
  function RunImm<W>(s: Sched, w: W, c: Client<W>, pending: Word, i: nat): (r: (Sched, W))
    requires Valid(s) && i <= IMM_EVENTS
    ensures Valid(r.0) && r.0.now == s.now
    decreases IMM_EVENTS - i
  {
    if i == IMM_EVENTS then (s, w)
    else if !pending[i] then RunImm(s, w, c, pending, i + 1)
    else
      var (w', actions) := c.onImm(w, i, s.now);
      RunImm(Perform(s, actions), w', c, pending, i + 1)
  }

  datatype Checked<W> = Checked(s: Sched, w: W, log: seq<Dispatch>, fired: bool, rebased: bool)

  /** The timed half of `cm_check_events`, without its early return. */
  function FullCheck<W>(s: Sched, w: W, c: Client<W>): Checked<W>
    requires Valid(s)
  {
    BatchDrains(s.(next := U32_MAX), w, c);
    var (s1, w1, log) := Batch(s.(next := U32_MAX), w, c);
    var s2 := s1.(next := LeastDue(s1, EVENTS, s1.next));
    DrainedNoneBehind(s1, s2);
    if s2.now > REBASE_ABOVE
    then Checked(Rebase(s2), c.onRebase(w1, s2.now), log, true, true)
    else Checked(s2, w1, log, true, false)
  }

  /** `cm_check_events`. */
  function CheckEvents<W>(s: Sched, w: W, c: Client<W>): Checked<W>
    requires Valid(s)
  {
    var (s1, w1) := RunImm(s.(imm := NoBits()), w, c, s.imm, 0);
    if s1.now < s1.next then Checked(s1, w1, [], false, false) else FullCheck(s1, w1, c)
  }

  // ---------------------------------------------------------------------------------------------
  // Dispatch order, completeness

  ghost predicate Drained(s: Sched)
    requires Valid(s)
  {
    forall i: nat :: !IsDue(s, i)
  }

  lemma {:induction false} BatchDrains<W>(s: Sched, w: W, c: Client<W>)
    requires Valid(s)
    ensures Drained(Batch(s, w, c).0)
    decreases Rank(s)
  {
    var b := Best(s, EVENTS);
    if b != NONE {
      DispatchAdvances(s, w, c, b);
      BatchDrains(DispatchOne(s, w, c, b).0, DispatchOne(s, w, c, b).1, c);
    }
  }

  lemma DrainedNoneBehind(s: Sched, t: Sched)
    requires Valid(s) && Valid(t) && Drained(s) && t.due == s.due && t.active == s.active && t.now == s.now
    ensures NoneBehind(t)
  {
    forall i: nat | i < EVENTS && t.active[i] ensures t.now <= t.due[i] { assert !IsDue(s, i); }
  }

  ghost predicate StrictlyOrdered(log: seq<Dispatch>) {
    forall i, j :: 0 <= i < j < |log| ==> Before(log[i].due, log[i].index, log[j].due, log[j].index)
  }

  lemma OrderedCons(d: Dispatch, log: seq<Dispatch>)
    requires StrictlyOrdered(log) && forall e :: e in log ==> Before(d.due, d.index, e.due, e.index)
    ensures StrictlyOrdered([d] + log)
  {
    assert forall j :: 0 < j < |[d] + log| ==> ([d] + log)[j] == log[j - 1] && log[j - 1] in log;
  }

  lemma {:induction false} DispatchOrderAfter<W>(s: Sched, w: W, c: Client<W>, d: nat, i: nat)
    requires Valid(s) && DueAfter(s, d, i)
    ensures StrictlyOrdered(Batch(s, w, c).2)
    ensures forall e :: e in Batch(s, w, c).2 ==> e.index < EVENTS && e.due <= s.now && Before(d, i, e.due, e.index)
    decreases Rank(s)
  {
    var b := Best(s, EVENTS);
    if b != NONE {
      DispatchAdvances(s, w, c, b);
      var (s1, w1, first) := DispatchOne(s, w, c, b);
      DispatchOrderAfter(s1, w1, c, s.due[b], b);
      BatchUnfolds(s, w, c, s1, w1, first);
      OrderedCons(first, Batch(s1, w1, c).2);
    }
  }

  /** Every dispatch of a batch is due, and the batch is strictly increasing in (due cycle, index)
      however the handlers reschedule into it. */
  lemma DispatchOrder<W>(s: Sched, w: W, c: Client<W>)
    requires Valid(s)
    ensures StrictlyOrdered(Batch(s, w, c).2)
    ensures forall d :: d in Batch(s, w, c).2 ==> d.index < EVENTS && d.due <= s.now
  {
    var b := Best(s, EVENTS);
    if b != NONE {
      DispatchAdvances(s, w, c, b);
      var (s1, w1, first) := DispatchOne(s, w, c, b);
      DispatchOrderAfter(s1, w1, c, s.due[b], b);
      BatchUnfolds(s, w, c, s1, w1, first);
      OrderedCons(first, Batch(s1, w1, c).2);
    }
  }

  /** No handler but j's own touches event j. */
  ghost predicate OnlyOwnHandler<W(!new)>(c: Client<W>, j: nat) {
    forall w: W, i: nat, now: nat, due: nat, a: Action ::
      i != j && a in c.onEvent(w, i, now, due).1 ==> a.Imm? || a.ev != j
  }

  lemma {:induction false} PerformSpares(s: Sched, actions: seq<Action>, j: nat)
    requires Valid(s) && j < EVENTS && forall a :: a in actions ==> a.Imm? || a.ev != j
    ensures Perform(s, actions).active[j] == s.active[j] && Perform(s, actions).due[j] == s.due[j]
    decreases |actions|
  {
    if actions != [] {
      assert actions[0] in actions;
      PerformSpares(PerformOne(s, actions[0]), actions[1..], j);
    }
  }

  /** An event that is due is dispatched in this batch, at its own due cycle, unless some other handler
      reschedules it. */
  lemma {:induction false} NoEventMissed<W(!new)>(s: Sched, w: W, c: Client<W>, j: nat)
    requires Valid(s) && IsDue(s, j) && OnlyOwnHandler(c, j)
    ensures exists d :: d in Batch(s, w, c).2 && d.index == j && d.due == s.due[j]
    decreases Rank(s)
  {
    var b := Best(s, EVENTS);
    DispatchAdvances(s, w, c, b);
    var (s1, w1, d) := DispatchOne(s, w, c, b);
    var log := Batch(s1, w1, c).2;
    assert Batch(s, w, c).2 == [d] + log;
    if b == j {
      assert d in Batch(s, w, c).2;
    } else {
      PerformSpares(Take(s, b), d.actions, j);
      NoEventMissed(s1, w1, c, j);
      var e :| e in log && e.index == j && e.due == s.due[j];
      assert e in Batch(s, w, c).2;
    }
  }

  // ---------------------------------------------------------------------------------------------
  // The lower bound behind the early return

  /** `next_event_cycle` is at or before every active due cycle. */
  ghost predicate Bound(s: Sched)
    requires Valid(s)
  {
    forall i: nat :: i < EVENTS && s.active[i] ==> s.next <= s.due[i]
  }

  lemma {:induction false} PerformKeepsBound(s: Sched, actions: seq<Action>)
    requires Valid(s) && Bound(s)
    ensures Bound(Perform(s, actions))
    decreases |actions|
  {
    if actions != [] {
      PerformKeepsBound(PerformOne(s, actions[0]), actions[1..]);
    }
  }

  lemma {:induction false} RunImmKeepsBound<W>(s: Sched, w: W, c: Client<W>, pending: Word, i: nat)
    requires Valid(s) && Bound(s) && i <= IMM_EVENTS
    ensures Bound(RunImm(s, w, c, pending, i).0)
    decreases IMM_EVENTS - i
  {
    if i < IMM_EVENTS {
      if pending[i] {
        var (w', actions) := c.onImm(w, i, s.now);
        PerformKeepsBound(s, actions);
        RunImmKeepsBound(Perform(s, actions), w', c, pending, i + 1);
      } else {
        RunImmKeepsBound(s, w, c, pending, i + 1);
      }
    }
  }

  /** With the bound in place the early return skips no dispatch: the full check would only refresh the
      cached bound, and past 2^31 move the clock's origin. */
  lemma EarlyReturnIsSafe<W>(s: Sched, w: W, c: Client<W>)
    requires Valid(s) && Bound(s) && s.now < s.next
    ensures var t := s.(next := LeastDue(s, EVENTS, U32_MAX));
            && NoneBehind(t)
            && FullCheck(s, w, c) == if s.now > REBASE_ABOVE then Checked(Rebase(t), c.onRebase(w, s.now), [], true, true)
                                     else Checked(t, w, [], true, false)
  {
    var s1 := s.(next := U32_MAX);
    assert forall i: nat :: i < EVENTS ==> !IsDue(s, i);
    assert Batch(s1, w, c) == (s1, w, []);
    LeastDueOf(s1, s, EVENTS);
    assert s1.(next := LeastDue(s1, EVENTS, s1.next)) == s.(next := LeastDue(s, EVENTS, U32_MAX));
  }

  /** The scan reads the due cycles and the active bits only. */
  lemma {:induction false} LeastDueOf(s: Sched, t: Sched, n: nat)
    requires Valid(s) && Valid(t) && n <= EVENTS && s.due == t.due && s.active == t.active
    ensures LeastDue(s, n, U32_MAX) == LeastDue(t, n, U32_MAX)
    decreases n
  {
    if n > 0 { LeastDueOf(s, t, n - 1); }
  }

  /** The rebase keeps the bound exactly when it is entered with `next_event_cycle` not behind the
      clock, or with no event active. */
  lemma RebaseKeepsBoundIff(s: Sched)
    requires Valid(s) && Bound(s) && NoneBehind(s)
    ensures Bound(Rebase(s)) <==> (s.now <= s.next || forall i: nat :: i < EVENTS ==> !s.active[i])
  {
    var r := Rebase(s);
    if s.next < s.now {
      assert r.next == s.next - s.now + U32_MAX + 1;
      if i: nat :| i < EVENTS && s.active[i] {
        assert r.due[i] < r.next;
      }
    } else {
      assert r.next == s.next - s.now;
    }
  }

  /** The handler of a dispatch asked for a cycle that is already behind the clock: a catch-up. */
  ghost predicate CatchesUp(d: Dispatch, now: nat) {
    exists a :: a in d.actions && a.FromDue? && d.due + a.cycles < now
  }

  lemma {:induction false} PerformBehindIff(s: Sched, actions: seq<Action>)
    requires Valid(s)
    ensures Perform(s, actions).next < s.now <==>
              s.next < s.now || exists a :: a in actions && a.FromDue? && s.current + a.cycles < s.now
    decreases |actions|
  {
    if actions != [] {
      var s1 := PerformOne(s, actions[0]);
      PerformBehindIff(s1, actions[1..]);
      assert forall a :: a in actions <==> a == actions[0] || a in actions[1..];
      assert s1.next < s.now <==>
             s.next < s.now || (actions[0].FromDue? && s.current + actions[0].cycles < s.now);
    }
  }

  /** `next_event_cycle` ends a batch behind the clock exactly when some handler of the batch
      rescheduled from its due cycle to a cycle that had already passed. */
  lemma {:induction false} BehindIffCatchUp<W>(s: Sched, w: W, c: Client<W>)
    requires Valid(s)
    ensures Batch(s, w, c).0.next < s.now <==>
              s.next < s.now || exists d :: d in Batch(s, w, c).2 && CatchesUp(d, s.now)
    decreases Rank(s)
  {
    var b := Best(s, EVENTS);
    if b != NONE {
      DispatchAdvances(s, w, c, b);
      var (s1, w1, d) := DispatchOne(s, w, c, b);
      PerformBehindIff(Take(s, b), d.actions);
      assert s1.next < s.now <==> s.next < s.now || CatchesUp(d, s.now);
      BehindIffCatchUp(s1, w1, c);
      var log := Batch(s1, w1, c).2;
      assert Batch(s, w, c).2 == [d] + log;
      assert forall e :: e in [d] + log <==> e == d || e in log;
    }
  }

  ghost predicate Caught(log: seq<Dispatch>, now: nat) {
    exists d :: d in log && CatchesUp(d, now)
  }

  predicate AnyActive(s: Sched) { exists i: nat :: i < EVENTS && s.active[i] }

  /** A full check is a batch, a fresh bound, and past 2^31 a rebase. */
  lemma FullCheckIs<W>(s: Sched, w: W, c: Client<W>) returns (t: Sched, w1: W, log: seq<Dispatch>)
    requires Valid(s)
    ensures var (s1, w', log') := Batch(s.(next := U32_MAX), w, c);
            t == s1.(next := LeastDue(s1, EVENTS, s1.next)) && w1 == w' && log == log'
    ensures Valid(t) && NoneBehind(t) && Drained(t) && t.now == s.now
    ensures FullCheck(s, w, c) == if t.now > REBASE_ABOVE then Checked(Rebase(t), c.onRebase(w1, t.now), log, true, true)
                                  else Checked(t, w1, log, true, false)
  {
    var (s1, w', log') := Batch(s.(next := U32_MAX), w, c);
    t, w1, log := s1.(next := LeastDue(s1, EVENTS, s1.next)), w', log';
    BatchDrains(s.(next := U32_MAX), w, c);
    DrainedNoneBehind(s1, t);
    forall i: nat ensures !IsDue(t, i) { assert !IsDue(s1, i); }
  }

  /** The bound a full check computes is behind the clock exactly when its batch caught up. */
  lemma FreshBound<W>(s: Sched, w: W, c: Client<W>, t: Sched, log: seq<Dispatch>)
    requires Valid(s) && Valid(t) && Drained(t) && t.now == s.now
    requires var (s1, w1, log1) := Batch(s.(next := U32_MAX), w, c);
             t == s1.(next := LeastDue(s1, EVENTS, s1.next)) && log == log1
    ensures Bound(t) && (t.next < t.now <==> Caught(log, s.now))
  {
    BehindIffCatchUp(s.(next := U32_MAX), w, c);
    assert forall i: nat :: i < EVENTS && t.active[i] ==> !IsDue(t, i);
  }

  /** An active event is at or before the clock. */
  predicate Overdue(s: Sched)
    requires Valid(s)
  {
    exists i: nat :: i < EVENTS && s.active[i] && s.due[i] <= s.now
  }

  /** A full check leaves something due exactly at the last cycle of the clock, if anything is active, and loses the
      bound exactly when it rebases the clock in the batch of a catch-up while some event is active. */
  lemma FullCheckKeepsBoundIff<W>(s: Sched, w: W, c: Client<W>)
    requires Valid(s)
    ensures var r := FullCheck(s, w, c);
            && Valid(r.s)
            && (Overdue(r.s) <==> s.now == U32_MAX && AnyActive(r.s)) && (Drained(r.s) <==> !Overdue(r.s))
            && (Bound(r.s) <==> !(r.rebased && Caught(r.log, s.now) && AnyActive(r.s)))
  {
    var t, w1, log := FullCheckIs(s, w, c);
    FreshBound(s, w, c, t, log);
    assert forall i: nat :: i < EVENTS && t.active[i] ==> !IsDue(t, i);
    RebaseKeepsBoundIff(t);
    RebaseOverdueIff(t);
    SoonerOverdueIff(FullCheck(s, w, c).s);
  }

  /** With nothing left to dispatch, what the rebase moves to cycle 0 was pending at the last cycle. */
  lemma RebaseOverdueIff(s: Sched)
    requires Valid(s) && NoneBehind(s) && Drained(s)
    ensures Overdue(Rebase(s)) <==> s.now == U32_MAX && AnyActive(s)
    ensures s.now < U32_MAX ==> !Overdue(s)
  {
    forall i: nat | i < EVENTS && s.active[i] ensures s.due[i] <= s.now <==> s.now == U32_MAX { assert !IsDue(s, i); }
    var r := Rebase(s);
    forall i: nat | i < EVENTS && s.active[i] ensures r.active[i] && (r.due[i] <= r.now <==> s.now == U32_MAX) {}
    assert AnyActive(s) <==> AnyActive(r);
  }

  lemma SoonerOverdueIff(s: Sched)
    requires Valid(s) && s.now < U32_MAX
    ensures Drained(s) <==> !Overdue(s)
  {
    forall i: nat ensures IsDue(s, i) <==> i < EVENTS && s.active[i] && s.due[i] <= s.now {}
  }

  /** A check that rebases the clock although a handler of its batch rescheduled into the past. */
  ghost predicate Loses<W>(s: Sched, w: W, c: Client<W>)
    requires Valid(s)
  {
    var r := CheckEvents(s, w, c);
    r.rebased && Caught(r.log, s.now) && AnyActive(r.s)
  }

  /** The bound survives exactly the checks that do not lose it. */
  lemma CheckKeepsBoundIff<W>(s: Sched, w: W, c: Client<W>)
    requires Valid(s) && Bound(s)
    ensures Bound(CheckEvents(s, w, c).s) <==> !Loses(s, w, c)
  {
    var (s1, w1) := RunImm(s.(imm := NoBits()), w, c, s.imm, 0);
    RunImmKeepsBound(s.(imm := NoBits()), w, c, s.imm, 0);
    if s1.now >= s1.next {
      FullCheckKeepsBoundIff(s1, w1, c);
    }
  }

  /** A check that fires, or any check under the bound, ends with an active event at or before the clock if and only if
      it comes at the last cycle of the clock: what is pending there is not dispatched, and the rebase moves it to
      cycle 0 with the clock. */
  lemma CheckOverdueIff<W>(s: Sched, w: W, c: Client<W>)
    requires Valid(s)
    ensures var r := CheckEvents(s, w, c);
            && Valid(r.s) && r.s.now < U32_MAX && (Drained(r.s) <==> !Overdue(r.s)) && (s.now == U32_MAX ==> r.fired)
            && (r.fired || Bound(s) ==> (Overdue(r.s) <==> s.now == U32_MAX && AnyActive(r.s)))
  {
    var (s1, w1) := RunImm(s.(imm := NoBits()), w, c, s.imm, 0);
    if s1.now >= s1.next {
      FullCheckKeepsBoundIff(s1, w1, c);
    } else {
      SoonerOverdueIff(s1);
      if Bound(s) { RunImmKeepsBound(s.(imm := NoBits()), w, c, s.imm, 0); }
    }
    SoonerOverdueIff(CheckEvents(s, w, c).s);
  }

  function Again(ev: nat, period: nat): seq<Action> {
    if ev < EVENTS && 1 <= period <= U32_MAX then [FromDue(period, ev)] else []
  }

  /** A client with one event that reschedules itself every `period` cycles. */
  function Periodic(ev: nat, period: nat): Client<()>
    requires ev < EVENTS && 1 <= period <= U32_MAX
  {
    Client((w: (), i: nat, now: nat, due: nat) => ((), Again(ev, period)),
           (w: (), i: nat, now: nat) => ((), []),
           (w: (), now: nat) => ())
  }

  const LATE: Sched :=
    Sched(0x8000_0005, [0, 0, 0x8000_0000, 0, 0, 0, 0], NoBits()[2 := true], 0x8000_0000, NoBits(), 0)

  /** The late timer after the check: rebased to cycle 3, under a bound at the last cycle of the clock. */
  const LOST: Sched := Sched(0, [0, 0, 3, 0, 0, 0, 0], NoBits()[2 := true], U32_MAX, NoBits(), 0x8000_0004)

  /** The late timer under a fresh bound, and after each of its two dispatches: at 0x8000_0000, and at
      0x8000_0004 to catch up. */
  const LATE_0: Sched := LATE.(next := U32_MAX)
  const LATE_1: Sched := LATE.(due := [0, 0, 0x8000_0004, 0, 0, 0, 0], next := 0x8000_0004, current := 0x8000_0000)
  const LATE_2: Sched := LATE.(due := [0, 0, 0x8000_0008, 0, 0, 0, 0], next := 0x8000_0004, current := 0x8000_0004)

  lemma LateFirst()
    ensures Valid(LATE_0) && Valid(LATE_1) && Batch(LATE_0, (), Periodic(2, 4)).0 == Batch(LATE_1, (), Periodic(2, 4)).0
  {
    var s := PeriodicStep(LATE_0, 2, 4);
    assert s.active == LATE.active && s.due == LATE_1.due;
  }

  lemma LateSecond()
    ensures Valid(LATE_1) && Valid(LATE_2) && Batch(LATE_1, (), Periodic(2, 4)).0 == Batch(LATE_2, (), Periodic(2, 4)).0
  {
    var s := PeriodicStep(LATE_1, 2, 4);
    assert s.active == LATE.active && s.due == LATE_2.due;
  }

  lemma LateBatch()
    ensures Valid(LATE_0) && Valid(LATE_2) && Batch(LATE_0, (), Periodic(2, 4)).0 == LATE_2
  {
    LateFirst();
    LateSecond();
    NothingLate();
  }

  lemma NothingLate()
    ensures Valid(LATE_2) && Batch(LATE_2, (), Periodic(2, 4)).0 == LATE_2
  {
    assert forall i: nat :: !IsDue(LATE_2, i);
  }

  lemma LateRebase()
    ensures Valid(LATE) && FullCheck(LATE, (), Periodic(2, 4)).s == LOST && FullCheck(LATE, (), Periodic(2, 4)).rebased
  {
    LateBatch();
    var t, w, log := FullCheckIs(LATE, (), Periodic(2, 4));
    LateLeast();
    LateRebased();
  }

  lemma LateLeast()
    ensures Valid(LATE_2) && LeastDue(LATE_2, EVENTS, LATE_2.next) == LATE_2.next
  {
    assert forall i: nat :: i < EVENTS && LATE_2.active[i] ==> i == 2;
  }

  lemma LateRebased()
    ensures Valid(LATE_2) && NoneBehind(LATE_2) && Rebase(LATE_2) == LOST
  {
    assert Rebase(LATE_2).due == LOST.due;
  }

  /** A timer of period 4 that fell one cycle behind when the clock crossed 2^31: the rebase wraps
      `next_event_cycle`, and the next check returns early although the timer is overdue. */
  lemma RebaseCanLoseEvents()
    ensures Valid(LATE) && Bound(LATE) && CheckEvents(LATE, (), Periodic(2, 4)).rebased
    ensures CheckEvents(LATE, (), Periodic(2, 4)).s == LOST
    ensures Valid(LOST.(now := 10)) && IsDue(LOST.(now := 10), 2)
    ensures !CheckEvents(LOST.(now := 10), (), Periodic(2, 4)).fired
  {
    QuietImm(LATE, Periodic(2, 4));
    LateRebase();
    QuietImm(LOST.(now := 10), Periodic(2, 4));
  }

  lemma QuietImm(s: Sched, c: Client<()>)
    requires Valid(s) && s.imm == NoBits()
    ensures s.(imm := NoBits()) == s && RunImm(s, (), c, NoBits(), 0) == (s, ())
  {
    assert RunImm(s, (), c, NoBits(), 3) == (s, ());
  }

  /** One dispatch of a periodic event. */
  lemma PeriodicStep(s: Sched, ev: nat, period: nat) returns (s1: Sched)
    requires Valid(s) && ev < EVENTS && 1 <= period <= U32_MAX
    requires IsDue(s, ev) && forall i: nat :: i < EVENTS && i != ev ==> !s.active[i]
    ensures s1 == SetEvent(Take(s, ev), ev, Min(s.due[ev] + period, U32_MAX)) && Valid(s1) && s1.now == s.now
    ensures Batch(s, (), Periodic(ev, period)).0 == Batch(s1, (), Periodic(ev, period)).0
  {
    var c := Periodic(ev, period);
    assert Best(s, EVENTS) == ev;
    PeriodicAgain(s, ev, period);
    s1 := DispatchOne(s, (), c, ev).0;
    DispatchAdvances(s, (), c, ev);
  }

  lemma PeriodicAgain(s: Sched, ev: nat, period: nat)
    requires Valid(s) && ev < EVENTS && 1 <= period <= U32_MAX
    ensures DispatchOne(s, (), Periodic(ev, period), ev).0 == SetEvent(Take(s, ev), ev, Min(s.due[ev] + period, U32_MAX))
  {
    var t := Take(s, ev);
    var a: Action := FromDue(period, ev);
    assert [a][1..] == [];
    assert Perform(t, [a]) == Perform(PerformOne(t, a), []);
  }

  /** Which event is first depends on the clock, the due cycles and the active bits only. */
  lemma {:induction false} BestOf(s: Sched, t: Sched, n: nat)
    requires Valid(s) && Valid(t) && n <= EVENTS && s.due == t.due && s.active == t.active && s.now == t.now
    ensures Best(s, n) == Best(t, n)
    decreases n
  {
    if n > 0 {
      BestOf(s, t, n - 1);
      assert IsDue(s, n - 1) <==> IsDue(t, n - 1);
    }
  }
}
