/**
 When a batch of the emulator's own events catches up, seen before it starts.

 `CaughtIff`: some handler of the batch asks for a cycle behind the clock if and only if some event that is due
 at its start would, on its own due cycle. A handler's requests depend on registers that no handler writes
 (`RequestsFixed`); what a handler that is not late schedules is not late either (`AfterNotLate`); and a timer
 that another one's overflow reloads before its own turn is late only if that one is (`MovedIsLate`).
 */
module CatchUp {
  import opened Arithmetic
  import opened Clients
  import opened Scheduler

  /** What the handler of event `i` asks for at a due cycle. */
  function Requests(w: World, i: nat, now: nat, due: nat): (r: seq<Action>)
    requires ValidWorld(w)
    ensures forall a :: a in r ==> a.FromDue?
  {
    OnEvent(w, i, now, due).1
  }

  /** Event `i` is due, and its handler asks for a cycle that is already behind the clock. */
  ghost predicate LateAt(s: Sched, w: World, i: nat)
    requires Valid(s) && ValidWorld(w)
  {
    IsDue(s, i) && CatchesUp(Dispatch(i, s.due[i], Requests(w, i, s.now, s.due[i])), s.now)
  }

  ghost predicate SomeLate(s: Sched, w: World)
    requires Valid(s) && ValidWorld(w)
  {
    exists i: nat :: LateAt(s, w, i)
  }

  /** The two scanline events take turns. */
  predicate OneLine(s: Sched) { !(s.active[SCANLINE_240] && s.active[SCANLINE_308]) }

  // ---------------------------------------------------------------------------------------------
  // Requests are fixed

  predicate SameChannel(c: Channel, d: Channel) { c.cntL == d.cntL && c.cntH == d.cntH && c.shift == d.shift }

  predicate SameTimers(w: World, v: World)
    requires ValidWorld(w) && ValidWorld(v)
  {
    forall ch :: 0 <= ch < CHANNELS ==> SameChannel(w.channels[ch], v.channels[ch])
  }

  lemma Same3(a: World, b: World, c: World, d: World)
    requires ValidWorld(a) && ValidWorld(b) && ValidWorld(c) && ValidWorld(d)
    requires SameTimers(a, b) && SameTimers(b, c) && SameTimers(d, c)
    ensures SameTimers(a, d)
  {
    forall i | 0 <= i < CHANNELS ensures SameChannel(a.channels[i], d.channels[i]) {
      assert SameChannel(a.channels[i], b.channels[i]) && SameChannel(b.channels[i], c.channels[i]);
      assert SameChannel(d.channels[i], c.channels[i]);
    }
  }

  /** An overflow writes none of the registers that decide what it asks for. */
  lemma OverflowOneSpares(w: World, ch: nat, due: nat)
    requires ValidWorld(w) && ch < CHANNELS
    ensures SameTimers(OverflowOne(w, ch, due).0, w)
  {
    forall i | 0 <= i < CHANNELS ensures SameChannel(OverflowOne(w, ch, due).0.channels[i], w.channels[i]) {}
  }

  lemma OverflowOneFixed(w: World, v: World, ch: nat, due: nat, due': nat)
    requires ValidWorld(w) && ValidWorld(v) && ch < CHANNELS && SameChannel(w.channels[ch], v.channels[ch])
    ensures OverflowOne(w, ch, due).1 == OverflowOne(v, ch, due').1 && OverflowOne(w, ch, due).2 == OverflowOne(v, ch, due').2
  {}

  lemma {:induction false} OverflowFixed(w: World, v: World, ch: nat, due: nat, due': nat)
    requires ValidWorld(w) && ValidWorld(v) && SameTimers(w, v) && ch < CHANNELS
    ensures TimersOverflow(w, ch, due).1 == TimersOverflow(v, ch, due').1 && SameTimers(TimersOverflow(w, ch, due).0, w)
    decreases CHANNELS - ch
  {
    assert SameChannel(w.channels[ch], v.channels[ch]);
    OverflowOneFixed(w, v, ch, due, due');
    OverflowOneSpares(w, ch, due);
    OverflowOneSpares(v, ch, due');
    var (w1, actions, overflow) := OverflowOne(w, ch, due);
    if overflow {
      var v1 := OverflowOne(v, ch, due').0;
      Same3(w1, w, v, v1);
      OverflowFixed(w1, v1, ch + 1, due, due');
      Same3(TimersOverflow(w1, ch + 1, due).0, w1, w, w);
    }
  }

  /** What a handler asks for depends on no handler. */
  lemma RequestsFixed(w: World, v: World, i: nat, now: nat, due: nat, due': nat)
    requires ValidWorld(w) && ValidWorld(v) && SameTimers(w, v)
    ensures Requests(w, i, now, due) == Requests(v, i, now, due')
    ensures ValidWorld(OnEvent(w, i, now, due).0) && SameTimers(OnEvent(w, i, now, due).0, w)
  {
    if TIMER_0 <= i < TIMER_0 + CHANNELS { OverflowFixed(w, v, i - TIMER_0, due, due'); }
  }

  predicate Names(actions: seq<Action>, ev: nat) { exists a :: a in actions && a.FromDue? && a.ev == ev }

  /** A channel that an overflow reloads is asked for what its own overflow would ask for. */
  lemma {:induction false} CascadeContains(w: World, ch: nat, j: nat, due: nat, due': nat)
    requires ValidWorld(w) && ch < CHANNELS && j < CHANNELS && Names(TimersOverflow(w, ch, due).1, TIMER_0 + j)
    ensures forall a :: a in TimersOverflow(w, j, due').1 ==> a in TimersOverflow(w, ch, due).1
    decreases CHANNELS - ch
  {
    if j == ch {
      OverflowFixed(w, w, ch, due, due');
    } else {
      OverflowOneSpares(w, ch, due);
      var (w1, actions, overflow) := OverflowOne(w, ch, due);
      assert overflow;
      var more := TimersOverflow(w1, ch + 1, due).1;
      assert Names(more, TIMER_0 + j);
      CascadeContains(w1, ch + 1, j, due, due');
      OverflowFixed(w1, w, j, due', due');
    }
  }

  /** A due event that another's handler reschedules is late only if that one is. */
  lemma MovedIsLate(s: Sched, w: World, b: nat, j: nat)
    requires Valid(s) && ValidWorld(w) && OneLine(s) && b == Best(s, EVENTS) != NONE && j != b
    requires LateAt(s, w, j) && Names(Requests(w, b, s.now, s.due[b]), j)
    ensures LateAt(s, w, b)
  {
    OnlyTimersMove(s, w, b, j);
    MoverContains(w, b, j, s.now, s.due[b], s.due[j]);
    LateThrough(Requests(w, j, s.now, s.due[j]), Requests(w, b, s.now, s.due[b]), j, b, s.due[j], s.due[b], s.now);
  }

  lemma MoverContains(w: World, b: nat, j: nat, now: nat, dueB: nat, dueJ: nat)
    requires ValidWorld(w) && TIMER_0 <= b < TIMER_0 + CHANNELS && TIMER_0 <= j < TIMER_0 + CHANNELS
    requires Names(Requests(w, b, now, dueB), j)
    ensures forall a :: a in Requests(w, j, now, dueJ) ==> a in Requests(w, b, now, dueB)
  {
    CascadeContains(w, b - TIMER_0, j - TIMER_0, dueB, dueJ);
  }

  lemma OnlyTimersMove(s: Sched, w: World, b: nat, j: nat)
    requires Valid(s) && ValidWorld(w) && OneLine(s) && IsDue(s, b) && IsDue(s, j) && j != b
    requires Names(Requests(w, b, s.now, s.due[b]), j)
    ensures TIMER_0 <= b < TIMER_0 + CHANNELS && TIMER_0 <= j < TIMER_0 + CHANNELS
  {}

  lemma LateThrough(some: seq<Action>, all: seq<Action>, j: nat, b: nat, dueSome: nat, dueAll: nat, now: nat)
    requires (forall a :: a in some ==> a in all) && dueAll <= dueSome
    requires CatchesUp(Dispatch(j, dueSome, some), now)
    ensures CatchesUp(Dispatch(b, dueAll, all), now)
  {
    var a :| a in some && a.FromDue? && dueSome + a.cycles < now;
    assert a in all && dueAll + a.cycles < now;
  }

  // ---------------------------------------------------------------------------------------------
  // One dispatch

  predicate Ahead(s: Sched, actions: seq<Action>) {
    forall a :: a in actions ==> a.FromDue? && s.now <= s.current + a.cycles
  }

  /** Whatever handlers that are not late ask for comes no earlier than the clock. */
  lemma {:induction false} NamedComesAhead(s: Sched, actions: seq<Action>, j: nat)
    requires Valid(s) && Ahead(s, actions) && Names(actions, j) && j < EVENTS
    ensures s.now <= Perform(s, actions).due[j]
    decreases |actions|
  {
    var first, rest := actions[0], actions[1..];
    assert first in actions && forall a :: a in rest ==> a in actions;
    if Names(rest, j) {
      NamedComesAhead(PerformOne(s, first), rest, j);
    } else {
      assert first.ev == j;
      PerformSpares(PerformOne(s, first), rest, j);
    }
  }

  /** One dispatch of a handler that is not late. */
  lemma DispatchNotLate(s: Sched, w: World, b: nat, s1: Sched, w1: World)
    requires Valid(s) && ValidWorld(w) && IsDue(s, b) && !LateAt(s, w, b)
    requires s1 == DispatchOne(s, w, EmuClient(), b).0 && w1 == DispatchOne(s, w, EmuClient(), b).1
    ensures ValidWorld(w1) && SameTimers(w1, w) && s1.now == s.now
    ensures forall j: nat :: j < EVENTS ==>
              if Names(Requests(w, b, s.now, s.due[b]), j) then s.now <= s1.due[j]
              else s1.due[j] == s.due[j] && s1.active[j] == (j != b && s.active[j])
  {
    var actions := Requests(w, b, s.now, s.due[b]);
    RequestsFixed(w, w, b, s.now, s.due[b], s.due[b]);
    assert Ahead(Take(s, b), actions) by {
      forall a | a in actions ensures a.FromDue? && s.now <= s.due[b] + a.cycles {}
    }
    forall j: nat | j < EVENTS
      ensures if Names(actions, j) then s.now <= s1.due[j] else s1.due[j] == s.due[j] && s1.active[j] == (j != b && s.active[j])
    {
      if Names(actions, j) { NamedComesAhead(Take(s, b), actions, j); } else { PerformSpares(Take(s, b), actions, j); }
    }
  }

  /** After it exactly the others that were late are. */
  lemma AfterNotLate(s: Sched, w: World, b: nat, s1: Sched, w1: World, j: nat)
    requires Valid(s) && ValidWorld(w) && OneLine(s) && b == Best(s, EVENTS) != NONE && !LateAt(s, w, b)
    requires s1 == DispatchOne(s, w, EmuClient(), b).0 && w1 == DispatchOne(s, w, EmuClient(), b).1
    ensures ValidWorld(w1) && (LateAt(s1, w1, j) <==> LateAt(s, w, j))
  {
    DispatchNotLate(s, w, b, s1, w1);
    if j < EVENTS {
      RequestsFixed(w, w1, j, s.now, s.due[j], s1.due[j]);
      if LateAt(s, w, j) && Names(Requests(w, b, s.now, s.due[b]), j) { MovedIsLate(s, w, b, j); }
    }
  }

  lemma DispatchKeepsOneLine(s: Sched, w: World, b: nat)
    requires Valid(s) && ValidWorld(w) && OneLine(s) && IsDue(s, b)
    ensures OneLine(DispatchOne(s, w, EmuClient(), b).0)
  {
    var t, actions := Take(s, b), Requests(w, b, s.now, s.due[b]);
    if b != SCANLINE_240 { PerformSpares(t, actions, SCANLINE_308); }
    if b != SCANLINE_308 { PerformSpares(t, actions, SCANLINE_240); }
  }

  // ---------------------------------------------------------------------------------------------
  // The whole batch

  lemma CaughtCons(d: Dispatch, log: seq<Dispatch>, now: nat)
    ensures Caught([d] + log, now) <==> CatchesUp(d, now) || Caught(log, now)
  {
    assert forall e :: e in [d] + log <==> e == d || e in log;
  }

  /** A batch catches up if and only if some event due at its start is late. */
  lemma {:induction false} CaughtIff(s: Sched, w: World)
    requires Valid(s) && ValidWorld(w) && OneLine(s)
    ensures Caught(Batch(s, w, EmuClient()).2, s.now) <==> SomeLate(s, w)
    decreases Rank(s)
  {
    var b := Best(s, EVENTS);
    if b != NONE {
      var (s1, w1, d) := DispatchOne(s, w, EmuClient(), b);
      BatchUnfolds(s, w, EmuClient(), s1, w1, d);
      CaughtCons(d, Batch(s1, w1, EmuClient()).2, s.now);
      assert d == Dispatch(b, s.due[b], Requests(w, b, s.now, s.due[b]));
      if !LateAt(s, w, b) {
        DispatchKeepsOneLine(s, w, b);
        forall j: nat ensures ValidWorld(w1) && (LateAt(s1, w1, j) <==> LateAt(s, w, j)) {
          AfterNotLate(s, w, b, s1, w1, j);
        }
        CaughtIff(s1, w1);
      }
    }
  }
}
