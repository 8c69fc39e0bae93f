/**
 The immediate events of a check, and the two scheduling calls, by what they do.

 - `ImmRunsAll`: a check calls the handlers of exactly the pending immediate events, each once, in index order,
   each on the state its predecessor left, and performs everything they ask for;
 - `ImmIsServed`: an event that is set before a check is dispatched by it, and is set after it exactly if some handler
   of the check asked for it again;
 - `ScheduleSaturates`: `schedule` lands at least a cycle ahead of the clock, and at most at its last one.
 */
module ImmEvents {
  import opened Arithmetic
  import opened Scheduler

  /** One call: which event, on which state, and what its handler did. */
  datatype Call<W> = Call(index: nat, s: Sched, w: W, s': Sched, w': W)

  /** The call is the handler's own, and everything it asked for is performed. */
  ghost predicate IsCall<W(!new)>(call: Call<W>, c: Client<W>) {
    && Valid(call.s) && Valid(call.s')
    && call.s' == Perform(call.s, c.onImm(call.w, call.index, call.s.now).1)
    && call.w' == c.onImm(call.w, call.index, call.s.now).0
  }

  /** The calls follow each other from one state to another. */
  ghost predicate Chain<W(!new)>(calls: seq<Call<W>>, c: Client<W>, s: Sched, w: W, t: Sched, v: W)
    decreases |calls|
  {
    if calls == [] then s == t && w == v
    else calls[0].s == s && calls[0].w == w && IsCall(calls[0], c) && Chain(calls[1..], c, calls[0].s', calls[0].w', t, v)
  }

  /** In ascending order of index. */
  predicate Ascending<W>(calls: seq<Call<W>>) { forall j, k :: 0 <= j < k < |calls| ==> calls[j].index < calls[k].index }

  ghost predicate Calls<W(!new)>(calls: seq<Call<W>>, i: nat) { exists k :: 0 <= k < |calls| && calls[k].index == i }

  /** From index `i` up exactly the pending events are called, in order. */
  lemma {:induction false} ImmRunsFrom<W(!new)>(s: Sched, w: W, c: Client<W>, pending: Word, i: nat)
    returns (calls: seq<Call<W>>)
    requires Valid(s) && i <= IMM_EVENTS
    ensures Chain(calls, c, s, w, RunImm(s, w, c, pending, i).0, RunImm(s, w, c, pending, i).1)
    ensures Ascending(calls) && forall k :: 0 <= k < |calls| ==> i <= calls[k].index
    ensures forall j: nat :: Calls(calls, j) <==> i <= j < IMM_EVENTS && pending[j]
    decreases IMM_EVENTS - i
  {
    if i == IMM_EVENTS {
      calls := [];
    } else if !pending[i] {
      calls := ImmRunsFrom(s, w, c, pending, i + 1);
    } else {
      var (w', actions) := c.onImm(w, i, s.now);
      var first := Call(i, s, w, Perform(s, actions), w');
      var rest := ImmRunsFrom(first.s', w', c, pending, i + 1);
      calls := [first] + rest;
      CallsCons(first, rest, c, s, w, RunImm(s, w, c, pending, i).0, RunImm(s, w, c, pending, i).1);
    }
  }

  lemma CallsCons<W(!new)>(first: Call<W>, rest: seq<Call<W>>, c: Client<W>, s: Sched, w: W, t: Sched, v: W)
    requires first.s == s && first.w == w && IsCall(first, c) && Chain(rest, c, first.s', first.w', t, v)
    requires Ascending(rest) && forall k :: 0 <= k < |rest| ==> first.index < rest[k].index
    ensures Chain([first] + rest, c, s, w, t, v) && Ascending([first] + rest)
    ensures forall j: nat :: Calls([first] + rest, j) <==> j == first.index || Calls(rest, j)
  {
    var calls := [first] + rest;
    assert calls[1..] == rest;
    forall j: nat ensures Calls(calls, j) <==> j == first.index || Calls(rest, j) {
      if Calls(rest, j) {
        var k :| 0 <= k < |rest| && rest[k].index == j;
        assert calls[k + 1].index == j;
      }
      if j == first.index { assert calls[0].index == j; }
      if Calls(calls, j) && j != first.index {
        var k :| 0 <= k < |calls| && calls[k].index == j;
        assert rest[k - 1].index == j;
      }
    }
  }

  /** The immediate half of a check: exactly the pending events, each once, in index order, with the word cleared before
      the first; the timed half goes on from the state the last one left. */
  lemma ImmRunsAll<W(!new)>(s: Sched, w: W, c: Client<W>) returns (calls: seq<Call<W>>)
    requires Valid(s)
    ensures var (t, v) := RunImm(s.(imm := NoBits()), w, c, s.imm, 0);
            && Chain(calls, c, s.(imm := NoBits()), w, t, v)
            && CheckEvents(s, w, c) == if t.now < t.next then Checked(t, v, [], false, false) else FullCheck(t, v, c)
    ensures Ascending(calls) && forall i: nat :: Calls(calls, i) <==> i < IMM_EVENTS && s.imm[i]
  {
    calls := ImmRunsFrom(s.(imm := NoBits()), w, c, s.imm, 0);
  }

  // ---------------------------------------------------------------------------------------------
  // Set again

  /** An event is set after some requests if it was before, or is one of them. */
  lemma {:induction false} PerformImm(s: Sched, actions: seq<Action>, ev: nat)
    requires Valid(s) && ev < IMM_EVENTS
    ensures Perform(s, actions).imm[ev] <==> s.imm[ev] || RawAction.Imm(ev) in actions
    decreases |actions|
  {
    if actions != [] {
      PerformImm(PerformOne(s, actions[0]), actions[1..], ev);
      assert actions == [actions[0]] + actions[1..];
    }
  }

  /** The handler of a call asked for the event. */
  ghost predicate Asks<W(!new)>(call: Call<W>, c: Client<W>, ev: nat) {
    RawAction.Imm(ev) in c.onImm(call.w, call.index, call.s.now).1
  }

  lemma {:induction false} ChainImm<W(!new)>(calls: seq<Call<W>>, c: Client<W>, s: Sched, w: W, t: Sched, v: W, ev: nat)
    requires Chain(calls, c, s, w, t, v) && Valid(s) && Valid(t) && ev < IMM_EVENTS
    ensures t.imm[ev] <==> s.imm[ev] || exists k :: 0 <= k < |calls| && Asks(calls[k], c, ev)
    decreases |calls|
  {
    if calls != [] {
      var first, rest := calls[0], calls[1..];
      PerformImm(s, c.onImm(w, first.index, s.now).1, ev);
      ChainImm(rest, c, first.s', first.w', t, v, ev);
      if k :| 0 <= k < |rest| && Asks(rest[k], c, ev) { assert Asks(calls[k + 1], c, ev); }
      if k :| 0 <= k < |calls| && Asks(calls[k], c, ev) && k > 0 { assert Asks(rest[k - 1], c, ev); }
    }
  }

  /** A timed handler of the batch asked for the event. */
  ghost predicate AskedFor(log: seq<Dispatch>, ev: nat) { exists d :: d in log && RawAction.Imm(ev) in d.actions }

  lemma {:induction false} BatchImm<W>(s: Sched, w: W, c: Client<W>, ev: nat)
    requires Valid(s) && ev < IMM_EVENTS
    ensures Batch(s, w, c).0.imm[ev] <==> s.imm[ev] || AskedFor(Batch(s, w, c).2, ev)
    decreases Rank(s)
  {
    var b := Best(s, EVENTS);
    if b != NONE {
      var (s1, w1, d) := DispatchOne(s, w, c, b);
      BatchUnfolds(s, w, c, s1, w1, d);
      BatchImm(s1, w1, c, ev);
      PerformImm(Take(s, b), d.actions, ev);
      AskedCons(d, Batch(s1, w1, c).2, ev);
    }
  }

  lemma AskedCons(d: Dispatch, log: seq<Dispatch>, ev: nat)
    ensures AskedFor([d] + log, ev) <==> RawAction.Imm(ev) in d.actions || AskedFor(log, ev)
  {
    assert forall e :: e in [d] + log <==> e == d || e in log;
  }

  lemma FullCheckImm<W>(s: Sched, w: W, c: Client<W>, ev: nat)
    requires Valid(s) && ev < IMM_EVENTS
    ensures FullCheck(s, w, c).s.imm[ev] <==> s.imm[ev] || AskedFor(FullCheck(s, w, c).log, ev)
  {
    var t, w1, log := FullCheckIs(s, w, c);
    BatchImm(s.(next := U32_MAX), w, c, ev);
  }

  /** An event set before a check is dispatched by it, once, and set after it if and only if some handler of the check
      asked for it. */
  lemma ImmIsServed<W(!new)>(s: Sched, w: W, c: Client<W>, ev: nat) returns (calls: seq<Call<W>>)
    requires Valid(s) && ev < IMM_EVENTS
    ensures Chain(calls, c, s.(imm := NoBits()), w, RunImm(s.(imm := NoBits()), w, c, s.imm, 0).0,
                  RunImm(s.(imm := NoBits()), w, c, s.imm, 0).1)
    ensures Ascending(calls) && (Calls(calls, ev) <==> s.imm[ev])
    ensures CheckEvents(s, w, c).s.imm[ev] <==>
              (exists k :: 0 <= k < |calls| && Asks(calls[k], c, ev)) || AskedFor(CheckEvents(s, w, c).log, ev)
  {
    calls := ImmRunsAll(s, w, c);
    var (s1, w1) := RunImm(s.(imm := NoBits()), w, c, s.imm, 0);
    ChainImm(calls, c, s.(imm := NoBits()), w, s1, w1, ev);
    if s1.now >= s1.next { FullCheckImm(s1, w1, c, ev); }
  }

  /** `schedule_imm` makes the event pending for the next check, which dispatches it. */
  lemma ScheduledImmRuns<W(!new)>(s: Sched, w: W, c: Client<W>, ev: nat) returns (calls: seq<Call<W>>)
    requires Valid(s) && ev < IMM_EVENTS
    ensures Valid(ScheduleImm(s, ev))
    ensures Calls(calls, ev) && forall i: nat :: Calls(calls, i) <==> i == ev || (i < IMM_EVENTS && s.imm[i])
    ensures var u := ScheduleImm(s, ev);
            var (t, v) := RunImm(u.(imm := NoBits()), w, c, u.imm, 0);
            Chain(calls, c, u.(imm := NoBits()), w, t, v)
  {
    calls := ImmRunsAll(ScheduleImm(s, ev), w, c);
  }

  // ---------------------------------------------------------------------------------------------
  // The timed calls

  /** Scheduling lands at least one cycle ahead, stops at the last cycle of the clock, and replaces what was pending of
      that event and nothing else. */
  lemma ScheduleSaturates(s: Sched, cycles: nat, ev: nat)
    requires Valid(s) && ev < EVENTS && cycles <= U32_MAX
    ensures var t := Schedule(s, cycles, ev);
            && t.active[ev] && t.due[ev] == Min(s.now + Max(cycles, 1), U32_MAX) && t.next == Min(s.next, t.due[ev])
            && (forall i: nat :: i < EVENTS && i != ev ==> t.active[i] == s.active[i] && t.due[i] == s.due[i])
            && t.now == s.now && t.imm == s.imm && t.current == s.current
  {}
}
