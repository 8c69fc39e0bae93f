/**
 The sample double buffer between the emulation thread and the audio thread, at normal speed.

 - `RunConserves`: over every interleaving, the consumed samples followed by the ready queue and the busy
   queue are exactly the pushed samples: nothing is lost, repeated or reordered;
 - `WaiterIsServed`: while the producer waits, a sample period is on offer or the consumer is already in its
   handoff, whose next step wakes the producer;
 - `SoundSampler`: push and consume on the sampler's own arrays, flags and indices are these steps.
 */
module AudioQueue {
  import opened Seqs

  /** SAMPLE_RATE * PRESENTER_AUDIO_OUT_BUF_SIZE / PRESENTER_AUDIO_OUT_SAMPLE_RATE */
  const LIMIT: nat := 32768 * 1024 / 48000

  type Sample = nat

  datatype Sampler = Sampler(q0: seq<Sample>, q1: seq<Sample>, busy: bool, ready: bool, waiting: bool, canSample: bool, handoff: bool)

  const FRESH: Sampler := Sampler([], [], false, false, false, false, false)

  /** The queue with an index; `busy` and `ready` are the two indices. */
  function Queue(s: Sampler, i: bool): seq<Sample> { if i then s.q1 else s.q0 }

  function WithQueue(s: Sampler, i: bool, q: seq<Sample>): Sampler { if i then s.(q1 := q) else s.(q0 := q) }

  /** The producer under the lock; a full pair of queues parks it. `stretching` players do not wait for the signal. */
  function Push(s: Sampler, x: Sample, stretching: bool): Sampler {
    var q := Queue(s, s.busy);
    var t := WithQueue(s, s.busy, if |q| < LIMIT then q + [x] else q);
    if |q| + 1 >= LIMIT then
      var signalled := if stretching then t else t.(canSample := true);
      if |Queue(s, !s.busy)| >= LIMIT then signalled.(waiting := true)
      else WithQueue(signalled, !s.busy, []).(ready := s.busy, busy := !s.busy)
    else t
  }

  /** The consumer passes the condition variable. */
  function TakeSignal(s: Sampler): Sampler { s.(canSample := false, handoff := true) }

  function Taken(s: Sampler): seq<Sample> {
    var q := Queue(s, s.ready);
    if |q| < LIMIT then q else q[..LIMIT]
  }

  /** The consumer under the lock: empties the ready queue and wakes a waiting producer onto it. */
  function Consume(s: Sampler): Sampler {
    var t := WithQueue(s, s.ready, []).(ready := s.busy, handoff := false);
    if s.waiting then t.(waiting := false, busy := s.ready) else t
  }

  datatype Event = Pushed(x: Sample, stretch: bool) | Signalled | Consumed(direct: bool)

  /** A parked producer does not push; the consumer enters the lock through the signal, or directly when stretching. */
  predicate Enabled(s: Sampler, e: Event) {
    match e
    case Pushed(_, _) => !s.waiting
    case Signalled => s.canSample && !s.handoff
    case Consumed(direct) => direct || s.handoff
  }

  function Step(s: Sampler, e: Event): Sampler {
    match e
    case Pushed(x, stretch) => Push(s, x, stretch)
    case Signalled => TakeSignal(s)
    case Consumed(_) => Consume(s)
  }

  // ---------------------------------------------------------------------------------------------
  // Conservation

  /** The other queue is full and ready, or empty; only a full pair waits. */
  predicate Inv(s: Sampler) {
    var other := Queue(s, !s.busy);
    && |Queue(s, s.busy)| <= LIMIT
    && ((|other| == LIMIT && s.ready == !s.busy) || (other == [] && s.ready == s.busy))
    && (|Queue(s, s.busy)| == LIMIT <==> s.waiting) && (s.waiting ==> |other| == LIMIT)
  }

  /** Everything pushed and not yet consumed, oldest first. */
  function Held(s: Sampler): seq<Sample> { Queue(s, !s.busy) + Queue(s, s.busy) }

  lemma PushKeeps(s: Sampler, x: Sample, stretching: bool)
    requires Inv(s) && !s.waiting
    ensures Inv(Push(s, x, stretching)) && Held(Push(s, x, stretching)) == Held(s) + [x]
  {
    var q, other, t := Queue(s, s.busy), Queue(s, !s.busy), Push(s, x, stretching);
    assert |q| < LIMIT;
    if |q| + 1 >= LIMIT && |other| < LIMIT {
      assert other == [] && Queue(t, !t.busy) == q + [x] && Queue(t, t.busy) == [];
      assert (q + [x]) + [] == q + [x] && [] + q == q;
    } else {
      assert Queue(t, !t.busy) == other && Queue(t, t.busy) == q + [x];
      Append3(other, q, [x]);
    }
  }

  lemma ConsumeKeeps(s: Sampler)
    requires Inv(s)
    ensures Inv(Consume(s)) && Taken(s) + Held(Consume(s)) == Held(s)
  {
    var other, mine, after := Queue(s, !s.busy), Queue(s, s.busy), Consume(s);
    if s.ready == s.busy {
      assert Taken(s) == mine && Held(after) == [];
      assert mine + [] == mine && [] + mine == mine;
    } else {
      assert Taken(s) == other;
      assert Held(after) == mine by {
        assert mine + [] == mine && [] + mine == mine;
      }
    }
  }

  /** What one push does: the sample goes to the back of the busy queue. Completing the queue signals the consumer, unless
      it is stretching, and hands the queue over if the other one is empty; a full pair makes the producer wait. */
  lemma PushIs(s: Sampler, x: Sample, stretching: bool)
    requires Inv(s) && !s.waiting
    ensures var t, full := Push(s, x, stretching), |Queue(s, s.busy)| + 1 == LIMIT;
            && Queue(t, s.busy) == Queue(s, s.busy) + [x] && Queue(t, !s.busy) == Queue(s, !s.busy)
            && (t.canSample <==> s.canSample || (full && !stretching)) && t.handoff == s.handoff
            && (t.waiting <==> full && Queue(s, !s.busy) != [])
            && (t.busy != s.busy <==> full && Queue(s, !s.busy) == [])
  {}

  /** What one handoff does: the consumer empties the ready queue, and a waiting producer goes on into it. */
  lemma ConsumeIs(s: Sampler)
    requires Inv(s)
    ensures var t := Consume(s);
            && Queue(t, s.ready) == [] && Queue(t, !s.ready) == Queue(s, !s.ready) && !t.waiting && !t.handoff
            && Taken(s) == Queue(s, s.ready) && (t.busy != s.busy <==> s.waiting) && t.canSample == s.canSample
            && t.ready == s.busy
  {}

  function PushedIn(e: Event): seq<Sample> { if e.Pushed? then [e.x] else [] }

  function TakenIn(s: Sampler, e: Event): seq<Sample> { if e.Consumed? then Taken(s) else [] }

  function PushedBy(es: seq<Event>, n: nat): seq<Sample>
    requires n <= |es|
    decreases n
  {
    if n == 0 then [] else PushedBy(es, n - 1) + PushedIn(es[n - 1])
  }

  /** The states of a run. */
  ghost predicate IsRun(states: seq<Sampler>, es: seq<Event>) {
    && |states| == |es| + 1 && states[0] == FRESH
    && forall i :: 0 <= i < |es| ==> Enabled(states[i], es[i]) && states[i + 1] == Step(states[i], es[i])
  }

  /** What the consumer has taken. */
  function ConsumedBy(states: seq<Sampler>, es: seq<Event>, n: nat): seq<Sample>
    requires |states| == |es| + 1 && n <= |es|
    decreases n
  {
    if n == 0 then [] else ConsumedBy(states, es, n - 1) + TakenIn(states[n - 1], es[n - 1])
  }

  lemma StepKeeps(s: Sampler, e: Event)
    requires Inv(s) && Enabled(s, e)
    ensures Inv(Step(s, e)) && TakenIn(s, e) + Held(Step(s, e)) == Held(s) + PushedIn(e)
  {
    match e
    case Pushed(x, stretch) => PushKeeps(s, x, stretch);
    case Signalled =>
    case Consumed(_) => ConsumeKeeps(s);
  }

  lemma Ledger(consumed: seq<Sample>, taken: seq<Sample>, after: seq<Sample>, before: seq<Sample>, more: seq<Sample>, pushed: seq<Sample>)
    requires taken + after == before + more && consumed + before == pushed
    ensures consumed + taken + after == pushed + more
  {
    Append3(consumed, taken, after);
    Append3(consumed, before, more);
  }

  /** Consumed, then ready, then busy: exactly the pushed sequence. */
  lemma {:induction false} RunConserves(states: seq<Sampler>, es: seq<Event>, n: nat)
    requires IsRun(states, es) && n <= |es|
    ensures Inv(states[n]) && ConsumedBy(states, es, n) + Held(states[n]) == PushedBy(es, n)
    decreases n
  {
    if n > 0 {
      RunConserves(states, es, n - 1);
      var s, e := states[n - 1], es[n - 1];
      StepKeeps(s, e);
      Ledger(ConsumedBy(states, es, n - 1), TakenIn(s, e), Held(states[n]), Held(s), PushedIn(e), PushedBy(es, n - 1));
    }
  }

  // ---------------------------------------------------------------------------------------------
  // The waiting producer, without stretching

  predicate Plain(e: Event) {
    match e
    case Pushed(_, stretch) => !stretch
    case Signalled => true
    case Consumed(direct) => !direct
  }

  function Fulls(s: Sampler): nat { (if |s.q0| == LIMIT then 1 else 0) + if |s.q1| == LIMIT then 1 else 0 }

  /** Never more signals than full queues, and always one while the producer waits. */
  predicate Signals(s: Sampler) {
    && (if s.canSample then 1 else 0) + (if s.handoff then 1 else 0) <= Fulls(s)
    && (s.waiting ==> s.canSample || s.handoff)
  }

  lemma SignalsKept(s: Sampler, e: Event)
    requires Inv(s) && Signals(s) && Enabled(s, e) && Plain(e)
    ensures Signals(Step(s, e))
    ensures e.Consumed? ==> |Queue(s, s.ready)| == LIMIT
  {
  }

  /** While the producer waits, the consumer can always move, and its handoff wakes the producer. */
  lemma {:induction false} WaiterIsServed(states: seq<Sampler>, es: seq<Event>, n: nat)
    requires IsRun(states, es) && n <= |es| && forall i :: 0 <= i < |es| ==> Plain(es[i])
    ensures Inv(states[n]) && Signals(states[n])
    ensures states[n].waiting ==> Enabled(states[n], Signalled) || Enabled(states[n], Consumed(false))
    ensures !Consume(states[n]).waiting && Enabled(Consume(states[n]), Pushed(0, false))
    decreases n
  {
    RunConserves(states, es, n);
    if n > 0 {
      WaiterIsServed(states, es, n - 1);
      SignalsKept(states[n - 1], es[n - 1]);
    }
  }

  /** And the consumer only ever takes whole queues. */
  lemma WholeQueues(states: seq<Sampler>, es: seq<Event>, n: nat)
    requires IsRun(states, es) && n < |es| && es[n].Consumed? && forall i :: 0 <= i < |es| ==> Plain(es[i])
    ensures |Taken(states[n])| == LIMIT
  {
    WaiterIsServed(states, es, n);
    SignalsKept(states[n], es[n]);
  }

  // ---------------------------------------------------------------------------------------------
  // The sampler itself

  /** A buffer up to its size, with one more sample stored. */
  lemma Appended(data: seq<Sample>, size: nat, x: Sample)
    requires size < |data|
    ensures data[size := x][..size + 1] == data[..size] + [x]
  {}

  class SoundSampler {
    var data: seq<seq<Sample>>
    var sizes: seq<nat>
    var busyQueue: nat
    var readyQueue: nat
    var waiting: bool
    var canSample: bool
    var handoff: bool

    ghost predicate Valid() reads this {
      && |data| == |sizes| == 2 && busyQueue < 2 && readyQueue < 2
      && (forall i :: 0 <= i < 2 ==> |data[i]| == LIMIT && sizes[i] <= LIMIT)
    }

    /** Each queue is its buffer up to its size. */
    ghost function State(): Sampler
      requires Valid()
      reads this
    {
      Sampler(data[0][..sizes[0]], data[1][..sizes[1]], busyQueue == 1, readyQueue == 1, waiting, canSample, handoff)
    }

    constructor ()
      ensures Valid() && State() == FRESH
    {
      data, sizes := seq(2, _ => seq(LIMIT, _ => 0)), [0, 0];
      busyQueue, readyQueue, waiting, canSample, handoff := 0, 0, false, false, false;
    }

    /** The store at the end of the busy queue. */
    method Store(sample: Sample)
      requires Valid() && Inv(State()) && !waiting
      modifies this`data, this`sizes
      ensures Valid() && State() == WithQueue(old(State()), busyQueue == 1, Queue(old(State()), busyQueue == 1) + [sample])
    {
      var b := busyQueue;
      if sizes[b] < LIMIT {
        var queue: seq<Sample> := data[b];
        Appended(queue, sizes[b], sample);
        queue := queue[sizes[b] := sample];
        data := data[b := queue];
      }
      sizes := sizes[b := sizes[b] + 1];
    }

    method DoPush(sample: Sample, stretching: bool)
      requires Valid() && Inv(State()) && !waiting
      modifies this
      ensures Valid() && State() == Push(old(State()), sample, stretching)
    {
      var b := busyQueue;
      Store(sample);
      if sizes[b] >= LIMIT {
        if !stretching {
          canSample := true;
        }
        if sizes[1 - b] >= LIMIT {
          waiting := true;
          return;
        }
        sizes := sizes[1 - b := 0];
        readyQueue := b;
        busyQueue := 1 - b;
      }
    }

    method DoConsume() returns (buf: seq<Sample>)
      requires Valid()
      modifies this
      ensures Valid() && State() == Consume(old(State())) && buf == Taken(old(State()))
    {
      var r := readyQueue;
      var size := if sizes[r] < LIMIT then sizes[r] else LIMIT;
      buf := data[r][..size];
      sizes := sizes[r := 0];
      readyQueue := busyQueue;
      handoff := false;
      if waiting {
        waiting := false;
        busyQueue := r;
      }
    }
  }
}
