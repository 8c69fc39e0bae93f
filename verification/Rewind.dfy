/**
 The rewind ring: recent guest states as raw savestate buffers, newest last.

 Every operation keeps the ring within its budget (`slots <= maxSlots`, `slots + spare <= maxSlots + 1`) and
 every slot the exact saved bytes of the guest state it was taken from, oldest first. Stepping back pops the
 newest one and leaves the guest, field for field, as it was when that snapshot was taken; with nothing left
 the guest stays where it is.
 */
module RewindRing {
  import opened Arithmetic
  import opened Bytes
  import opened Savestate

  const SNAPSHOT_INTERVAL := 12
  const MIN_SLOTS := 4

  /** Oldest out once the ring is over its limit. */
  function Push<T>(ring: seq<T>, x: T, max: nat): (r: seq<T>)
    ensures |ring| <= max && 0 < max ==> 0 < |r| <= max && r[|r| - 1] == x
  {
    var all := ring + [x];
    if |all| > max then all[1..] else all
  }

  /** The ring after any number of pushes onto an empty one. */
  function PushAll<T>(xs: seq<T>, max: nat): seq<T>
    decreases |xs|
  {
    if xs == [] then [] else Push(PushAll(xs[..|xs| - 1], max), xs[|xs| - 1], max)
  }

  /** It holds the last `max` of them, in order. */
  lemma {:induction false} PushKeepsNewest<T>(xs: seq<T>, max: nat)
    requires max > 0
    ensures PushAll(xs, max) == if |xs| <= max then xs else xs[|xs| - max..]
    decreases |xs|
  {
    if xs != [] {
      var n := |xs| - 1;
      PushKeepsNewest(xs[..n], max);
      assert xs[..n] + [xs[n]] == xs;
      if n >= max { assert (xs[..n][n - max..] + [xs[n]])[1..] == xs[n + 1 - max..]; }
    }
  }

  /** Every slot has the saved bytes of its guest state. */
  ghost predicate Recorded(shape: Shape, slots: seq<seq<Byte>>, history: seq<Value>)
    requires WellFormed(shape)
  {
    && |history| == |slots|
    && (forall i :: 0 <= i < |history| ==> Has(shape, history[i]) && slots[i] == Save(shape, history[i]))
  }

  lemma RecordedPush(shape: Shape, slots: seq<seq<Byte>>, history: seq<Value>, guest: Value)
    requires WellFormed(shape) && Recorded(shape, slots, history) && Has(shape, guest)
    ensures Recorded(shape, slots + [Save(shape, guest)], history + [guest])
    ensures Recorded(shape, (slots + [Save(shape, guest)])[1..], (history + [guest])[1..])
  {}

  lemma RecordedPop(shape: Shape, slots: seq<seq<Byte>>, history: seq<Value>)
    requires WellFormed(shape) && Recorded(shape, slots, history) && slots != []
    ensures Recorded(shape, slots[..|slots| - 1], history[..|history| - 1])
    ensures Has(shape, history[|history| - 1]) && slots[|slots| - 1] == Save(shape, history[|history| - 1])
  {}

  class Emu {
    const shape: Shape
    const budget: nat
    var guest: Value
    var slots: seq<seq<Byte>>
    var spare: seq<seq<Byte>>
    var framesSinceSnapshot: nat
    var maxSlots: nat
    /** The guest states in the ring. */
    ghost var history: seq<Value>

    ghost predicate Valid()
      reads this
    {
      && WellFormed(shape) && Sized(shape) && Has(shape, guest)
      && |slots| <= maxSlots && |slots| + |spare| <= maxSlots + 1 && (maxSlots > 0 ==> maxSlots >= MIN_SLOTS)
      && Recorded(shape, slots, history)
    }

    constructor (shape: Shape, budget: nat, guest: Value)
      requires WellFormed(shape) && Sized(shape) && Has(shape, guest)
      ensures Valid() && this.shape == shape && this.budget == budget && this.guest == guest && history == []
    {
      this.shape, this.budget, this.guest := shape, budget, guest;
      slots, spare, framesSinceSnapshot, maxSlots, history := [], [], 0, 0, [];
    }

    /** The slot count, fixed by the first snapshot's size. */
    function Limit(size: nat): nat
      reads this
    {
      if maxSlots == 0 then Max(budget / Max(size, 1), MIN_SLOTS) else maxSlots
    }

    method Clear()
      requires Valid()
      modifies this`slots, this`spare, this`framesSinceSnapshot, this`history
      ensures Valid() && slots == [] && history == [] && framesSinceSnapshot == 0
    {
      spare := spare + slots;
      slots, history := [], [];
      framesSinceSnapshot := 0;
    }

    /** The newest slot, and the oldest one out once the ring is over its limit. */
    method Store(buf: seq<Byte>)
      requires Valid() && maxSlots > 0 && |slots| + |spare| <= maxSlots && buf == Save(shape, guest)
      modifies this`slots, this`spare, this`history
      ensures Valid() && history == Push(old(history), guest, maxSlots)
    {
      RecordedPush(shape, slots, history, guest);
      slots, history := slots + [buf], history + [guest];
      if |slots| > maxSlots {
        spare := spare + [slots[0]];
        slots, history := slots[1..], history[1..];
      }
    }

    method Snapshot()
      requires Valid()
      modifies this`slots, this`spare, this`maxSlots, this`history
      ensures Valid() && maxSlots == old(Limit(|Save(shape, guest)|))
      ensures history == Push(old(history), guest, maxSlots)
    {
      if spare != [] {
        spare := spare[..|spare| - 1];
      }
      var state := new SavestateContext.NewSave();
      var same := state.Walk(shape, guest);
      var buf := state.buf;
      if maxSlots == 0 {
        maxSlots := Max(budget / Max(|buf|, 1), MIN_SLOTS);
      }
      Store(buf);
    }

    method StepBack()
      requires Valid()
      modifies this`guest, this`slots, this`spare, this`framesSinceSnapshot, this`history
      ensures Valid()
      ensures old(history) == [] ==> guest == old(guest) && history == [] && framesSinceSnapshot == old(framesSinceSnapshot)
      ensures old(history) != [] ==>
                var newest := old(history[|history| - 1]);
                && guest == Restore(shape, newest, old(guest)) && Save(shape, guest) == Save(shape, newest)
                && history == old(history[..|history| - 1]) && framesSinceSnapshot == 0
    {
      if slots == [] {
        return;
      }
      var buf := slots[|slots| - 1];
      ghost var newest := history[|history| - 1];
      RecordedPop(shape, slots, history);
      slots, history := slots[..|slots| - 1], history[..|history| - 1];
      RoundTrip(shape, newest, guest);
      RestoreSavesSame(shape, newest, guest);
      var state := new SavestateContext.NewLoad(buf);
      guest := state.Walk(shape, guest);
      spare := spare + [buf];
      framesSinceSnapshot := 0;
    }

    /** One tick at the vblank hook. */
    method OnFrame(enabled: bool, held: bool)
      requires Valid()
      modifies this
      ensures Valid()
      ensures !enabled ==> history == [] && guest == old(guest)
      ensures enabled && held && old(history) != [] ==>
                guest == Restore(shape, old(history[|history| - 1]), old(guest)) && history == old(history[..|history| - 1])
      ensures enabled && held && old(history) == [] ==> guest == old(guest) && history == []
      ensures enabled && !held ==> guest == old(guest)
      ensures enabled && !held && old(framesSinceSnapshot) + 1 >= SNAPSHOT_INTERVAL ==>
                framesSinceSnapshot == 0 && history == Push(old(history), old(guest), maxSlots)
      ensures enabled && !held && old(framesSinceSnapshot) + 1 < SNAPSHOT_INTERVAL ==>
                framesSinceSnapshot == old(framesSinceSnapshot) + 1 && history == old(history)
    {
      if !enabled {
        if slots != [] {
          Clear();
          spare := [];
        }
        return;
      }
      if held {
        StepBack();
      } else {
        framesSinceSnapshot := framesSinceSnapshot + 1;
        if framesSinceSnapshot >= SNAPSHOT_INTERVAL {
          framesSinceSnapshot := 0;
          Snapshot();
        }
      }
    }
  }
}
