/**
 The emulator's own clients of the scheduler: the scanline machine, the four timers and the audio sample event,
 and the register fields they read and write.
 */
module Clients {
  import opened Arithmetic
  import opened Scheduler

  const SCANLINE_240 := 0
  const SCANLINE_308 := 1
  const TIMER_0 := 2
  const APU_SAMPLE := 6
  const CHANNELS := 4

  const HDRAW_CYCLES := 960
  const HBLANK_CYCLES := 272
  const LINE_CYCLES := 1232
  const SAMPLE_CYCLES := 512
  const VISIBLE_LINES := 160
  const TOTAL_LINES := 228
  const TIME_OVERFLOW := 0x1_0000

  // ---------------------------------------------------------------------------------------------
  // Timers

  /** History of a channel's last schedule: the cycle it counts from, the value it counts from, and the
      cycles per count it was made with. */
  datatype Mark = Mark(anchor: int, start: nat, scale: nat)

  datatype Channel = Channel(cntL: bv16, cntH: bv16, value: nat, shift: nat, scheduled: nat, mark: Mark)

  predicate Started(cntH: bv16) { cntH & 0x80 != 0 }

  /** Channel 0 has nothing to count up from. */
  predicate CountsUp(ch: nat, cntH: bv16) { ch != 0 && cntH & 4 != 0 }

  predicate Running(ch: nat, c: Channel) { Started(c.cntH) && !CountsUp(ch, c.cntH) }

  function ShiftOf(ch: nat, cntH: bv16): nat {
    if cntH & 3 == 0 || CountsUp(ch, cntH) then 0
    else if cntH & 3 == 1 then 6
    else if cntH & 3 == 2 then 8
    else 10
  }

  function Scale(shift: nat): nat {
    if shift == 6 then 64 else if shift == 8 then 256 else if shift == 10 then 1024 else 1
  }

  /** Cycles until the counter overflows. */
  function Remaining(c: Channel): nat
    requires c.value < TIME_OVERFLOW
  {
    (TIME_OVERFLOW - c.value) * Scale(c.shift)
  }

  predicate ValidChannel(c: Channel) {
    c.value < TIME_OVERFLOW && c.shift in {0, 6, 8, 10} && c.scheduled <= U32_MAX
  }

  lemma RemainingRange(c: Channel)
    requires ValidChannel(c)
    ensures 1 <= Remaining(c) <= 0x400_0000
  {}

  /** A register after a masked write. */
  function Overlay(before: bv16, mask: bv16, value: bv16): bv16 { (before & !mask) | (value & mask) }

  /** The control register after a masked write, and the counter and prescaler that go with it. */
  function WriteControl(ch: nat, c: Channel, mask: bv16, value: bv16): Channel {
    var m := mask & 0xC7;
    var cntH := Overlay(c.cntH, m, value);
    var edge := !Started(c.cntH) && Started(cntH);
    c.(cntH := cntH,
       value := if edge then c.cntL as nat else c.value,
       shift := if m & 0xFF != 0 then ShiftOf(ch, cntH) else c.shift)
  }

  lemma ControlIsValid(ch: nat, c: Channel, mask: bv16, value: bv16)
    requires ValidChannel(c)
    ensures ValidChannel(WriteControl(ch, c, mask, value))
  {}

  predicate NeedsSchedule(ch: nat, before: Channel, after: Channel) {
    ((!Started(before.cntH) && Started(after.cntH)) || before.shift != after.shift) && Running(ch, after)
  }

  /** The channel as it is scheduled to overflow `Remaining` cycles after `from`. */
  function Anchored(c: Channel, from: nat): Channel
    requires ValidChannel(c)
  {
    c.(scheduled := Min(from + Remaining(c), U32_MAX),
       mark := Mark(from, c.value, Scale(c.shift)))
  }

  // ---------------------------------------------------------------------------------------------
  // The client

  datatype World = World(channels: seq<Channel>, vCount: nat, dispStat: bv16)

  predicate ValidWorld(w: World) {
    |w.channels| == CHANNELS && (forall i :: 0 <= i < CHANNELS ==> ValidChannel(w.channels[i]))
  }

  /** The counter after an overflow: reloaded, and one further where the cascade test applies. */
  function Reloaded(ch: nat, cntL: bv16, cntH: bv16): (value: nat)
    ensures value < TIME_OVERFLOW
  {
    if ch < 3 && cntH & 4 != 0 then (cntL as nat + 1) % TIME_OVERFLOW else cntL as nat
  }

  /** The cascade test as it is written, on the overflowing channel itself. */
  predicate Carries(ch: nat, cntL: bv16, cntH: bv16) {
    ch < 3 && Started(cntH) && cntH & 4 != 0 && Reloaded(ch, cntL, cntH) == 0
  }

  /** A running channel is rescheduled from the overflow's due cycle. */
  function Rescheduled(ch: nat, cntL: bv16, cntH: bv16, shift: nat): (r: seq<Action>)
    ensures forall a :: a in r ==> a.FromDue? && a.ev == TIMER_0 + ch
  {
    if Started(cntH) && !CountsUp(ch, cntH) then Again(TIMER_0 + ch, (TIME_OVERFLOW - cntL as nat) * Scale(shift)) else []
  }

  /** `timers_overflow` for one channel. */
  function OverflowOne(w: World, ch: nat, due: nat): (r: (World, seq<Action>, bool))
    requires ValidWorld(w) && ch < CHANNELS
    ensures ValidWorld(r.0) && r.0.vCount == w.vCount && r.0.dispStat == w.dispStat
    ensures forall a :: a in r.1 ==> a.FromDue? && a.ev == TIMER_0 + ch
    ensures r.2 ==> ch < 3
  {
    var c := w.channels[ch];
    var value := Reloaded(ch, c.cntL, c.cntH);
    var after :=
      if !Started(c.cntH) then c
      else if CountsUp(ch, c.cntH) then c.(value := value)
      else Anchored(c.(value := c.cntL as nat), due).(value := value);
    (w.(channels := w.channels[ch := after]), Rescheduled(ch, c.cntL, c.cntH, c.shift), Carries(ch, c.cntL, c.cntH))
  }

  function TimersOverflow(w: World, ch: nat, due: nat): (r: (World, seq<Action>))
    requires ValidWorld(w) && ch < CHANNELS
    ensures ValidWorld(r.0) && r.0.vCount == w.vCount && r.0.dispStat == w.dispStat
    ensures forall a :: a in r.1 ==> a.FromDue? && TIMER_0 <= a.ev < TIMER_0 + CHANNELS
    decreases CHANNELS - ch
  {
    var (w1, actions, overflow) := OverflowOne(w, ch, due);
    if overflow then
      var (w2, more) := TimersOverflow(w1, ch + 1, due);
      (w2, actions + more)
    else
      (w1, actions)
  }

  function OnScanline240(w: World): World {
    w.(dispStat := w.dispStat | 2)
  }

  function WithFlag(stat: bv16, bit: bv16, on: bool): bv16 {
    if on then stat | bit else stat & !bit
  }

  /** The vblank flag as a line begins. */
  function AtLine(stat: bv16, line: nat): bv16 {
    if line == VISIBLE_LINES then WithFlag(stat, 1, true) else if line == 227 then WithFlag(stat, 1, false) else stat
  }

  function OnScanline308(w: World): World {
    var line := w.vCount + 1;
    var stat1 := AtLine(w.dispStat, line);
    var vCount := if line == TOTAL_LINES then 0 else line;
    w.(vCount := vCount, dispStat := LineStart(stat1, vCount == (stat1 >> 8) as nat))
  }

  /** The counter-match flag as compared, the hblank flag clear. */
  function LineStart(stat: bv16, matches: bool): bv16 { WithFlag(WithFlag(stat, 4, matches), 2, false) }

  function OnEvent(w: World, i: nat, now: nat, due: nat): (World, seq<Action>) {
    if i == SCANLINE_240 then (OnScanline240(w), [FromDue(HBLANK_CYCLES, SCANLINE_308)])
    else if i == SCANLINE_308 then (OnScanline308(w), [FromDue(HDRAW_CYCLES, SCANLINE_240)])
    else if i == APU_SAMPLE then (w, [FromDue(SAMPLE_CYCLES, APU_SAMPLE)])
    else if TIMER_0 <= i < TIMER_0 + CHANNELS && ValidWorld(w) then TimersOverflow(w, i - TIMER_0, due)
    else (w, [])
  }

  function RebasedChannel(c: Channel, now: nat): Channel {
    c.(scheduled := if c.scheduled < now then 0 else c.scheduled - now, mark := c.mark.(anchor := c.mark.anchor - now))
  }

  function OnRebase(w: World, now: nat): World {
    w.(channels := seq(|w.channels|, i requires 0 <= i < |w.channels| => RebasedChannel(w.channels[i], now)))
  }

  function EmuClient(): Client<World> {
    Client(OnEvent, (w: World, i: nat, now: nat) => (w, []), OnRebase)
  }
}
