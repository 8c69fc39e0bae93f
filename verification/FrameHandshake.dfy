/**
 The frame handshake of the renderer: one emulation thread, two rasterizing workers and one
 present thread, sharing two swapchain slots and five pixel buffers.

 The protocol is a state machine whose steps are the atomic accesses of the four threads, in any
 interleaving. Slots carry only flag bits and every thread walks a private cursor; the history in
 `Hist` (what was queued, how far every consumer got) is not visible to any thread and exists to
 state what the bits and cursors mean.

 Main results, for every run:
 - `SlotBitsAreExact`, `NoSharedAccess`: the bits are a function of the counters, and no two threads
   ever touch the same slot inputs or pixel rows;
 - `PresentedFramesAreExact`: the k-th presented image is, on all 160 rows, the rasterization of the
   whole guest video memory and of the registers captured on each line of the k-th queued frame;
 - `ConsumersDrain`: the consumers alone can take only boundedly many steps, and when they can take
   no more every queued frame has been presented.
 */
module FrameHandshake {

  // ---------------------------------------------------------------------------------------------
  // Data

  const HEIGHT := 160
  const HALF_LINES := 80
  const SWAPCHAIN := 2
  const FRAME_BUFS := 5
  const REGIONS := 4

  const S_FREE: bv8 := 0
  const S_QUEUED: bv8 := 1
  const S_RASTERED: bv8 := 7
  const ALL_DIRTY: set<nat> := {0, 1, 2, 3}

  /** HALF0 and HALF1: the report bit of each rasterizing core. */
  function HalfBit(h: nat): bv8
  {
    if h == 0 then 2 else 4
  }

  type Bytes = seq<bv8>
  type LineRegs = seq<bv16>

  /** Guest video memory: bg vram, obj vram, palettes, oam. */
  type VideoMem = m: seq<Bytes> | |m| == REGIONS witness [[], [], [], []]

  /** The display registers as captured on the lines of one frame. */
  type Capture = c: seq<LineRegs> | |c| == HEIGHT witness seq(HEIGHT, _ => [])

  /** Everything one frame is drawn from. */
  datatype Frame = Frame(mem: VideoMem, regs: Capture)

  /** A composed pixel row, named by what it was drawn from: `draw_scanline` is a function of the
      slot's memory, the line's registers and the line number. */
  datatype Row = Stale | Drawn(mem: VideoMem, regs: LineRegs, line: nat)

  type Image = i: seq<Row> | |i| == HEIGHT witness seq(HEIGHT, _ => Stale)

  datatype EmuPc = Emulating | Filling(copied: nat, frame: Frame)
  datatype WorkerPc = Waiting | Drawing(rows: nat)
  datatype PresentPc = Polling | Releasing | Uploading | Swapping

  datatype Worker = Worker(slot: nat, pix: nat, pc: WorkerPc)

  /** History: the frames queued so far, the frames each worker finished, the slots released, the
      swaps that returned, the uploaded images, and the lines captured in the current frame. */
  datatype Hist = Hist(
    frames: seq<Frame>,
    drawn: seq<nat>,
    released: nat,
    swapped: nat,
    presented: seq<Image>,
    lines: seq<LineRegs>)

  datatype State = State(
    // shared
    slots: seq<bv8>,
    slotMem: seq<VideoMem>,
    slotRegs: seq<Capture>,
    pixels: seq<Image>,
    // emulation thread
    mem: VideoMem,
    gpuDirty: set<nat>,
    slotDirty: seq<set<nat>>,
    capture: Capture,
    writeSlot: nat,
    emu: EmuPc,
    // workers
    workers: seq<Worker>,
    // present thread
    readSlot: nat,
    presentPixels: nat,
    present: PresentPc,
    hist: Hist)

  /** The lengths of the fixed arrays and the ranges of the indices. */
  ghost predicate WellFormed(s: State) {
    && |s.slots| == |s.slotMem| == |s.slotRegs| == |s.slotDirty| == SWAPCHAIN
    && |s.pixels| == FRAME_BUFS
    && |s.workers| == |s.hist.drawn| == 2
    && s.writeSlot < SWAPCHAIN && s.readSlot < SWAPCHAIN && s.presentPixels < FRAME_BUFS
    && (forall h :: 0 <= h < 2 ==> s.workers[h].slot < SWAPCHAIN && s.workers[h].pix < FRAME_BUFS)
    && (forall h :: 0 <= h < 2 && s.workers[h].pc.Drawing? ==> s.workers[h].pc.rows <= HALF_LINES)
    && |s.hist.lines| <= HEIGHT
    && (s.emu.Filling? ==> s.emu.copied <= REGIONS)
  }

  // ---------------------------------------------------------------------------------------------
  // The steps

  datatype Step =
    | GuestWrite(region: nat, content: Bytes)  // a write handler: store, then mark the region dirty
    | Restore(image: VideoMem)                 // savestate load or rewind: all of memory, all dirty
    | CaptureLine(regs: LineRegs)              // hblank of the next visible line
    | Vblank                                   // on_frame_finish up to the slot test
    | CopyRegion                               // snapshot, one region at a time
    | Publish                                  // store QUEUED
    | Take(h: nat)                             // a worker sees its next slot queued
    | DrawRow(h: nat)                          // one scanline into the pixel buffer
    | Report(h: nat)                           // fetch_or of the worker's bit
    | Observe                                  // the present thread sees RASTERED
    | Release                                  // store 0
    | Upload                                   // read the composed buffer
    | SwapReturn                               // gl_swap_window came back

  predicate IsConsumer(step: Step) {
    !(step.GuestWrite? || step.Restore? || step.CaptureLine? || step.Vblank? || step.CopyRegion? || step.Publish?)
  }

  ghost predicate Enabled(s: State, step: Step)
    requires WellFormed(s)
  {
    match step
    case GuestWrite(region, _) => s.emu.Emulating? && region < REGIONS
    case Restore(_) => s.emu.Emulating?
    case CaptureLine(_) => s.emu.Emulating? && |s.hist.lines| < HEIGHT
    case Vblank => s.emu.Emulating? && |s.hist.lines| == HEIGHT
    case CopyRegion => s.emu.Filling? && s.emu.copied < REGIONS
    case Publish => s.emu.Filling? && s.emu.copied == REGIONS
    case Take(h) =>
      && h < 2 && s.workers[h].pc.Waiting?
      && s.slots[s.workers[h].slot] & (S_QUEUED | HalfBit(h)) == S_QUEUED
    case DrawRow(h) => h < 2 && s.workers[h].pc.Drawing? && s.workers[h].pc.rows < HALF_LINES
    case Report(h) => h < 2 && s.workers[h].pc.Drawing? && s.workers[h].pc.rows == HALF_LINES
    case Observe => s.present.Polling? && s.slots[s.readSlot] == S_RASTERED
    case Release => s.present.Releasing?
    case Upload => s.present.Uploading?
    case SwapReturn => s.present.Swapping?
  }

  /** `on_frame_finish`: every slot learns of this frame's writes, then a free slot is filled and an
      occupied one drops the frame. Filling starts with the swap of the register captures. */
  function OnVblank(s: State): State
    requires |s.slots| == |s.slotDirty| == |s.slotRegs| == SWAPCHAIN && s.writeSlot < SWAPCHAIN
    requires |s.hist.lines| == HEIGHT
  {
    var dirty := seq(SWAPCHAIN, i requires 0 <= i < SWAPCHAIN => s.slotDirty[i] + s.gpuDirty);
    var s1 := s.(slotDirty := dirty, gpuDirty := {}, hist := s.hist.(lines := []));
    if s.slots[s.writeSlot] == S_FREE then
      s1.(slotRegs := s.slotRegs[s.writeSlot := s.capture],
          capture := s.slotRegs[s.writeSlot],
          emu := Filling(0, Frame(s.mem, s.hist.lines)))
    else
      s1
  }

  /** One dirty-gated copy of `GpuMemBuf::snapshot`. */
  function OnCopyRegion(s: State): State
    requires |s.slotMem| == |s.slotDirty| == SWAPCHAIN && s.writeSlot < SWAPCHAIN
    requires s.emu.Filling? && s.emu.copied < REGIONS
  {
    var r := s.emu.copied;
    var slotMem :=
      if r in s.slotDirty[s.writeSlot]
      then s.slotMem[s.writeSlot := s.slotMem[s.writeSlot][r := s.mem[r]]]
      else s.slotMem;
    s.(slotMem := slotMem, emu := s.emu.(copied := r + 1))
  }

  function OnPublish(s: State): State
    requires |s.slots| == |s.slotDirty| == SWAPCHAIN && s.writeSlot < SWAPCHAIN && s.emu.Filling?
  {
    s.(slotDirty := s.slotDirty[s.writeSlot := {}],
       slots := s.slots[s.writeSlot := S_QUEUED],
       writeSlot := (s.writeSlot + 1) % SWAPCHAIN,
       emu := Emulating,
       hist := s.hist.(frames := s.hist.frames + [s.emu.frame]))
  }

  /** The worker reads its slot's inputs as they stand when the row is drawn. */
  function OnDrawRow(s: State, h: nat): State
    requires |s.slotMem| == |s.slotRegs| == SWAPCHAIN && |s.pixels| == FRAME_BUFS
    requires h < |s.workers| == 2 && s.workers[h].slot < SWAPCHAIN && s.workers[h].pix < FRAME_BUFS
    requires s.workers[h].pc.Drawing? && s.workers[h].pc.rows < HALF_LINES
  {
    var w := s.workers[h];
    var line := h * HALF_LINES + w.pc.rows;
    var row := Drawn(s.slotMem[w.slot], s.slotRegs[w.slot][line], line);
    s.(pixels := s.pixels[w.pix := s.pixels[w.pix][line := row]],
       workers := s.workers[h := w.(pc := Drawing(w.pc.rows + 1))])
  }

  function OnReport(s: State, h: nat): State
    requires |s.slots| == SWAPCHAIN && h < |s.workers| == |s.hist.drawn| == 2 && s.workers[h].slot < SWAPCHAIN
  {
    var w := s.workers[h];
    s.(slots := s.slots[w.slot := s.slots[w.slot] | HalfBit(h)],
       workers := s.workers[h := Worker((w.slot + 1) % SWAPCHAIN, (w.pix + 1) % FRAME_BUFS, Waiting)],
       hist := s.hist.(drawn := s.hist.drawn[h := s.hist.drawn[h] + 1]))
  }

  function OnRelease(s: State): State
    requires |s.slots| == SWAPCHAIN && s.readSlot < SWAPCHAIN
  {
    s.(slots := s.slots[s.readSlot := S_FREE],
       readSlot := (s.readSlot + 1) % SWAPCHAIN,
       present := Uploading,
       hist := s.hist.(released := s.hist.released + 1))
  }

  ghost function Apply(s: State, step: Step): State
    requires WellFormed(s) && Enabled(s, step)
  {
    match step
    case GuestWrite(region, content) =>
      s.(mem := s.mem[region := content], gpuDirty := s.gpuDirty + {region})
    case Restore(image) => s.(mem := image, gpuDirty := ALL_DIRTY)
    case CaptureLine(regs) =>
      s.(capture := s.capture[|s.hist.lines| := regs], hist := s.hist.(lines := s.hist.lines + [regs]))
    case Vblank => OnVblank(s)
    case CopyRegion => OnCopyRegion(s)
    case Publish => OnPublish(s)
    case Take(h) => s.(workers := s.workers[h := s.workers[h].(pc := Drawing(0))])
    case DrawRow(h) => OnDrawRow(s, h)
    case Report(h) => OnReport(s, h)
    case Observe => s.(present := Releasing)
    case Release => OnRelease(s)
    case Upload =>
      s.(present := Swapping, hist := s.hist.(presented := s.hist.presented + [s.pixels[s.presentPixels]]))
    case SwapReturn =>
      s.(presentPixels := (s.presentPixels + 1) % FRAME_BUFS,
         present := Polling,
         hist := s.hist.(swapped := s.hist.swapped + 1))
  }

  /** `reset_for_new_game`: free slots, zeroed cursors, everything dirty. What the slots, the pixel
      buffers and the capture buffer still hold from the previous game is arbitrary. */
  ghost predicate Init(s: State) {
    && WellFormed(s)
    && s.slots == [S_FREE, S_FREE] && s.slotDirty == [ALL_DIRTY, ALL_DIRTY] && s.gpuDirty == ALL_DIRTY
    && s.writeSlot == s.readSlot == s.presentPixels == 0
    && s.workers == [Worker(0, 0, Waiting), Worker(0, 0, Waiting)]
    && s.emu.Emulating? && s.present.Polling?
    && s.hist == Hist([], [0, 0], 0, 0, [], [])
  }

  /** `steps` can be taken from `s` one after the other, ending in `t`. */
  ghost predicate IsRun(s: State, steps: seq<Step>, t: State)
    decreases steps
  {
    if steps == [] then s == t
    else WellFormed(s) && Enabled(s, steps[0]) && IsRun(Apply(s, steps[0]), steps[1..], t)
  }

  // ---------------------------------------------------------------------------------------------
  // The invariant

  function Queued(s: State): nat { |s.hist.frames| }

  function Bits(queued: bool, half0: bool, half1: bool): bv8 {
    (if queued then S_QUEUED else S_FREE) | (if half0 then HalfBit(0) else 0) | (if half1 then HalfBit(1) else 0)
  }

  /** Where the consumers stand relative to each other and to the queue. */
  ghost predicate Counters(s: State)
    requires WellFormed(s)
  {
    var e, p := Queued(s), s.hist.released;
    && p <= e <= p + 2
    && (s.emu.Filling? ==> e <= p + 1)
    && (forall h :: 0 <= h < 2 ==> p <= s.hist.drawn[h] <= e)
    && (forall h :: 0 <= h < 2 && s.workers[h].pc.Drawing? ==> s.hist.drawn[h] < e)
    && p == s.hist.swapped + (if s.present.Uploading? || s.present.Swapping? then 1 else 0)
    && |s.hist.presented| == s.hist.swapped + (if s.present.Swapping? then 1 else 0)
    && (s.present.Releasing? ==> forall h :: 0 <= h < 2 ==> p < s.hist.drawn[h])
  }

  /** Every private cursor is the counter of its thread, modulo its ring. */
  ghost predicate Cursors(s: State)
    requires WellFormed(s)
  {
    && s.writeSlot == Queued(s) % SWAPCHAIN
    && s.readSlot == s.hist.released % SWAPCHAIN
    && s.presentPixels == s.hist.swapped % FRAME_BUFS
    && (forall h :: 0 <= h < 2 ==>
          s.workers[h].slot == s.hist.drawn[h] % SWAPCHAIN && s.workers[h].pix == s.hist.drawn[h] % FRAME_BUFS)
  }

  /** The flag bits of the slot that frame `n` uses, from the counters alone. */
  ghost predicate SlotBits(s: State, n: nat)
    requires WellFormed(s)
  {
    s.slots[n % SWAPCHAIN] == Bits(n < Queued(s), n < s.hist.drawn[0], n < s.hist.drawn[1])
  }

  ghost predicate SlotHolds(s: State, n: nat)
    requires WellFormed(s) && n < Queued(s)
  {
    s.slotMem[n % SWAPCHAIN] == s.hist.frames[n].mem && s.slotRegs[n % SWAPCHAIN] == s.hist.frames[n].regs
  }

  ghost predicate Slots(s: State)
    requires WellFormed(s)
  {
    && (forall n: nat :: s.hist.released <= n < s.hist.released + 2 ==> SlotBits(s, n))
    && (forall n: nat :: s.hist.released <= n < Queued(s) ==> SlotHolds(s, n))
  }

  /** A slot's copy of a region is current or its staleness is on record. While a slot is being
      filled, the regions already copied are current outright. */
  ghost predicate RegionTracked(s: State, slot: nat, r: nat)
    requires WellFormed(s) && slot < SWAPCHAIN && r < REGIONS
  {
    || s.slotMem[slot][r] == s.mem[r]
    || (r in s.slotDirty[slot] && !(s.emu.Filling? && slot == s.writeSlot && r < s.emu.copied))
    || r in s.gpuDirty
  }

  ghost predicate DirtyTracking(s: State)
    requires WellFormed(s)
  {
    && (forall slot: nat, r: nat :: slot < SWAPCHAIN && r < REGIONS ==> RegionTracked(s, slot, r))
    && (s.emu.Filling? ==> s.gpuDirty == {} && s.emu.frame.mem == s.mem
                           && s.slotRegs[s.writeSlot] == s.emu.frame.regs)
    && (forall i :: 0 <= i < |s.hist.lines| ==> s.capture[i] == s.hist.lines[i])
  }

  function RowOf(f: Frame, line: nat): Row
    requires line < HEIGHT
  {
    Drawn(f.mem, f.regs[line], line)
  }

  ghost predicate RowsDrawn(s: State, h: nat, n: nat, count: nat)
    requires WellFormed(s) && h < 2 && n < Queued(s) && count <= HALF_LINES
  {
    forall line: nat :: h * HALF_LINES <= line < h * HALF_LINES + count ==>
      s.pixels[n % FRAME_BUFS][line] == RowOf(s.hist.frames[n], line)
  }

  /** The last three released frames and everything drawn since are intact in their buffers. */
  ghost predicate PixelsIntact(s: State)
    requires WellFormed(s) && Counters(s)
  {
    && (forall h: nat, n: nat :: h < 2 && s.hist.released - 3 <= n < s.hist.drawn[h] ==> RowsDrawn(s, h, n, HALF_LINES))
    && (forall h: nat :: h < 2 && s.workers[h].pc.Drawing? ==> RowsDrawn(s, h, s.hist.drawn[h], s.workers[h].pc.rows))
  }

  function ImageOf(f: Frame): Image {
    seq(HEIGHT, line requires 0 <= line < HEIGHT => RowOf(f, line))
  }

  ghost predicate PresentedExact(s: State)
    requires WellFormed(s) && Counters(s)
  {
    forall k: nat :: k < |s.hist.presented| ==> s.hist.presented[k] == ImageOf(s.hist.frames[k])
  }

  ghost predicate Inv(s: State) {
    && WellFormed(s) && Counters(s) && Cursors(s) && Slots(s) && DirtyTracking(s) && PixelsIntact(s)
    && PresentedExact(s)
  }

  // ---------------------------------------------------------------------------------------------
  // Every step keeps the invariant

  lemma BufferDistinct(n: nat, m: nat)
    requires n < m < n + FRAME_BUFS
    ensures n % FRAME_BUFS != m % FRAME_BUFS
  {}

  lemma SlotDistinct(n: nat, m: nat)
    requires n < m < n + SWAPCHAIN
    ensures n % SWAPCHAIN != m % SWAPCHAIN
  {}

  lemma SlotWraps(n: nat)
    ensures (n + 2) % SWAPCHAIN == n % SWAPCHAIN
  {}

  lemma PreviousBuffer(n: nat)
    ensures (n % FRAME_BUFS + FRAME_BUFS - 1) % FRAME_BUFS == (n + FRAME_BUFS - 1) % FRAME_BUFS
  {}

  /** Stepping a cursor round its ring is stepping the counter behind it. */
  lemma CursorStep(n: nat)
    ensures (n % SWAPCHAIN + 1) % SWAPCHAIN == (n + 1) % SWAPCHAIN
    ensures (n % FRAME_BUFS + 1) % FRAME_BUFS == (n + 1) % FRAME_BUFS
    ensures ((n + 1) % FRAME_BUFS + FRAME_BUFS - 1) % FRAME_BUFS == n % FRAME_BUFS
  {}

  lemma InitEstablishes(s: State)
    requires Init(s)
    ensures Inv(s)
  {}

  /** Steps that leave the slots, the queue and the consumers' counters alone. */
  lemma SlotsUntouched(s: State, t: State)
    requires WellFormed(s) && Slots(s) && WellFormed(t)
    requires t.slots == s.slots && t.slotMem == s.slotMem && t.slotRegs == s.slotRegs
    requires t.hist.frames == s.hist.frames && t.hist.drawn == s.hist.drawn && t.hist.released == s.hist.released
    ensures Slots(t)
  {
    forall n: nat | t.hist.released <= n < t.hist.released + 2 ensures SlotBits(t, n) { assert SlotBits(s, n); }
    forall n: nat | t.hist.released <= n < Queued(t) ensures SlotHolds(t, n) { assert SlotHolds(s, n); }
  }

  /** Steps of the consumers: nothing the emulation thread owns changes. */
  lemma DirtyUntouched(s: State, t: State)
    requires WellFormed(s) && DirtyTracking(s) && WellFormed(t)
    requires t.slotMem == s.slotMem && t.slotRegs == s.slotRegs && t.mem == s.mem && t.gpuDirty == s.gpuDirty
    requires t.slotDirty == s.slotDirty && t.capture == s.capture && t.writeSlot == s.writeSlot
    requires t.emu == s.emu && t.hist.lines == s.hist.lines
    ensures DirtyTracking(t)
  {
    forall slot: nat, r: nat | slot < SWAPCHAIN && r < REGIONS ensures RegionTracked(t, slot, r) {
      assert RegionTracked(s, slot, r);
    }
  }

  /** Steps that leave buffers and workers alone. */
  lemma PixelsUntouched(s: State, t: State)
    requires WellFormed(s) && Counters(s) && PixelsIntact(s)
    requires WellFormed(t) && Counters(t) && t.pixels == s.pixels && t.workers == s.workers
    requires s.hist.frames <= t.hist.frames && t.hist.drawn == s.hist.drawn && s.hist.released <= t.hist.released
    ensures PixelsIntact(t)
  {
    forall h: nat, n: nat | h < 2 && t.hist.released - 3 <= n < t.hist.drawn[h] ensures RowsDrawn(t, h, n, HALF_LINES) {
      assert RowsDrawn(s, h, n, HALF_LINES);
    }
    forall h: nat | h < 2 && t.workers[h].pc.Drawing?
      ensures RowsDrawn(t, h, t.hist.drawn[h], t.workers[h].pc.rows)
    {
      assert RowsDrawn(s, h, s.hist.drawn[h], s.workers[h].pc.rows);
    }
  }

  lemma GuestStepTracked(s: State, step: Step)
    requires WellFormed(s) && DirtyTracking(s) && Enabled(s, step)
    requires step.GuestWrite? || step.Restore? || step.CaptureLine?
    ensures WellFormed(Apply(s, step)) && DirtyTracking(Apply(s, step))
  {
    var t := Apply(s, step);
    forall slot: nat, r: nat | slot < SWAPCHAIN && r < REGIONS ensures RegionTracked(t, slot, r) {
      assert RegionTracked(s, slot, r);
    }
  }

  lemma GuestStepKeeps(s: State, step: Step)
    requires Inv(s) && Enabled(s, step)
    requires step.GuestWrite? || step.Restore? || step.CaptureLine?
    ensures Inv(Apply(s, step))
  {
    var t := Apply(s, step);
    GuestStepTracked(s, step);
    SlotsUntouched(s, t);
    PixelsUntouched(s, t);
  }

  /** The slot test of `on_frame_finish` passes exactly when fewer than two frames are in flight. */
  lemma SlotFreeIff(s: State)
    requires WellFormed(s) && Counters(s) && Cursors(s) && Slots(s)
    ensures s.slots[s.writeSlot] == S_FREE <==> Queued(s) < s.hist.released + 2
  {
    var e, p := Queued(s), s.hist.released;
    if e < p + 2 {
      assert SlotBits(s, e);
    } else {
      SlotWraps(p);
      assert SlotBits(s, p);
    }
  }

  lemma VblankCounters(s: State)
    requires WellFormed(s) && Counters(s) && Cursors(s) && Slots(s) && Enabled(s, Vblank)
    ensures WellFormed(OnVblank(s)) && Counters(OnVblank(s)) && Cursors(OnVblank(s))
  {
    SlotFreeIff(s);
  }

  lemma VblankSlots(s: State)
    requires WellFormed(s) && Counters(s) && Cursors(s) && Slots(s) && Enabled(s, Vblank)
    ensures WellFormed(OnVblank(s)) && Slots(OnVblank(s))
  {
    var t := OnVblank(s);
    SlotFreeIff(s);
    forall n: nat | t.hist.released <= n < t.hist.released + 2 ensures SlotBits(t, n) { assert SlotBits(s, n); }
    forall n: nat | t.hist.released <= n < Queued(t) ensures SlotHolds(t, n) {
      assert SlotHolds(s, n);
      if Queued(s) < s.hist.released + 2 { SlotDistinct(n, Queued(s)); }
    }
  }

  /** Every slot takes over the frame's dirty bits, so dropping the frame loses none of them. */
  lemma VblankTracked(s: State)
    requires WellFormed(s) && DirtyTracking(s) && Enabled(s, Vblank)
    ensures WellFormed(OnVblank(s)) && DirtyTracking(OnVblank(s))
  {
    var t := OnVblank(s);
    assert s.capture == s.hist.lines;
    forall slot: nat, r: nat | slot < SWAPCHAIN && r < REGIONS ensures RegionTracked(t, slot, r) {
      assert RegionTracked(s, slot, r);
    }
  }

  lemma VblankKeeps(s: State)
    requires Inv(s) && Enabled(s, Vblank)
    ensures Inv(Apply(s, Vblank))
  {
    VblankCounters(s);
    VblankSlots(s);
    VblankTracked(s);
    PixelsUntouched(s, Apply(s, Vblank));
  }

  lemma CopyRegionSlots(s: State)
    requires WellFormed(s) && Counters(s) && Cursors(s) && Slots(s) && Enabled(s, CopyRegion)
    ensures WellFormed(OnCopyRegion(s)) && Slots(OnCopyRegion(s))
  {
    var t := OnCopyRegion(s);
    forall n: nat | t.hist.released <= n < t.hist.released + 2 ensures SlotBits(t, n) { assert SlotBits(s, n); }
    forall n: nat | t.hist.released <= n < Queued(t) ensures SlotHolds(t, n) {
      assert SlotHolds(s, n);
      SlotDistinct(n, Queued(s));
    }
  }

  lemma CopyRegionTracked(s: State)
    requires WellFormed(s) && DirtyTracking(s) && Enabled(s, CopyRegion)
    ensures WellFormed(OnCopyRegion(s)) && DirtyTracking(OnCopyRegion(s))
  {
    var t := OnCopyRegion(s);
    forall slot: nat, r: nat | slot < SWAPCHAIN && r < REGIONS ensures RegionTracked(t, slot, r) {
      assert RegionTracked(s, slot, r);
    }
  }

  lemma CopyRegionKeeps(s: State)
    requires Inv(s) && Enabled(s, CopyRegion)
    ensures Inv(Apply(s, CopyRegion))
  {
    CopyRegionSlots(s);
    CopyRegionTracked(s);
    PixelsUntouched(s, Apply(s, CopyRegion));
  }

  /** Although only dirty regions were copied, the filled slot is the whole of guest memory. */
  lemma FilledSlotIsCurrent(s: State)
    requires WellFormed(s) && DirtyTracking(s) && Enabled(s, Publish)
    ensures s.slotMem[s.writeSlot] == s.mem == s.emu.frame.mem
  {
    forall r: nat | r < REGIONS ensures s.slotMem[s.writeSlot][r] == s.mem[r] {
      assert RegionTracked(s, s.writeSlot, r);
    }
  }

  lemma PublishCounters(s: State)
    requires WellFormed(s) && Counters(s) && Cursors(s) && Enabled(s, Publish)
    ensures WellFormed(OnPublish(s)) && Counters(OnPublish(s)) && Cursors(OnPublish(s))
  {}

  lemma PublishSlots(s: State)
    requires WellFormed(s) && Counters(s) && Cursors(s) && Slots(s) && DirtyTracking(s) && Enabled(s, Publish)
    ensures WellFormed(OnPublish(s)) && Slots(OnPublish(s))
  {
    var t := OnPublish(s);
    var e := Queued(s);
    FilledSlotIsCurrent(s);
    forall n: nat | t.hist.released <= n < t.hist.released + 2 ensures SlotBits(t, n) {
      assert SlotBits(s, n);
      if n < e { SlotDistinct(n, e); } else if e < n { SlotDistinct(e, n); }
    }
    forall n: nat | t.hist.released <= n < e + 1 ensures SlotHolds(t, n) {
      if n < e {
        assert SlotHolds(s, n);
        SlotDistinct(n, e);
      }
    }
  }

  lemma PublishTracked(s: State)
    requires WellFormed(s) && DirtyTracking(s) && Enabled(s, Publish)
    ensures WellFormed(OnPublish(s)) && DirtyTracking(OnPublish(s))
  {
    var t := OnPublish(s);
    FilledSlotIsCurrent(s);
    forall slot: nat, r: nat | slot < SWAPCHAIN && r < REGIONS ensures RegionTracked(t, slot, r) {
      assert RegionTracked(s, slot, r);
    }
  }

  lemma PublishKeeps(s: State)
    requires Inv(s) && Enabled(s, Publish)
    ensures Inv(Apply(s, Publish))
  {
    PublishCounters(s);
    PublishSlots(s);
    PublishTracked(s);
    PixelsUntouched(s, Apply(s, Publish));
  }

  /** A worker that finds its slot queued has a queued frame it has not drawn. */
  lemma TakenFrameIsQueued(s: State, h: nat)
    requires WellFormed(s) && Counters(s) && Cursors(s) && Slots(s) && Enabled(s, Take(h))
    ensures s.hist.released <= s.hist.drawn[h] < Queued(s)
  {
    var p, w := s.hist.released, s.hist.drawn[h];
    assert SlotBits(s, p);
    if w < p + 2 {
      assert SlotBits(s, w);
    }
  }

  lemma TakePixels(s: State, h: nat)
    requires WellFormed(s) && Counters(s) && PixelsIntact(s) && Enabled(s, Take(h))
    requires s.hist.drawn[h] < Queued(s)
    ensures WellFormed(Apply(s, Take(h))) && Counters(Apply(s, Take(h))) && PixelsIntact(Apply(s, Take(h)))
  {
    var t := Apply(s, Take(h));
    forall g: nat, n: nat | g < 2 && t.hist.released - 3 <= n < t.hist.drawn[g] ensures RowsDrawn(t, g, n, HALF_LINES) {
      assert RowsDrawn(s, g, n, HALF_LINES);
    }
    forall g: nat | g < 2 && t.workers[g].pc.Drawing? ensures RowsDrawn(t, g, t.hist.drawn[g], t.workers[g].pc.rows) {
      if g != h { assert RowsDrawn(s, g, s.hist.drawn[g], s.workers[g].pc.rows); }
    }
  }

  lemma TakeKeeps(s: State, h: nat)
    requires Inv(s) && Enabled(s, Take(h))
    ensures Inv(Apply(s, Take(h)))
  {
    var t := Apply(s, Take(h));
    TakenFrameIsQueued(s, h);
    TakePixels(s, h);
    SlotsUntouched(s, t);
    DirtyUntouched(s, t);
  }

  /** The row is drawn from the right frame, into a buffer that no earlier live frame occupies. */
  lemma DrawRowSpares(s: State, h: nat, g: nat, n: nat)
    requires WellFormed(s) && Counters(s) && Cursors(s) && Enabled(s, DrawRow(h)) && WellFormed(OnDrawRow(s, h))
    requires g < 2 && s.hist.released - 3 <= n < s.hist.drawn[g] && RowsDrawn(s, g, n, HALF_LINES)
    ensures RowsDrawn(OnDrawRow(s, h), g, n, HALF_LINES)
  {
    if g == h { BufferDistinct(n, s.hist.drawn[h]); }
  }

  lemma DrawRowPixels(s: State, h: nat)
    requires WellFormed(s) && Counters(s) && Cursors(s) && PixelsIntact(s) && Enabled(s, DrawRow(h))
    requires SlotHolds(s, s.hist.drawn[h])
    ensures WellFormed(OnDrawRow(s, h)) && Counters(OnDrawRow(s, h)) && PixelsIntact(OnDrawRow(s, h))
  {
    var t := OnDrawRow(s, h);
    forall g: nat, n: nat | g < 2 && t.hist.released - 3 <= n < t.hist.drawn[g] ensures RowsDrawn(t, g, n, HALF_LINES) {
      DrawRowSpares(s, h, g, n);
    }
    forall g: nat | g < 2 && t.workers[g].pc.Drawing? ensures RowsDrawn(t, g, t.hist.drawn[g], t.workers[g].pc.rows) {
      assert RowsDrawn(s, g, s.hist.drawn[g], s.workers[g].pc.rows);
    }
  }

  lemma DrawRowKeeps(s: State, h: nat)
    requires Inv(s) && Enabled(s, DrawRow(h))
    ensures Inv(Apply(s, DrawRow(h)))
  {
    var t := Apply(s, DrawRow(h));
    assert SlotHolds(s, s.hist.drawn[h]);
    DrawRowPixels(s, h);
    SlotsUntouched(s, t);
    DirtyUntouched(s, t);
  }

  lemma ReportCounters(s: State, h: nat)
    requires WellFormed(s) && Counters(s) && Enabled(s, Report(h))
    ensures WellFormed(OnReport(s, h)) && Counters(OnReport(s, h))
  {}

  lemma ReportCursors(s: State, h: nat)
    requires WellFormed(s) && Cursors(s) && Enabled(s, Report(h))
    ensures WellFormed(OnReport(s, h)) && Cursors(OnReport(s, h))
  {
    CursorStep(s.hist.drawn[h]);
  }

  /** A report sets the worker's bit in its own slot, and leaves the other slot alone. */
  lemma ReportBits(s: State, h: nat, n: nat)
    requires WellFormed(s) && Counters(s) && Cursors(s) && Slots(s) && Enabled(s, Report(h)) && WellFormed(OnReport(s, h))
    requires s.hist.released <= n < s.hist.released + 2
    ensures SlotBits(OnReport(s, h), n)
  {
    var w := s.hist.drawn[h];
    assert SlotBits(s, n);
    if n < w { SlotDistinct(n, w); } else if w < n { SlotDistinct(w, n); }
  }

  lemma ReportSlots(s: State, h: nat)
    requires WellFormed(s) && Counters(s) && Cursors(s) && Slots(s) && Enabled(s, Report(h)) && WellFormed(OnReport(s, h))
    ensures Slots(OnReport(s, h))
  {
    var t := OnReport(s, h);
    forall n: nat | t.hist.released <= n < t.hist.released + 2 ensures SlotBits(t, n) { ReportBits(s, h, n); }
    forall n: nat | t.hist.released <= n < Queued(t) ensures SlotHolds(t, n) { assert SlotHolds(s, n); }
  }

  lemma ReportPixels(s: State, h: nat)
    requires WellFormed(s) && Counters(s) && PixelsIntact(s) && Enabled(s, Report(h))
    requires WellFormed(OnReport(s, h)) && Counters(OnReport(s, h))
    ensures PixelsIntact(OnReport(s, h))
  {
    var t := OnReport(s, h);
    var w := s.hist.drawn[h];
    forall g: nat, n: nat | g < 2 && t.hist.released - 3 <= n < t.hist.drawn[g] ensures RowsDrawn(t, g, n, HALF_LINES) {
      if g == h && n == w {
        assert RowsDrawn(s, h, w, s.workers[h].pc.rows);
      } else {
        assert RowsDrawn(s, g, n, HALF_LINES);
      }
    }
    forall g: nat | g < 2 && t.workers[g].pc.Drawing? ensures RowsDrawn(t, g, t.hist.drawn[g], t.workers[g].pc.rows) {
      assert RowsDrawn(s, g, s.hist.drawn[g], s.workers[g].pc.rows);
    }
  }

  lemma ReportKeeps(s: State, h: nat)
    requires Inv(s) && Enabled(s, Report(h))
    ensures Inv(Apply(s, Report(h)))
  {
    ReportCounters(s, h);
    ReportCursors(s, h);
    ReportSlots(s, h);
    ReportPixels(s, h);
    DirtyUntouched(s, Apply(s, Report(h)));
  }

  /** Observing RASTERED means both workers have finished the present thread's next frame. */
  lemma ObserveKeeps(s: State)
    requires Inv(s) && Enabled(s, Observe)
    ensures Inv(Apply(s, Observe))
  {
    var t := Apply(s, Observe);
    assert SlotBits(s, s.hist.released);
    SlotsUntouched(s, t);
    DirtyUntouched(s, t);
    PixelsUntouched(s, t);
  }

  lemma ReleaseCounters(s: State)
    requires WellFormed(s) && Counters(s) && Cursors(s) && Enabled(s, Release)
    ensures WellFormed(OnRelease(s)) && Counters(OnRelease(s)) && Cursors(OnRelease(s))
  {
    CursorStep(s.hist.released);
    assert s.hist.released < s.hist.drawn[0] <= Queued(s);
  }

  /** Releasing a slot frees it for the frame after next, and leaves the other one alone. */
  lemma ReleaseBits(s: State, n: nat)
    requires WellFormed(s) && Counters(s) && Cursors(s) && Slots(s) && Enabled(s, Release) && WellFormed(OnRelease(s))
    requires s.hist.released + 1 <= n < s.hist.released + 3
    ensures SlotBits(OnRelease(s), n)
  {
    if n == s.hist.released + 1 {
      assert SlotBits(s, n);
      SlotDistinct(s.hist.released, n);
    } else {
      assert n % SWAPCHAIN == s.hist.released % SWAPCHAIN;
    }
  }

  lemma ReleaseSlots(s: State)
    requires WellFormed(s) && Counters(s) && Cursors(s) && Slots(s) && Enabled(s, Release) && WellFormed(OnRelease(s))
    ensures Slots(OnRelease(s))
  {
    var t := OnRelease(s);
    forall n: nat | t.hist.released <= n < t.hist.released + 2 ensures SlotBits(t, n) { ReleaseBits(s, n); }
    forall n: nat | t.hist.released <= n < Queued(t) ensures SlotHolds(t, n) { assert SlotHolds(s, n); }
  }

  lemma ReleaseKeeps(s: State)
    requires Inv(s) && Enabled(s, Release)
    ensures Inv(Apply(s, Release))
  {
    var t := Apply(s, Release);
    ReleaseCounters(s);
    ReleaseSlots(s);
    DirtyUntouched(s, t);
    PixelsUntouched(s, t);
  }

  /** A buffer both workers finished recently is the whole image of its frame. */
  lemma BufferIsImage(s: State, k: nat)
    requires WellFormed(s) && Counters(s) && PixelsIntact(s)
    requires s.hist.released - 3 <= k && k < s.hist.drawn[0] && k < s.hist.drawn[1]
    ensures s.pixels[k % FRAME_BUFS] == ImageOf(s.hist.frames[k])
  {
    assert RowsDrawn(s, 0, k, HALF_LINES) && RowsDrawn(s, 1, k, HALF_LINES);
    forall line: nat | line < HEIGHT
      ensures s.pixels[k % FRAME_BUFS][line] == ImageOf(s.hist.frames[k])[line]
    {
      if line < HALF_LINES { assert 0 * HALF_LINES <= line; } else { assert 1 * HALF_LINES <= line; }
    }
  }

  lemma UploadKeeps(s: State)
    requires Inv(s) && Enabled(s, Upload)
    ensures Inv(Apply(s, Upload))
  {
    var t := Apply(s, Upload);
    BufferIsImage(s, s.hist.swapped);
    SlotsUntouched(s, t);
    DirtyUntouched(s, t);
    PixelsUntouched(s, t);
  }

  lemma SwapReturnKeeps(s: State)
    requires Inv(s) && Enabled(s, SwapReturn)
    ensures Inv(Apply(s, SwapReturn))
  {
    var t := Apply(s, SwapReturn);
    CursorStep(s.hist.swapped);
    SlotsUntouched(s, t);
    DirtyUntouched(s, t);
    PixelsUntouched(s, t);
  }

  lemma ConsumerStepKeeps(s: State, step: Step)
    requires Inv(s) && Enabled(s, step) && IsConsumer(step)
    ensures Inv(Apply(s, step))
  {
    match step
    case Take(h) => TakeKeeps(s, h);
    case DrawRow(h) => DrawRowKeeps(s, h);
    case Report(h) => ReportKeeps(s, h);
    case Observe => ObserveKeeps(s);
    case Release => ReleaseKeeps(s);
    case Upload => UploadKeeps(s);
    case SwapReturn => SwapReturnKeeps(s);
  }

  lemma StepKeeps(s: State, step: Step)
    requires Inv(s) && Enabled(s, step)
    ensures Inv(Apply(s, step))
  {
    match step
    case GuestWrite(_, _) => GuestStepKeeps(s, step);
    case Restore(_) => GuestStepKeeps(s, step);
    case CaptureLine(_) => GuestStepKeeps(s, step);
    case Vblank => VblankKeeps(s);
    case CopyRegion => CopyRegionKeeps(s);
    case Publish => PublishKeeps(s);
    case _ => ConsumerStepKeeps(s, step);
  }

  lemma {:induction false} RunKeeps(s: State, steps: seq<Step>, t: State)
    requires Inv(s) && IsRun(s, steps, t)
    ensures Inv(t)
    decreases steps
  {
    if steps != [] {
      StepKeeps(s, steps[0]);
      RunKeeps(Apply(s, steps[0]), steps[1..], t);
    }
  }

  // ---------------------------------------------------------------------------------------------
  // What holds over every run

  ghost predicate Reachable(s: State) {
    exists s0: State, steps: seq<Step> :: Init(s0) && IsRun(s0, steps, s)
  }

  lemma ReachableInv(s: State)
    requires Reachable(s)
    ensures Inv(s)
  {
    var s0: State, steps: seq<Step> :| Init(s0) && IsRun(s0, steps, s);
    InitEstablishes(s0);
    RunKeeps(s0, steps, s);
  }

  /** The flag byte of both slots is determined by the counters, the counters stay within one ring of
      each other, and the emulation thread drops a frame exactly when two are still in flight. */
  lemma SlotBitsAreExact(s: State)
    requires Reachable(s)
    ensures WellFormed(s)
    ensures forall h :: 0 <= h < 2 ==> s.hist.released <= s.hist.drawn[h] <= Queued(s) <= s.hist.released + 2
    ensures forall n: nat :: s.hist.released <= n < s.hist.released + 2 ==>
              s.slots[n % SWAPCHAIN] == Bits(n < Queued(s), n < s.hist.drawn[0], n < s.hist.drawn[1])
    ensures s.slots[s.writeSlot] != S_FREE <==> Queued(s) == s.hist.released + 2
  {
    ReachableInv(s);
    SlotFreeIff(s);
    forall n: nat | s.hist.released <= n < s.hist.released + 2
      ensures s.slots[n % SWAPCHAIN] == Bits(n < Queued(s), n < s.hist.drawn[0], n < s.hist.drawn[1])
    {
      assert SlotBits(s, n);
    }
  }

  /** A vblank queues its frame exactly when fewer than two are in flight: guest memory as it stands and the lines
      captured since the last one. A dropped frame leaves slots, captures and queue alone. */
  lemma VblankQueuesIff(s: State)
    requires Inv(s) && Enabled(s, Vblank)
    ensures var t := Apply(s, Vblank);
            && (t.emu.Filling? <==> Queued(s) < s.hist.released + 2)
            && (t.emu.Filling? ==> t.emu == Filling(0, Frame(s.mem, s.hist.lines)))
            && (!t.emu.Filling? ==> t.emu == s.emu && t.slotRegs == s.slotRegs && t.capture == s.capture)
            && t.slots == s.slots && t.slotMem == s.slotMem && t.hist == s.hist.(lines := []) && t.mem == s.mem
            && t.writeSlot == s.writeSlot
  {
    SlotFreeIff(s);
  }

  /** A frame being filled is published by the emulation thread alone, whatever the consumers do. */
  lemma {:induction false} FillingPublishes(s: State) returns (steps: seq<Step>, t: State)
    requires Inv(s) && s.emu.Filling?
    ensures IsRun(s, steps, t) && forall k :: 0 <= k < |steps| ==> !IsConsumer(steps[k])
    ensures t.hist == s.hist.(frames := s.hist.frames + [s.emu.frame]) && t.emu.Emulating?
    decreases REGIONS - s.emu.copied
  {
    var step := if s.emu.copied == REGIONS then Publish else CopyRegion;
    StepKeeps(s, step);
    var u := Apply(s, step);
    var rest: seq<Step> := [];
    t := u;
    if s.emu.copied < REGIONS { rest, t := FillingPublishes(u); }
    steps := [step] + rest;
    assert steps[1..] == rest;
  }

  /** So with fewer than two frames in flight a vblank adds exactly its own frame to the queue. */
  lemma VblankPublishes(s: State) returns (steps: seq<Step>, t: State)
    requires Inv(s) && Enabled(s, Vblank) && Queued(s) < s.hist.released + 2
    ensures IsRun(s, [Vblank] + steps, t) && forall k :: 0 <= k < |steps| ==> !IsConsumer(steps[k])
    ensures t.hist.frames == s.hist.frames + [Frame(s.mem, s.hist.lines)] && t.emu.Emulating?
  {
    VblankQueuesIff(s);
    StepKeeps(s, Vblank);
    steps, t := FillingPublishes(Apply(s, Vblank));
    assert ([Vblank] + steps)[1..] == steps;
  }

  /** No two threads touch the same memory: a slot being filled is read by no worker, and a buffer a
      worker draws into is neither the one being uploaded nor the one a screenshot would read. */
  lemma NoSharedAccess(s: State)
    requires Reachable(s)
    ensures WellFormed(s)
    ensures s.emu.Filling? ==>
              forall h: nat :: h < 2 && s.workers[h].pc.Drawing? ==> s.workers[h].slot != s.writeSlot
    ensures s.emu.Filling? ==> forall h: nat :: h < 2 && s.workers[h].slot == s.writeSlot ==> !Enabled(s, Take(h))
    ensures forall h: nat :: h < 2 && s.workers[h].pc.Drawing? ==>
              && (s.present.Uploading? || s.present.Swapping? ==> s.workers[h].pix != s.presentPixels)
              && (s.present.Polling? ==> s.workers[h].pix != (s.presentPixels + FRAME_BUFS - 1) % FRAME_BUFS)
  {
    ReachableInv(s);
    if s.emu.Filling? {
      assert SlotBits(s, Queued(s));
      forall h: nat | h < 2 && s.workers[h].pc.Drawing? ensures s.workers[h].slot != s.writeSlot {
        SlotDistinct(s.hist.drawn[h], Queued(s));
      }
    }
    forall h: nat | h < 2 && s.workers[h].pc.Drawing?
      ensures s.present.Uploading? || s.present.Swapping? ==> s.workers[h].pix != s.presentPixels
      ensures s.present.Polling? ==> s.workers[h].pix != (s.presentPixels + FRAME_BUFS - 1) % FRAME_BUFS
    {
      DrawnBufferIsPrivate(s, h);
    }
  }

  lemma DrawnBufferIsPrivate(s: State, h: nat)
    requires WellFormed(s) && Counters(s) && Cursors(s) && h < 2 && s.workers[h].pc.Drawing?
    ensures s.present.Uploading? || s.present.Swapping? ==> s.workers[h].pix != s.presentPixels
    ensures s.present.Polling? ==> s.workers[h].pix != (s.presentPixels + FRAME_BUFS - 1) % FRAME_BUFS
  {
    var w, x := s.hist.drawn[h], s.hist.swapped;
    assert x <= w < x + 3;
    PreviousBuffer(x);
    if s.present.Uploading? || s.present.Swapping? {
      BufferDistinct(x, w);
    } else {
      BufferDistinct(w, x + FRAME_BUFS - 1);
    }
  }

  /** A worker writes frame n's buffer only once the buffer's previous frame, n-5, and the two frames
      presented after it have all been swapped: the driver may still read a texture after its swap. */
  lemma RewriteSlack(s: State, h: nat)
    requires Reachable(s) && WellFormed(s) && Enabled(s, DrawRow(h))
    ensures s.hist.drawn[h] <= s.hist.swapped + 2
    ensures forall n: nat :: n < s.hist.drawn[h] && n % FRAME_BUFS == s.workers[h].pix ==> n + 3 <= s.hist.swapped
  {
    ReachableInv(s);
    var w := s.hist.drawn[h];
    forall n: nat | n < w && n % FRAME_BUFS == s.workers[h].pix ensures n + 3 <= s.hist.swapped {
      if w < n + FRAME_BUFS { BufferDistinct(n, w); }
    }
  }

  /** The k-th presented image is, on every row of both halves, the rasterization of the whole guest
      video memory at the k-th queued vblank and of the registers captured line by line before it,
      whatever was dirty, dropped, restored or rewound in between. */
  lemma PresentedFramesAreExact(s: State)
    requires Reachable(s)
    ensures |s.hist.presented| <= |s.hist.frames|
    ensures forall k: nat, line: nat :: k < |s.hist.presented| && line < HEIGHT ==>
              s.hist.presented[k][line] == Drawn(s.hist.frames[k].mem, s.hist.frames[k].regs[line], line)
  {
    ReachableInv(s);
    forall k: nat, line: nat | k < |s.hist.presented| && line < HEIGHT
      ensures s.hist.presented[k][line] == Drawn(s.hist.frames[k].mem, s.hist.frames[k].regs[line], line)
    {
      assert s.hist.presented[k] == ImageOf(s.hist.frames[k]);
    }
  }

  /** A frame that is about to be published is the guest's memory and this frame's captures. */
  lemma QueuedFrameIsCurrent(s: State)
    requires Reachable(s) && WellFormed(s) && Enabled(s, Publish)
    ensures s.slotMem[s.writeSlot] == s.mem
    ensures Apply(s, Publish).hist.frames == s.hist.frames + [Frame(s.mem, s.slotRegs[s.writeSlot])]
  {
    ReachableInv(s);
    FilledSlotIsCurrent(s);
  }

  /** The savestate thumbnail reads the last presented frame, even while the workers are drawing. */
  lemma ScreenshotIsLastPresented(s: State)
    requires Reachable(s) && s.present.Polling? && s.hist.swapped > 0
    ensures WellFormed(s) && |s.hist.presented| > 0
    ensures s.pixels[(s.presentPixels + FRAME_BUFS - 1) % FRAME_BUFS] == s.hist.presented[|s.hist.presented| - 1]
  {
    ReachableInv(s);
    var x := s.hist.swapped;
    BufferIsImage(s, x - 1);
    CursorStep(x - 1);
    assert s.hist.presented[x - 1] == ImageOf(s.hist.frames[x - 1]);
  }

  // ---------------------------------------------------------------------------------------------
  // Progress of the consumers

  /** Steps worker `h` still owes for the frames queued so far. */
  function WorkerDebt(s: State, h: nat): int
    requires h < |s.workers| == |s.hist.drawn| == 2
  {
    (HALF_LINES + 2) * (Queued(s) - s.hist.drawn[h])
    - (if s.workers[h].pc.Drawing? then 1 + s.workers[h].pc.rows else 0)
  }

  function PresentDebt(s: State): int {
    4 * (Queued(s) - s.hist.released)
    + match s.present
      case Polling => 0
      case Releasing => -1
      case Uploading => 2
      case Swapping => 1
  }

  function Debt(s: State): int
    requires |s.workers| == |s.hist.drawn| == 2
  {
    WorkerDebt(s, 0) + WorkerDebt(s, 1) + PresentDebt(s)
  }

  lemma DebtIsNonNegative(s: State)
    requires WellFormed(s) && Counters(s)
    ensures 0 <= Debt(s) <= 4 * (HALF_LINES + 2) + 10
  {
    forall h: nat | h < 2 ensures 0 <= WorkerDebt(s, h) <= 2 * (HALF_LINES + 2) {}
  }

  lemma WorkerStepPaysDebt(s: State, step: Step)
    requires WellFormed(s) && Counters(s) && Enabled(s, step) && (step.Take? || step.DrawRow? || step.Report?)
    ensures var t := Apply(s, step);
            && |t.workers| == |t.hist.drawn| == 2 && t.hist.frames == s.hist.frames && PresentDebt(t) == PresentDebt(s)
            && WorkerDebt(t, step.h) == WorkerDebt(s, step.h) - 1
            && WorkerDebt(t, 1 - step.h) == WorkerDebt(s, 1 - step.h)
  {}

  lemma PresentStepPaysDebt(s: State, step: Step)
    requires WellFormed(s) && Enabled(s, step)
    requires step.Observe? || step.Release? || step.Upload? || step.SwapReturn?
    ensures var t := Apply(s, step);
            && t.workers == s.workers && t.hist.drawn == s.hist.drawn && t.hist.frames == s.hist.frames
            && PresentDebt(t) == PresentDebt(s) - 1
  {}

  /** Every consumer step pays one off, and queues nothing. */
  lemma ConsumerStepPaysDebt(s: State, step: Step)
    requires Inv(s) && Enabled(s, step) && IsConsumer(step)
    ensures |Apply(s, step).workers| == |Apply(s, step).hist.drawn| == 2 && Debt(Apply(s, step)) == Debt(s) - 1
    ensures Apply(s, step).hist.frames == s.hist.frames
  {
    if step.Take? || step.DrawRow? || step.Report? {
      WorkerStepPaysDebt(s, step);
    } else {
      PresentStepPaysDebt(s, step);
    }
  }

  /** While a frame is in flight some consumer step is enabled. */
  lemma SomeConsumerCanStep(s: State) returns (step: Step)
    requires Inv(s) && (Queued(s) > s.hist.released || !s.present.Polling?)
    ensures IsConsumer(step) && Enabled(s, step)
  {
    var p := s.hist.released;
    if s.present.Releasing? { return Release; }
    if s.present.Uploading? { return Upload; }
    if s.present.Swapping? { return SwapReturn; }
    assert SlotBits(s, p);
    if s.hist.drawn[0] == p {
      step := WorkerCanStep(s, 0);
    } else if s.hist.drawn[1] == p {
      step := WorkerCanStep(s, 1);
    } else {
      step := Observe;
    }
  }

  lemma WorkerCanStep(s: State, h: nat) returns (step: Step)
    requires WellFormed(s) && Counters(s) && Cursors(s) && h < 2
    requires s.hist.drawn[h] == s.hist.released < Queued(s) && SlotBits(s, s.hist.released)
    ensures IsConsumer(step) && Enabled(s, step)
  {
    step := match s.workers[h].pc
      case Waiting => Take(h)
      case Drawing(rows) => if rows < HALF_LINES then DrawRow(h) else Report(h);
  }

  /** Once no consumer step is enabled both slots are free and every queued frame has been presented. */
  lemma Quiescent(s: State)
    requires Inv(s) && forall step: Step :: IsConsumer(step) ==> !Enabled(s, step)
    ensures s.slots == [S_FREE, S_FREE] && |s.hist.presented| == |s.hist.frames|
  {
    if Queued(s) > s.hist.released || !s.present.Polling? {
      var step := SomeConsumerCanStep(s);
    }
    assert SlotBits(s, s.hist.released) && SlotBits(s, s.hist.released + 1);
  }

  /** Left to themselves the consumers stop after at most `Debt(s)` steps, in whatever order they are
      scheduled, and once no consumer step is enabled both slots are free and exactly the queued frames
      have been presented, each in full. */
  lemma {:induction false} ConsumersDrain(s: State, steps: seq<Step>, t: State)
    requires Inv(s) && IsRun(s, steps, t) && forall i :: 0 <= i < |steps| ==> IsConsumer(steps[i])
    ensures Inv(t) && |steps| + Debt(t) == Debt(s) && Debt(t) >= 0
    ensures t.hist.frames == s.hist.frames
    ensures (forall step: Step :: IsConsumer(step) ==> !Enabled(t, step)) ==>
              t.slots == [S_FREE, S_FREE] && |t.hist.presented| == |t.hist.frames|
    decreases steps
  {
    if steps == [] {
      DebtIsNonNegative(s);
      if forall step: Step :: IsConsumer(step) ==> !Enabled(t, step) { Quiescent(t); }
    } else {
      StepKeeps(s, steps[0]);
      ConsumerStepPaysDebt(s, steps[0]);
      ConsumersDrain(Apply(s, steps[0]), steps[1..], t);
    }
  }
}
