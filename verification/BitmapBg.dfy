/**
 Bitmap backgrounds and the affine reference registers.

 - `Draw`: the identity fast path (slice of a row, read straight out of memory) and the general affine
   loop (wrapping 32-bit references, mirrored addresses) both leave `Pixel` on every column, for every
   32-bit reference the registers can hold;
 - `ReferencesBounded`: over every run of register writes and scanline events, the internal references
   stay close to 28 bits, so the affine loop never actually wraps (`NoWrap`).
 */
module BitmapBg {
  import opened Vram

  const WIDTH := 240
  const TWO31 := 0x8000_0000
  const TWO32 := 0x1_0000_0000

  newtype Mode = x: int | 3 <= x <= 5 witness 3

  function Width(mode: Mode): nat { if mode == 5 then 160 else 240 }
  function Height(mode: Mode): nat { if mode == 5 then 128 else 160 }
  function Page(mode: Mode, frameSelect: bool): nat { if mode != 3 && frameSelect then 0xA000 else 0 }

  predicate I32(x: int) { -TWO31 <= x < TWO31 }
  predicate I16(x: int) { -0x8000 <= x < 0x8000 }

  function Wrap32(x: int): (r: int)
    ensures I32(r)
  {
    (x + TWO31) % TWO32 - TWO31
  }

  /** BG2's reference point and matrix column, as captured for a line. */
  datatype Affine = Affine(x: int, y: int, pa: int, pc: int)

  predicate ValidAffine(a: Affine) { I32(a.x) && I32(a.y) && I16(a.pa) && I16(a.pc) }

  /** The reference after `k` wrapping steps. */
  function Ref(c: int, p: int, k: nat): int
    decreases k
  {
    if k == 0 then c else Wrap32(Ref(c, p, k - 1) + p)
  }

  predicate Inside(mode: Mode, x: int, y: int) { 0 <= x < Width(mode) && 0 <= y < Height(mode) }

  function TexelIndex(mode: Mode, x: nat, y: nat): nat { y * Width(mode) + x }

  /** Where a texel lies: one byte each in mode 4, two otherwise. */
  function Address(mode: Mode, page: nat, x: nat, y: nat): nat {
    if mode == 4 then page + TexelIndex(mode, x, y) else page + TexelIndex(mode, x, y) * 2
  }

  /** The texel at an address, read through the mirror; 0 is transparent. */
  function Mirrored(m: Memory, pal: Palette, mode: Mode, at: nat): Color
    requires mode == 4 || at % 2 == 0
  {
    if mode == 4 then
      var index := m[Offset(at)] as nat;
      if index == 0 then 0 else Ink(pal, index)
    else
      (Read16(m, at) as Color) | 0x8000
  }

  function ColorAt(m: Memory, pal: Palette, mode: Mode, page: nat, x: int, y: int): Color
    requires page % 2 == 0
  {
    if Inside(mode, x, y) then Mirrored(m, pal, mode, Address(mode, page, x, y)) else 0
  }

  /** The colour under a pair of 8-bit fixed-point references. */
  function ColorUnder(m: Memory, pal: Palette, mode: Mode, page: nat, cx: int, cy: int): Color
    requires page % 2 == 0
  {
    ColorAt(m, pal, mode, page, cx / 256, cy / 256)
  }

  /** One pixel of the background, on its own. */
  function Pixel(m: Memory, pal: Palette, mode: Mode, frameSelect: bool, a: Affine, px: nat): Color {
    ColorUnder(m, pal, mode, Page(mode, frameSelect), Ref(a.x, a.pa, px), Ref(a.y, a.pc, px))
  }

  // ---------------------------------------------------------------------------------------------
  // The identity matrix

  lemma WrapAdd(x: int, y: int)
    ensures Wrap32(Wrap32(x) + y) == Wrap32(x + y)
  {
    var q := (x + TWO31) / TWO32;
    assert Wrap32(x) == x - TWO32 * q;
    var z := x + y + TWO31;
    assert (z - TWO32 * q) % TWO32 == z % TWO32;
  }

  /** Stepping is multiplication, modulo 2^32. */
  lemma {:induction false} RefIs(c: int, p: int, k: nat)
    requires I32(c)
    ensures Ref(c, p, k) == Wrap32(c + p * k)
    decreases k
  {
    if k > 0 {
      RefIs(c, p, k - 1);
      WrapAdd(c + p * (k - 1), p);
      assert c + p * (k - 1) + p == c + p * k;
    }
  }

  /** A reference that wraps lands far outside the bitmap, so the identity row needs no bound on it. */
  lemma IdentityColumn(c: int, px: nat)
    requires I32(c) && px < WIDTH
    ensures var x := Ref(c, 0x100, px) / 256; (0 <= x < 240 || 0 <= c / 256 + px < 240) ==> x == c / 256 + px
  {
    RefIs(c, 0x100, px);
    assert (c + 0x100 * px) / 256 == c / 256 + px;
    var w := c + 0x100 * px;
    if w >= TWO31 {
      assert Wrap32(w) == w - TWO32;
    } else {
      assert Wrap32(w) == w;
    }
  }

  lemma ConstantRow(c: int, px: nat)
    requires I32(c)
    ensures Ref(c, 0, px) == c
  {
    RefIs(c, 0, px);
  }

  /** Under the identity matrix a pixel is the texel `px` columns right of the reference. */
  lemma IdentityPixel(m: Memory, pal: Palette, mode: Mode, frameSelect: bool, a: Affine, px: nat)
    requires ValidAffine(a) && a.pa == 0x100 && a.pc == 0 && px < WIDTH
    ensures var x, y := a.x / 256 + px, a.y / 256;
            Pixel(m, pal, mode, frameSelect, a, px) == ColorAt(m, pal, mode, Page(mode, frameSelect), x, y)
  {
    IdentityColumn(a.x, px);
    ConstantRow(a.y, px);
  }

  /** Bitmap pages end below the mirror: a texel is read straight out of memory. */
  function Direct(m: Memory, pal: Palette, mode: Mode, at: nat): Color
    requires at + (if mode == 4 then 0 else 1) < SIZE
  {
    if mode == 4 then
      if m[at] == 0 then 0 else Ink(pal, m[at] as nat)
    else
      (Half(m, at) as Color) | 0x8000
  }

  lemma AddressFits(mode: Mode, frameSelect: bool, x: nat, y: nat)
    requires Inside(mode, x, y)
    ensures Address(mode, Page(mode, frameSelect), x, y) + 1 < SIZE
  {
    if mode == 5 { assert TexelIndex(mode, x, y) < 160 * 128; } else { assert TexelIndex(mode, x, y) < 240 * 160; }
  }

  lemma DirectIsMirrored(m: Memory, pal: Palette, mode: Mode, at: nat)
    requires at + 1 < SIZE && (mode == 4 || at % 2 == 0)
    ensures Direct(m, pal, mode, at) == Mirrored(m, pal, mode, at)
  {
    BelowMirror(at);
  }

  /** The bitmap's addresses are below the mirror, so they stand for themselves. */
  lemma BelowMirror(at: nat)
    requires at < 0x18000
    ensures Offset(at) == at
  {}

  /** Walking along the row from the start of the span. */
  lemma ColumnAddress(mode: Mode, frameSelect: bool, x0: int, lo: nat, px: nat, y: nat, base: nat, at: nat)
    requires lo <= px && 0 <= x0 + lo && Inside(mode, x0 + px, y) && base == Address(mode, Page(mode, frameSelect), x0 + lo, y)
    requires at == if mode == 4 then base + (px - lo) else base + (px - lo) * 2
    ensures at == Address(mode, Page(mode, frameSelect), x0 + px, y) && at + 1 < SIZE && (mode == 4 || at % 2 == 0)
  {
    AddressFits(mode, frameSelect, x0 + px, y);
  }

  // ---------------------------------------------------------------------------------------------
  // Drawing

  /** What the fast path reads for a column of the span is that column's pixel. */
  lemma IdentityTexel(m: Memory, pal: Palette, mode: Mode, frameSelect: bool, a: Affine, lo: nat, base: nat, px: nat, at: nat)
    requires ValidAffine(a) && a.pa == 0x100 && a.pc == 0 && lo <= px < WIDTH && a.x / 256 + lo >= 0
    requires Inside(mode, a.x / 256 + px, a.y / 256) && base == Address(mode, Page(mode, frameSelect), a.x / 256 + lo, a.y / 256)
    requires at == if mode == 4 then base + (px - lo) else base + (px - lo) * 2
    ensures at + 1 < SIZE && Direct(m, pal, mode, at) == Pixel(m, pal, mode, frameSelect, a, px)
  {
    ColumnAddress(mode, frameSelect, a.x / 256, lo, px, a.y / 256, base, at);
    DirectIsMirrored(m, pal, mode, at);
    IdentityPixel(m, pal, mode, frameSelect, a, px);
  }

  ghost function Pixels(m: Memory, pal: Palette, mode: Mode, frameSelect: bool, a: Affine): seq<Color> {
    seq(WIDTH, px => if px < 0 then 0 else Pixel(m, pal, mode, frameSelect, a, px))
  }

  /** Columns `lo` to `hi` are drawn, the others still cleared. */
  predicate Drawn(s: seq<Color>, want: seq<Color>, lo: nat, hi: nat)
    requires |s| == |want| == WIDTH
  {
    forall k :: 0 <= k < WIDTH ==> s[k] == if lo <= k < hi then want[k] else 0
  }

  function Clamp(x: int): nat { if x < 0 then 0 else if x > WIDTH then WIDTH else x }

  /** Columns outside the clamped span are transparent; the span itself is inside the bitmap. */
  lemma IdentitySpan(m: Memory, pal: Palette, mode: Mode, frameSelect: bool, a: Affine, lo: nat, hi: nat, want: seq<Color>)
    requires ValidAffine(a) && a.pa == 0x100 && a.pc == 0 && want == Pixels(m, pal, mode, frameSelect, a)
    requires lo == Clamp(-(a.x / 256)) && hi == Clamp(Width(mode) - a.x / 256)
    ensures !(0 <= a.y / 256 < Height(mode)) ==> forall k :: 0 <= k < WIDTH ==> want[k] == 0
    ensures forall k :: 0 <= k < WIDTH && !(lo <= k < hi) ==> want[k] == 0
  {
    forall k | 0 <= k < WIDTH
      ensures !(0 <= a.y / 256 < Height(mode)) ==> want[k] == 0
      ensures !(lo <= k < hi) ==> want[k] == 0
    {
      IdentityPixel(m, pal, mode, frameSelect, a, k);
    }
  }

  /** The next column: a transparent pixel is left cleared. */
  method Put(out: array<Color>, px: nat, color: Color, ghost want: seq<Color>, ghost lo: nat)
    requires out.Length == |want| == WIDTH && lo <= px < WIDTH && want[px] == color && Drawn(out[..], want, lo, px)
    modifies out
    ensures Drawn(out[..], want, lo, px + 1)
  {
    if color != 0 {
      out[px] := color;
    }
  }

  method DrawIdentity(m: Memory, pal: Palette, mode: Mode, frameSelect: bool, a: Affine, out: array<Color>)
    requires ValidAffine(a) && a.pa == 0x100 && a.pc == 0
    requires out.Length == WIDTH && forall k :: 0 <= k < WIDTH ==> out[k] == 0
    modifies out
    ensures out[..] == Pixels(m, pal, mode, frameSelect, a)
  {
    ghost var want := Pixels(m, pal, mode, frameSelect, a);
    var y, x0 := a.y / 256, a.x / 256;
    var lo, hi := Clamp(-x0), Clamp(Width(mode) - x0);
    IdentitySpan(m, pal, mode, frameSelect, a, lo, hi, want);
    if y < 0 || y >= Height(mode) || lo >= hi {
      assert forall k :: 0 <= k < WIDTH ==> want[k] == 0;
      return;
    }
    var base := Address(mode, Page(mode, frameSelect), x0 + lo, y);
    for px := lo to hi
      invariant Drawn(out[..], want, lo, px)
    {
      var at := if mode == 4 then base + (px - lo) else base + (px - lo) * 2;
      IdentityTexel(m, pal, mode, frameSelect, a, lo, base, px, at);
      var color := Direct(m, pal, mode, at);
      Put(out, px, color, want, lo);
    }
  }

  /** The references of the walk give the column's pixel, and step to the next column's. */
  lemma AffineColumn(m: Memory, pal: Palette, mode: Mode, frameSelect: bool, a: Affine, px: nat, want: seq<Color>, cx: int, cy: int)
    requires px < WIDTH && want == Pixels(m, pal, mode, frameSelect, a)
    requires cx == Ref(a.x, a.pa, px) && cy == Ref(a.y, a.pc, px)
    ensures want[px] == ColorUnder(m, pal, mode, Page(mode, frameSelect), cx, cy)
    ensures Wrap32(cx + a.pa) == Ref(a.x, a.pa, px + 1) && Wrap32(cy + a.pc) == Ref(a.y, a.pc, px + 1)
  {}

  method DrawAffine(m: Memory, pal: Palette, mode: Mode, frameSelect: bool, a: Affine, out: array<Color>)
    requires out.Length == WIDTH && forall k :: 0 <= k < WIDTH ==> out[k] == 0
    modifies out
    ensures out[..] == Pixels(m, pal, mode, frameSelect, a)
  {
    ghost var want := Pixels(m, pal, mode, frameSelect, a);
    var cx, cy := a.x, a.y;
    for px := 0 to WIDTH
      invariant cx == Ref(a.x, a.pa, px) && cy == Ref(a.y, a.pc, px)
      invariant Drawn(out[..], want, 0, px)
    {
      var color := ColorUnder(m, pal, mode, Page(mode, frameSelect), cx, cy);
      AffineColumn(m, pal, mode, frameSelect, a, px, want, cx, cy);
      cx, cy := Wrap32(cx + a.pa), Wrap32(cy + a.pc);
      Put(out, px, color, want, 0);
    }
  }

  method Draw(m: Memory, pal: Palette, mode: Mode, frameSelect: bool, a: Affine, out: array<Color>)
    requires ValidAffine(a)
    requires out.Length == WIDTH && forall k :: 0 <= k < WIDTH ==> out[k] == 0
    modifies out
    ensures forall px :: 0 <= px < WIDTH ==> out[px] == Pixel(m, pal, mode, frameSelect, a, px)
  {
    if a.pa == 0x100 && a.pc == 0 {
      DrawIdentity(m, pal, mode, frameSelect, a, out);
    } else {
      DrawAffine(m, pal, mode, frameSelect, a, out);
    }
    assert forall px :: 0 <= px < WIDTH ==> out[px] == out[..][px];
  }

  // ---------------------------------------------------------------------------------------------
  // The reference registers over a run

  /** One axis of one background: the written reference, the internal one, its step, and the video line. */
  datatype Axis = Axis(reference: int, internal: int, step: int, line: nat, inHblank: bool)

  datatype Event = WriteRef(mask: bv32, value: bv32) | WriteStep(factor: int) | HblankStart | LineEnd

  const VISIBLE_LINES := 160
  const TOTAL_LINES := 228

  function SignExtend28(w: bv32): (r: int)
    ensures -0x800_0000 <= r < 0x800_0000
  {
    var v := w as int % 0x1000_0000;
    if v >= 0x800_0000 then v - 0x1000_0000 else v
  }

  function AsU32(x: int): bv32
    requires I32(x)
  {
    (if x < 0 then x + TWO32 else x) as bv32
  }

  predicate Enabled(s: Axis, e: Event) {
    match e
    case WriteRef(_, _) => true
    case WriteStep(v) => I16(v)
    case HblankStart => !s.inHblank
    case LineEnd => s.inHblank
  }

  function Step(s: Axis, e: Event): Axis
    requires I32(s.reference)
  {
    match e
    case WriteRef(mask, value) =>
      var r := SignExtend28((AsU32(s.reference) & !mask) | (value & mask));
      s.(reference := r, internal := r)
    case WriteStep(v) => s.(step := v)
    case HblankStart =>
      var next := if s.line < VISIBLE_LINES then Wrap32(s.internal + s.step) else s.internal;
      s.(internal := next, inHblank := true)
    case LineEnd =>
      if s.line + 1 == TOTAL_LINES then s.(line := 0, internal := s.reference, inHblank := false)
      else s.(line := s.line + 1, inHblank := false)
  }

  /** How often the internal reference can have been stepped since its last reload. */
  function Steps(s: Axis): nat {
    var n := s.line + if s.inHblank then 1 else 0;
    if n < VISIBLE_LINES then n else VISIBLE_LINES
  }

  predicate Bounded(s: Axis) {
    && s.line < TOTAL_LINES && I16(s.step) && -0x800_0000 <= s.reference < 0x800_0000
    && -0x800_0000 - 0x8000 * Steps(s) <= s.internal < 0x800_0000 + 0x8000 * Steps(s)
  }

  lemma StepBounded(s: Axis, e: Event)
    requires Bounded(s) && Enabled(s, e)
    ensures Bounded(Step(s, e))
  {
  }

  ghost predicate IsRun(states: seq<Axis>, events: seq<Event>) {
    && |states| == |events| + 1 && Bounded(states[0]) && states[0].internal == states[0].reference
    && forall i :: 0 <= i < |events| ==> I32(states[i].reference) && Enabled(states[i], events[i]) && states[i + 1] == Step(states[i], events[i])
  }

  /** Over every run the internal references stay near 28 bits. */
  lemma {:induction false} ReferencesBounded(states: seq<Axis>, events: seq<Event>, i: nat)
    requires IsRun(states, events) && i <= |events|
    ensures Bounded(states[i])
  {
    if i > 0 {
      ReferencesBounded(states, events, i - 1);
      StepBounded(states[i - 1], events[i - 1]);
    }
  }

  lemma MulBound(p: int, px: nat)
    requires I16(p) && px <= WIDTH
    ensures -0x8000 * WIDTH <= p * px <= 0x8000 * WIDTH
  {
    if p >= 0 {
      assert p * px <= p * WIDTH;
    } else {
      assert p * px >= p * WIDTH;
    }
  }

  lemma WrapIs(x: int)
    requires I32(x)
    ensures Wrap32(x) == x
  {
  }

  /** So from any captured reference the affine loop computes the exact, unwrapped coordinate. */
  lemma NoWrap(s: Axis, p: int, px: nat)
    requires Bounded(s) && I16(p) && px <= WIDTH
    ensures Ref(s.internal, p, px) == s.internal + p * px
  {
    RefIs(s.internal, p, px);
    MulBound(p, px);
    WrapIs(s.internal + p * px);
  }
}
