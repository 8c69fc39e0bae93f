/**
 What a composed pixel is, channel by channel.

 `ComposedIs`: every byte of a composed word is eight times a channel that the effect in force gives in plain
 arithmetic: a weighted sum of the two visible layers, a step towards white or black, or the top layer itself.
 `EffectIs` says which one that is, from the window mask, the object's transparency and the target bits.
 */
module Blending {
  import opened LayerSelect

  /** The target bits of a layer: backgrounds 0 to 3, objects, backdrop, from bit 0 as first and from bit 8 as second
      target. */
  predicate IsTarget(cnt: bv16, layer: nat, first: bool) {
    || (layer == 0 && cnt & (if first then 0x0001 else 0x0100) != 0)
    || (layer == 1 && cnt & (if first then 0x0002 else 0x0200) != 0)
    || (layer == 2 && cnt & (if first then 0x0004 else 0x0400) != 0)
    || (layer == 3 && cnt & (if first then 0x0008 else 0x0800) != 0)
    || (layer == 4 && cnt & (if first then 0x0010 else 0x1000) != 0)
    || (layer == 5 && cnt & (if first then 0x0020 else 0x2000) != 0)
  }

  /** The effect on a pixel whose top and bottom layers are given. */
  function EffectOf(cnt: bv16, effects: bool, semi: bool, top: nat, bottom: nat): Effect {
    var first, second := IsTarget(cnt, top, true), IsTarget(cnt, bottom, false);
    if !effects then Plain
    else if second && ((semi && top == LAYER_OBJ) || (first && cnt & 0x00C0 == 0x0040)) then Alpha
    else if first && cnt & 0x00C0 == 0x0080 then White
    else if first && cnt & 0x00C0 == 0x00C0 then Black
    else Plain
  }

  /** A five-bit register field, at most sixteen. */
  function Sixteenths(bits: bv16): nat
    requires bits < 32
  {
    if bits < 16 then bits as nat else 16
  }

  /** The least of two. */
  function Least(a: nat, b: nat): nat { if a < b then a else b }

  /** A channel `t` over a channel `b` under an effect. */
  function Blended(e: Effect, t: nat, b: nat, eva: nat, evb: nat, evy: nat): int {
    match e
    case Plain => t
    case Alpha => Least((t * eva + b * evb) / 16, 31)
    case White => t + (31 - t) * evy / 16
    case Black => t - t * evy / 16
  }

  /** Channel `k` of a colour word: five bits each, red lowest. */
  function Bits5(c: Color, k: nat): (b: bv16)
    requires k < 3
    ensures b < 32
  {
    if k == 0 then c & 0x1F else if k == 1 then (c >> 5) & 0x1F else (c >> 10) & 0x1F
  }

  function Bits8(word: bv32, k: nat): bv32
    requires k < 3
  {
    if k == 0 then word & 0xFF else if k == 1 then (word >> 8) & 0xFF else (word >> 16) & 0xFF
  }

  // ---------------------------------------------------------------------------------------------
  // Bits

  lemma TargetBits(b: Blend, layer: nat)
    requires layer < 6
    ensures FirstTarget(b, layer) <==> IsTarget(b.cnt, layer, true)
    ensures SecondTarget(b, layer) <==> IsTarget(b.cnt, layer, false)
  {}

  lemma ModeBits(cnt: bv16)
    ensures (cnt >> 6) & 3 == 1 <==> cnt & 0x00C0 == 0x0040
    ensures (cnt >> 6) & 3 == 2 <==> cnt & 0x00C0 == 0x0080
    ensures (cnt >> 6) & 3 == 3 <==> cnt & 0x00C0 == 0x00C0
  {}

  lemma LevelBits(v: Level)
    ensures (v as bv16) < 32 && (v as bv16) as nat == v
  {}

  lemma PackedBits(r: bv16, g: bv16, b: bv16)
    requires r < 32 && g < 32 && b < 32
    ensures Bits5(r | (g << 5) | (b << 10), 0) == r
    ensures Bits5(r | (g << 5) | (b << 10), 1) == g
    ensures Bits5(r | (g << 5) | (b << 10), 2) == b
  {}

  lemma PackIs(r: Level, g: Level, b: Level) returns (x: bv16, y: bv16, z: bv16)
    ensures x < 32 && y < 32 && z < 32 && x as nat == r && y as nat == g && z as nat == b
    ensures Pack(r, g, b) == x | (y << 5) | (z << 10)
  {
    x, y, z := r as bv16, g as bv16, b as bv16;
    LevelBits(r);
    LevelBits(g);
    LevelBits(b);
  }

  lemma FieldsAre(c: Color, x: bv16, y: bv16, z: bv16)
    requires x < 32 && y < 32 && z < 32 && c == x | (y << 5) | (z << 10)
    ensures Bits5(c, 0) == x && Bits5(c, 1) == y && Bits5(c, 2) == z
  {
    PackedBits(x, y, z);
  }

  /** Packing three channels and taking them apart again. */
  lemma PackedLevels(r: Level, g: Level, b: Level, c: Color, k: nat)
    requires c == Pack(r, g, b) && k < 3
    ensures Bits5(c, k) as nat == if k == 0 then r else if k == 1 then g else b
  {
    var x, y, z := PackIs(r, g, b);
    FieldsAre(c, x, y, z);
  }

  lemma WordBits(c: Color)
    ensures Bits8(Abgr(c), 0) == (Bits5(c, 0) as bv32) << 3
    ensures Bits8(Abgr(c), 1) == (Bits5(c, 1) as bv32) << 3
    ensures Bits8(Abgr(c), 2) == (Bits5(c, 2) as bv32) << 3
    ensures Abgr(c) >> 24 == 0xFF
  {}

  lemma Eightfold(b: bv16)
    requires b < 32
    ensures ((b as bv32) << 3) as nat == 8 * (b as nat)
  {}

  lemma ByteLevel(w: bv32, f: bv16)
    requires f < 32 && w == (f as bv32) << 3
    ensures w as nat == 8 * (f as nat)
  {
    Eightfold(f);
  }

  /** Widening: each byte is eight times its channel, under full opacity. */
  lemma WordLevels(c: Color, k: nat)
    requires k < 3
    ensures Bits8(Abgr(c), k) as nat == 8 * (Bits5(c, k) as nat) && Abgr(c) >> 24 == 0xFF
  {
    WordBits(c);
    ByteLevel(Bits8(Abgr(c), k), Bits5(c, k));
  }

  lemma WeightIs(v: bv16)
    ensures v & 0x1F < 32 && (v >> 8) & 0x1F < 32
    ensures Weight(v) == Sixteenths(v & 0x1F) && Weight(v >> 8) == Sixteenths((v >> 8) & 0x1F)
  {
    SixteenIs(v & 0x1F);
    SixteenIs((v >> 8) & 0x1F);
  }

  lemma SixteenIs(bits: bv16)
    requires bits < 32
    ensures (if bits as nat < 16 then bits as nat else 16) == Sixteenths(bits)
  {}

  // ---------------------------------------------------------------------------------------------
  // Pixels

  function EffectAt(b: Blend, o: ObjPixel, mask: Mask, sel: Selection): Effect {
    EffectOf(b.cnt, mask & 0x20 != 0, o.semi, KeyLayer(sel.topKey), KeyLayer(sel.bottomKey))
  }

  function Top(backdrop: Color, sel: Selection): Color { if sel.topKey == KEY_NONE then backdrop else sel.topColor }

  function Bottom(backdrop: Color, sel: Selection): Color { if sel.bottomKey == KEY_NONE then backdrop else sel.bottomColor }

  /** The cases of the blending loop are the effects. */
  lemma EffectIs(b: Blend, o: ObjPixel, mask: Mask, sel: Selection)
    requires Layered(sel)
    ensures Choose(b, o, mask, sel) == EffectAt(b, o, mask, sel)
  {
    TargetBits(b, KeyLayer(sel.topKey));
    TargetBits(b, KeyLayer(sel.bottomKey));
    ModeBits(b.cnt);
  }

  lemma ChannelIs(c: Color, k: nat)
    requires k < 3
    ensures Channel(c, k) == Bits5(c, k) as nat
  {}

  /** The three channels an effect packs. */
  lemma AppliedPacks(e: Effect, b: Blend, top: Color, bottom: Color) returns (r: Level, g: Level, u: Level)
    requires !e.Plain?
    ensures ApplyEffect(e, b, top, bottom) == Pack(r, g, u)
    ensures r == AppliedLevel(e, b, top, bottom, 0) && g == AppliedLevel(e, b, top, bottom, 1)
    ensures u == AppliedLevel(e, b, top, bottom, 2)
  {
    r, g, u := AppliedLevel(e, b, top, bottom, 0), AppliedLevel(e, b, top, bottom, 1), AppliedLevel(e, b, top, bottom, 2);
  }

  function AppliedLevel(e: Effect, b: Blend, top: Color, bottom: Color, k: nat): Level
    requires k < 3
  {
    match e
    case Plain => Channel(top, k)
    case Alpha => Mix(Channel(top, k), Channel(bottom, k), Weight(b.alpha), Weight(b.alpha >> 8))
    case White => Shade(Channel(top, k), Weight(b.y), true)
    case Black => Shade(Channel(top, k), Weight(b.y), false)
  }

  lemma LevelIs(e: Effect, t: Level, b: Level, eva: nat, evb: nat, evy: nat)
    requires evy <= 16
    ensures Blended(e, t, b, eva, evb, evy)
            == match e
               case Plain => t
               case Alpha => Mix(t, b, eva, evb)
               case White => Shade(t, evy, true)
               case Black => Shade(t, evy, false)
  {}

  lemma BlendedLevels(e: Effect, b: Blend, top: Color, bottom: Color, c: Color, k: nat)
    requires k < 3 && c == ApplyEffect(e, b, top, bottom)
    ensures Bits5(c, k) as nat
            == Blended(e, Bits5(top, k) as nat, Bits5(bottom, k) as nat, Weight(b.alpha), Weight(b.alpha >> 8), Weight(b.y))
  {
    ChannelIs(top, k);
    ChannelIs(bottom, k);
    LevelIs(e, Channel(top, k), Channel(bottom, k), Weight(b.alpha), Weight(b.alpha >> 8), Weight(b.y));
    if !e.Plain? {
      var r, g, u := AppliedPacks(e, b, top, bottom);
      PackedLevels(r, g, u, c, k);
    }
  }

  /** Every composed word, byte by byte: eight times the channel that the effect gives, from the colours of the two
      least visible layers and the weights of the line. */
  lemma ComposedIs(l: Line, x: nat, sel: Selection, word: bv32, k: nat)
    requires ValidLine(l) && x < |l.objs| && Composed(l, x, sel, word) && k < 3
    ensures l.blend.alpha & 0x1F < 32 && (l.blend.alpha >> 8) & 0x1F < 32 && l.blend.y & 0x1F < 32
    ensures word >> 24 == 0xFF
    ensures Bits8(word, k) as nat
            == 8 * Blended(EffectAt(l.blend, l.objs[x], l.masks[x], sel),
                           Bits5(Top(l.backdrop, sel), k) as nat, Bits5(Bottom(l.backdrop, sel), k) as nat,
                           Sixteenths(l.blend.alpha & 0x1F), Sixteenths((l.blend.alpha >> 8) & 0x1F),
                           Sixteenths(l.blend.y & 0x1F))
  {
    WeightIs(l.blend.alpha);
    WeightIs(l.blend.y);
    EffectIs(l.blend, l.objs[x], l.masks[x], sel);
    var c := BlendPixel(l.blend, l.backdrop, l.objs[x], l.masks[x], sel);
    BlendedLevels(Choose(l.blend, l.objs[x], l.masks[x], sel), l.blend, Top(l.backdrop, sel), Bottom(l.backdrop, sel), c, k);
    WordLevels(c, k);
  }

  /** The layer numbers the target bits go by. */
  lemma LayersAre(l: Line, x: nat, sel: Selection)
    requires ValidLine(l) && x < |l.objs| && Selects(sel, Visible(l, x))
    ensures sel.topKey == KEY_NONE <==> Visible(l, x) == {}
    ensures KeyLayer(KEY_NONE) == LAYER_BACKDROP
    ensures forall b: nat :: b < 4 && BgVisible(l, x, b) ==> KeyLayer(BgLayer(BgAt(l, x, b)).key) == b
    ensures ObjShows(l.objs[x], l.masks[x]) ==> KeyLayer(ObjLayer(l.objs[x]).key) == LAYER_OBJ
  {
    forall b: nat | b < 4 && BgVisible(l, x, b) ensures KeyLayer(BgLayer(BgAt(l, x, b)).key) == b {
      KeyNamesLayer(l.bgs[b].prio, b);
    }
    KeyNamesLayer(l.objs[x].prio, 0);
  }

  /** A layer is visible where it has an opaque pixel and the window lets its layer through: bits 0 to 3 for the
      backgrounds, bit 4 for the objects. */
  lemma ShowsIs(l: Line, x: nat, b: nat)
    requires ValidLine(l) && x < |l.objs| && b < 4
    ensures ObjShows(l.objs[x], l.masks[x]) <==> l.masks[x] & 0x10 != 0 && l.objs[x].color & 0x8000 != 0
    ensures BgVisible(l, x, b) <==>
              && l.bgs[b].active && l.bgs[b].px[x] & 0x8000 != 0
              && ((b == 0 && l.masks[x] & 1 != 0) || (b == 1 && l.masks[x] & 2 != 0)
                  || (b == 2 && l.masks[x] & 4 != 0) || (b == 3 && l.masks[x] & 8 != 0))
  {}
}
