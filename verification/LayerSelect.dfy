/**
 Composing a pixel: which two layers are on top, and how they blend.

 - `CandidateOrder`: compose lists exactly the active backgrounds, strictly ordered by (priority, index);
 - `SelectScalar` and `SelectVector`: the early-exit ordered walk and the masked running two-minimum
   both pick the visible layers with the least and second least sort key, and therefore agree
   (`SelectionsAgree`), for every object priority and every window mask;
 - `NoBlendShortcut`: where compose takes its shortcut, the full blending of the pixel is the top colour.
 */
module LayerSelect {

  const KEY_NONE := 0xFFFF
  const LAYER_OBJ := 4
  const LAYER_BACKDROP := 5

  type Color = bv16

  const OPAQUE: bv16 := 0x8000
  const COLOR_MASK: bv16 := 0x7FFF

  predicate Valid(c: Color) { c & OPAQUE != 0 }

  /** A background the compositor has to consider, with its pixels: of the line, or of one column. */
  datatype Listing<T> = Candidate(px: T, bg: nat, prio: nat)

  type Candidate = Listing<Color>

  /** The object pixel of a column. */
  datatype ObjPixel = ObjPixel(color: Color, prio: nat, semi: bool)

  function ObjKey(prio: nat): nat { prio * 16 }

  function BgKey(prio: nat, bg: nat): nat { prio * 16 + (bg + 1) }

  /** Layer id for the BLDCNT target tests. */
  function KeyLayer(key: nat): nat {
    if key == KEY_NONE then LAYER_BACKDROP
    else if key % 16 == 0 then LAYER_OBJ
    else key % 16 - 1
  }

  /** A u8 priority fits the key; a background priority is two bits. */
  predicate ValidObj(o: ObjPixel) { o.prio < 256 }

  predicate ValidCandidate<T>(c: Listing<T>) { c.bg < 4 && c.prio < 4 }

  /** The window enable bits of a column: 0-3 backgrounds, 4 objects, 5 effects. */
  type Mask = bv8

  function Bit(i: nat): bv8
    requires i < 8
  {
    if i == 0 then 1 else if i == 1 then 2 else if i == 2 then 4 else if i == 3 then 8
    else if i == 4 then 16 else if i == 5 then 32 else if i == 6 then 64 else 128
  }

  predicate ValidOrder<T>(order: seq<Listing<T>>) { forall i :: 0 <= i < |order| ==> ValidCandidate(order[i]) }

  predicate ObjShows(o: ObjPixel, mask: Mask) { mask & Bit(4) != 0 && Valid(o.color) }

  predicate BgShows(c: Candidate, mask: Mask)
    requires ValidCandidate(c)
  {
    mask & Bit(c.bg) != 0 && Valid(c.px)
  }

  // ---------------------------------------------------------------------------------------------
  // The candidate list

  /** Strictly ordered by (priority, index). */
  ghost predicate Sorted<T>(order: seq<Listing<T>>) {
    forall i, j :: 0 <= i < j < |order| ==>
      order[i].prio < order[j].prio || (order[i].prio == order[j].prio && order[i].bg < order[j].bg)
  }

  /** A background as drawn: whether it was, its priority and its pixels. */
  datatype Bg<T> = Bg(active: bool, prio: nat, px: T)

  ghost predicate Listed<T>(order: seq<Listing<T>>, bgs: seq<Bg<T>>, prio: nat, bg: nat)
    requires |bgs| == 4
  {
    // exactly the active backgrounds that precede (prio, bg) in (priority, index) order
    && (forall c :: c in order ==>
          c.bg < 4 && bgs[c.bg].active && c.prio == bgs[c.bg].prio && c.px == bgs[c.bg].px
          && (c.prio < prio || (c.prio == prio && c.bg < bg)))
    && (forall b: nat :: b < 4 && bgs[b].active && (bgs[b].prio < prio || (bgs[b].prio == prio && b < bg)) ==>
          Candidate(bgs[b].px, b, bgs[b].prio) in order)
  }

  /** Exactly the active backgrounds. */
  ghost predicate Lists<T>(order: seq<Listing<T>>, bgs: seq<Bg<T>>)
    requires |bgs| == 4
  {
    && (forall i :: 0 <= i < |order| ==> var c := order[i];
          c.bg < 4 && bgs[c.bg].active && c == Candidate(bgs[c.bg].px, c.bg, bgs[c.bg].prio))
    && (forall b :: 0 <= b < 4 && bgs[b].active ==> Candidate(bgs[b].px, b, bgs[b].prio) in order)
  }

  /** The two nested loops of compose. */
  method CandidateOrder<T>(bgs: seq<Bg<T>>) returns (order: seq<Listing<T>>)
    requires |bgs| == 4 && forall b :: 0 <= b < 4 ==> bgs[b].prio < 4
    ensures Sorted(order) && |order| <= 4
    ensures Lists(order, bgs)
  {
    order := [];
    for prio := 0 to 4
      invariant Sorted(order) && Listed(order, bgs, prio, 0)
    {
      for bg := 0 to 4
        invariant Sorted(order) && Listed(order, bgs, prio, bg)
      {
        if bgs[bg].active && bgs[bg].prio == prio {
          order := order + [Candidate(bgs[bg].px, bg, prio)];
        }
      }
    }
    SortedIsShort(order);
  }

  ghost function Bgs<T>(order: seq<Listing<T>>): set<nat> { set i | 0 <= i < |order| :: order[i].bg }

  predicate DistinctBgs<T>(order: seq<Listing<T>>) { forall i, j :: 0 <= i < j < |order| ==> order[i].bg != order[j].bg }

  lemma {:induction false} BgsCount<T>(order: seq<Listing<T>>)
    requires DistinctBgs(order)
    ensures |Bgs(order)| == |order|
    decreases |order|
  {
    if order != [] {
      var n := |order| - 1;
      BgsCount(order[..n]);
      assert Bgs(order) == Bgs(order[..n]) + {order[n].bg};
      assert order[n].bg !in Bgs(order[..n]);
    }
  }

  lemma {:induction false} SubsetCount(a: set<nat>, b: set<nat>)
    requires a <= b
    ensures |a| <= |b|
    decreases a
  {
    if x :| x in a {
      SubsetCount(a - {x}, b - {x});
    }
  }

  /** At most four candidates: no background is listed twice. */
  lemma SortedIsShort<T>(order: seq<Listing<T>>)
    requires Sorted(order) && forall i :: 0 <= i < |order| ==> order[i].bg < 4
    requires forall i, j :: 0 <= i < |order| && 0 <= j < |order| && order[i].bg == order[j].bg ==> order[i].prio == order[j].prio
    ensures |order| <= 4
  {
    BgsCount(order);
    SubsetCount(Bgs(order), {0, 1, 2, 3});
  }

  // ---------------------------------------------------------------------------------------------
  // What a selection is

  datatype Layer = Layer(key: nat, color: Color)

  datatype Selection = Selection(topKey: nat, topColor: Color, bottomKey: nat, bottomColor: Color)

  const EMPTY: Selection := Selection(KEY_NONE, 0, KEY_NONE, 0)

  function ObjLayer(o: ObjPixel): Layer { Layer(ObjKey(o.prio), o.color & COLOR_MASK) }

  function BgLayer(c: Candidate): Layer { Layer(BgKey(c.prio, c.bg), c.px & COLOR_MASK) }

  ghost function ObjLayers(o: ObjPixel, mask: Mask): set<Layer> {
    if ObjShows(o, mask) then {ObjLayer(o)} else {}
  }

  ghost function BgLayers(order: seq<Candidate>, mask: Mask): set<Layer>
    requires ValidOrder(order)
  {
    set i | 0 <= i < |order| && BgShows(order[i], mask) :: BgLayer(order[i])
  }

  /** Everything visible on a column. */
  ghost function Layers(o: ObjPixel, order: seq<Candidate>, mask: Mask): set<Layer>
    requires ValidOrder(order)
  {
    ObjLayers(o, mask) + BgLayers(order, mask)
  }

  /** The two least keys, with their colours; KEY_NONE and colour 0 where there is no such layer. */
  ghost predicate Selects(sel: Selection, layers: set<Layer>) {
    var top := Layer(sel.topKey, sel.topColor);
    var bottom := Layer(sel.bottomKey, sel.bottomColor);
    && (if layers == {} then sel == EMPTY
        else top in layers && forall l :: l in layers - {top} ==> top.key < l.key)
    && (if layers <= {top} then sel.bottomKey == KEY_NONE && sel.bottomColor == 0
        else bottom in layers - {top} && forall l :: l in layers - {top, bottom} ==> bottom.key < l.key)
  }

  /** A selection is determined by the layers. */
  lemma SelectionUnique(a: Selection, b: Selection, layers: set<Layer>)
    requires Selects(a, layers) && Selects(b, layers)
    ensures a == b
  {
    if layers != {} {
      assert Layer(a.topKey, a.topColor) == Layer(b.topKey, b.topColor);
      if !(layers <= {Layer(a.topKey, a.topColor)}) {
        assert Layer(a.bottomKey, a.bottomColor) == Layer(b.bottomKey, b.bottomColor);
      }
    }
  }

  // ---------------------------------------------------------------------------------------------
  // The masked running two-minimum, one lane

  function KeyOf(shows: bool, l: Layer): nat { if shows then l.key else KEY_NONE }

  /** The four selects that fold one candidate into the running pair. */
  function Fold(sel: Selection, key: nat, color: Color): Selection {
    var ltBest := key < sel.topKey;
    var ltSecond := key < sel.bottomKey;
    Selection(
      if ltBest then key else sel.topKey,
      if ltBest then color else sel.topColor,
      if ltBest then sel.topKey else if ltSecond then key else sel.bottomKey,
      if ltBest then sel.topColor else if ltSecond then color else sel.bottomColor)
  }

  /** Folding a visible layer with a fresh key extends the selection; a masked one leaves it alone. */
  lemma FoldSelects(sel: Selection, layers: set<Layer>, shows: bool, l: Layer)
    requires Selects(sel, layers) && l.key < KEY_NONE
    requires forall k :: k in layers ==> k.key < KEY_NONE && k.key != l.key
    ensures Selects(Fold(sel, KeyOf(shows, l), l.color), if shows then layers + {l} else layers)
  {
    var top := Layer(sel.topKey, sel.topColor);
    if shows && layers != {} && l.key < top.key {
      assert (layers + {l}) - {l} == layers;
    } else if shows && layers != {} && layers <= {top} {
      assert layers + {l} == {top, l};
    }
  }

  method SelectVector(o: ObjPixel, order: seq<Candidate>, mask: Mask) returns (sel: Selection)
    requires ValidObj(o) && Sorted(order) && ValidOrder(order)
    ensures Selects(sel, Layers(o, order, mask))
  {
    sel := Fold(EMPTY, KeyOf(ObjShows(o, mask), ObjLayer(o)), o.color & COLOR_MASK);
    FoldSelects(EMPTY, {}, ObjShows(o, mask), ObjLayer(o));
    assert Layers(o, order[..0], mask) == ObjLayers(o, mask);
    for i := 0 to |order|
      invariant Selects(sel, Layers(o, order[..i], mask))
    {
      var c := order[i];
      LayersGrow(o, order, i, mask);
      FoldSelects(sel, Layers(o, order[..i], mask), BgShows(c, mask), BgLayer(c));
      sel := Fold(sel, KeyOf(BgShows(c, mask), BgLayer(c)), c.px & COLOR_MASK);
    }
    assert order[..|order|] == order;
  }

  lemma KeysAscend(order: seq<Candidate>, i: nat, j: nat)
    requires Sorted(order) && ValidOrder(order) && i < j < |order|
    ensures BgLayer(order[i]).key < BgLayer(order[j]).key
  {
    assert order[i].bg < 4 && order[i].prio <= order[j].prio;
  }

  /** An object never has a background's key, and lies above it iff its priority is at most the background's. */
  lemma ObjAgainst(o: ObjPixel, c: Candidate)
    requires ValidCandidate(c)
    ensures ObjLayer(o).key != BgLayer(c).key
    ensures ObjLayer(o).key < BgLayer(c).key <==> o.prio <= c.prio
  {
  }

  /** The next candidate's key is new, and it adds its layer where it shows. */
  lemma LayersGrow(o: ObjPixel, order: seq<Candidate>, i: nat, mask: Mask)
    requires ValidObj(o) && Sorted(order) && i < |order| && ValidOrder(order)
    ensures forall k :: k in Layers(o, order[..i], mask) ==> k.key < KEY_NONE && k.key != BgLayer(order[i]).key
    ensures Layers(o, order[..i + 1], mask) ==
            if BgShows(order[i], mask) then Layers(o, order[..i], mask) + {BgLayer(order[i])} else Layers(o, order[..i], mask)
  {
    var next, before := order[..i + 1], order[..i];
    ObjAgainst(o, order[i]);
    forall j | 0 <= j < i
      ensures next[j] == before[j] == order[j] && BgLayer(order[j]).key < BgLayer(order[i]).key
    {
      KeysAscend(order, j, i);
    }
    assert next[i] == order[i];
  }

  // ---------------------------------------------------------------------------------------------
  // The ordered walk with early exit

  /** What the walk has not looked at yet. */
  ghost function Rest(o: ObjPixel, pending: bool, order: seq<Candidate>, i: nat, mask: Mask): set<Layer>
    requires i <= |order| && ValidOrder(order)
  {
    (if pending then {ObjLayer(o)} else {}) + BgLayers(order[i..], mask)
  }

  /** At most the top is taken; everything else is still to come and lies below it. */
  ghost predicate Walking(all: set<Layer>, sel: Selection, filled: bool, rest: set<Layer>) {
    var top := Layer(sel.topKey, sel.topColor);
    && sel.bottomKey == KEY_NONE && sel.bottomColor == 0
    && (if filled then top !in rest && all == rest + {top} && forall r :: r in rest ==> top.key < r.key
        else all == rest && sel == EMPTY)
  }

  function TakeTop(sel: Selection, l: Layer): Selection { sel.(topKey := l.key, topColor := l.color) }

  function TakeBottom(sel: Selection, l: Layer): Selection { sel.(bottomKey := l.key, bottomColor := l.color) }

  /** Taking the least of what is left: the first time the walk goes on, the second time it is over. */
  lemma Takes(all: set<Layer>, sel: Selection, filled: bool, rest: set<Layer>, l: Layer, after: set<Layer>)
    requires Walking(all, sel, filled, rest)
    requires rest == {l} + after && forall r :: r in after ==> l.key < r.key
    ensures filled ==> Selects(TakeBottom(sel, l), all)
    ensures !filled ==> Walking(all, TakeTop(sel, l), true, after)
  {
    if filled {
      assert all - {Layer(sel.topKey, sel.topColor)} == rest;
      assert all - {Layer(sel.topKey, sel.topColor), l} == after;
    }
  }

  /** Candidate `i` is above everything after it. */
  lemma NextBg(order: seq<Candidate>, i: nat, mask: Mask)
    requires i < |order| && Sorted(order) && ValidOrder(order)
    ensures forall r :: r in BgLayers(order[i + 1..], mask) ==> BgLayer(order[i]).key < r.key
    ensures BgLayers(order[i..], mask) ==
            (if BgShows(order[i], mask) then {BgLayer(order[i])} else {}) + BgLayers(order[i + 1..], mask)
  {
    var here, after := order[i..], order[i + 1..];
    assert here == [order[i]] + after;
    forall j | 0 <= j < |after|
      ensures here[j + 1] == after[j] == order[i + 1 + j] && BgLayer(order[i]).key < BgLayer(after[j]).key
    {
      KeysAscend(order, i, i + 1 + j);
    }
  }

  /** The object step: a pending object whose priority comes first is above all the remaining candidates. */
  lemma ObjComesFirst(o: ObjPixel, order: seq<Candidate>, i: nat, mask: Mask)
    requires i < |order| && Sorted(order) && ValidOrder(order) && o.prio <= order[i].prio
    ensures forall r :: r in BgLayers(order[i..], mask) ==> ObjLayer(o).key < r.key
  {
    var here := order[i..];
    forall j | 0 <= j < |here|
      ensures ObjLayer(o).key < BgLayer(here[j]).key
    {
      ObjAgainst(o, here[j]);
    }
  }

  lemma ObjStep(all: set<Layer>, sel: Selection, filled: bool, o: ObjPixel, order: seq<Candidate>, i: nat, mask: Mask)
    requires i <= |order| && Sorted(order) && ValidOrder(order) && (i < |order| ==> o.prio <= order[i].prio)
    requires Walking(all, sel, filled, Rest(o, true, order, i, mask))
    ensures filled ==> Selects(TakeBottom(sel, ObjLayer(o)), all)
    ensures !filled ==> Walking(all, TakeTop(sel, ObjLayer(o)), true, Rest(o, false, order, i, mask))
  {
    if i < |order| { ObjComesFirst(o, order, i, mask); }
    Takes(all, sel, filled, Rest(o, true, order, i, mask), ObjLayer(o), Rest(o, false, order, i, mask));
  }

  lemma BgStep(all: set<Layer>, sel: Selection, filled: bool, o: ObjPixel, pending: bool, order: seq<Candidate>, i: nat, mask: Mask)
    requires i < |order| && Sorted(order) && ValidOrder(order) && (pending ==> o.prio > order[i].prio)
    requires Walking(all, sel, filled, Rest(o, pending, order, i, mask))
    ensures BgShows(order[i], mask) && filled ==> Selects(TakeBottom(sel, BgLayer(order[i])), all)
    ensures BgShows(order[i], mask) && !filled ==>
              Walking(all, TakeTop(sel, BgLayer(order[i])), true, Rest(o, pending, order, i + 1, mask))
    ensures !BgShows(order[i], mask) ==> Walking(all, sel, filled, Rest(o, pending, order, i + 1, mask))
  {
    NextBg(order, i, mask);
    ObjAgainst(o, order[i]);
    if BgShows(order[i], mask) {
      Takes(all, sel, filled, Rest(o, pending, order, i, mask), BgLayer(order[i]), Rest(o, pending, order, i + 1, mask));
    }
  }

  lemma Walked(all: set<Layer>, sel: Selection, filled: bool)
    requires Walking(all, sel, filled, {})
    ensures Selects(sel, all)
  {
  }

  method SelectScalar(o: ObjPixel, order: seq<Candidate>, mask: Mask) returns (sel: Selection)
    requires Sorted(order) && ValidOrder(order)
    ensures Selects(sel, Layers(o, order, mask))
  {
    ghost var all := Layers(o, order, mask);
    var pending := ObjShows(o, mask);
    var filled := false;
    sel := EMPTY;
    assert order[0..] == order;
    for i := 0 to |order|
      invariant Walking(all, sel, filled, Rest(o, pending, order, i, mask))
    {
      var c := order[i];
      if pending && o.prio <= c.prio {
        pending := false;
        ObjStep(all, sel, filled, o, order, i, mask);
        if filled {
          return TakeBottom(sel, ObjLayer(o));
        }
        sel, filled := TakeTop(sel, ObjLayer(o)), true;
      }
      BgStep(all, sel, filled, o, pending, order, i, mask);
      if BgShows(c, mask) {
        if filled {
          return TakeBottom(sel, BgLayer(c));
        }
        sel, filled := TakeTop(sel, BgLayer(c)), true;
      }
    }
    if pending {
      ObjStep(all, sel, filled, o, order, |order|, mask);
      if filled {
        return TakeBottom(sel, ObjLayer(o));
      }
      sel, filled := TakeTop(sel, ObjLayer(o)), true;
    }
    assert Rest(o, false, order, |order|, mask) == {};
    Walked(all, sel, filled);
  }

  /** The debug cross-check of compose never fires: both selections of a column are the same. */
  method SelectionsAgree(o: ObjPixel, order: seq<Candidate>, mask: Mask) returns (agree: bool)
    requires ValidObj(o) && Sorted(order) && ValidOrder(order)
    ensures agree
  {
    var fast := SelectVector(o, order, mask);
    var reference := SelectScalar(o, order, mask);
    SelectionUnique(fast, reference, Layers(o, order, mask));
    agree := fast == reference;
  }

  // ---------------------------------------------------------------------------------------------
  // Blending

  /** One of the three five-bit channels of a colour. */
  type Level = v: nat | v < 32

  function Channel(c: Color, k: nat): Level
    requires k < 3
  {
    var bits := if k == 0 then c & 0x1F else if k == 1 then (c >> 5) & 0x1F else (c >> 10) & 0x1F;
    bits as nat
  }

  function Pack(r: Level, g: Level, b: Level): Color {
    (r as Color) | ((g as Color) << 5) | ((b as Color) << 10)
  }

  function Mix(a: Level, b: Level, eva: nat, evb: nat): Level {
    var m := (a * eva + b * evb) / 16;
    if m < 31 then m else 31
  }

  function AlphaBlend(top: Color, bottom: Color, eva: nat, evb: nat): Color {
    Pack(Mix(Channel(top, 0), Channel(bottom, 0), eva, evb),
         Mix(Channel(top, 1), Channel(bottom, 1), eva, evb),
         Mix(Channel(top, 2), Channel(bottom, 2), eva, evb))
  }

  function Shade(c: Level, evy: nat, up: bool): Level
    requires evy <= 16
  {
    ShadeFits(c, evy);
    if up then c + (31 - c) * evy / 16 else c - c * evy / 16
  }

  lemma ShadeFits(c: Level, evy: nat)
    requires evy <= 16
    ensures 0 <= (31 - c) * evy / 16 <= 31 - c && 0 <= c * evy / 16 <= c
  {
    assert c * evy <= c * 16 && (31 - c) * evy <= (31 - c) * 16;
  }

  function Brightness(c: Color, evy: nat, up: bool): Color
    requires evy <= 16
  {
    Pack(Shade(Channel(c, 0), evy, up), Shade(Channel(c, 1), evy, up), Shade(Channel(c, 2), evy, up))
  }

  /** The blend registers of a line. */
  datatype Blend = Blend(cnt: bv16, alpha: bv16, y: bv16)

  function Weight(v: bv16): (w: nat)
    ensures w <= 16
  {
    var bits := (v & 0x1F) as nat;
    if bits < 16 then bits else 16
  }

  function Mode(b: Blend): bv16 { (b.cnt >> 6) & 3 }

  /** Bit `layer` of BLDCNT. */
  predicate FirstTarget(b: Blend, layer: nat)
    requires layer < 6
  {
    if layer == 0 then b.cnt & 0x0001 != 0 else if layer == 1 then b.cnt & 0x0002 != 0
    else if layer == 2 then b.cnt & 0x0004 != 0 else if layer == 3 then b.cnt & 0x0008 != 0
    else if layer == 4 then b.cnt & 0x0010 != 0 else b.cnt & 0x0020 != 0
  }

  /** Bit 8 + `layer`. */
  predicate SecondTarget(b: Blend, layer: nat)
    requires layer < 6
  {
    if layer == 0 then b.cnt & 0x0100 != 0 else if layer == 1 then b.cnt & 0x0200 != 0
    else if layer == 2 then b.cnt & 0x0400 != 0 else if layer == 3 then b.cnt & 0x0800 != 0
    else if layer == 4 then b.cnt & 0x1000 != 0 else b.cnt & 0x2000 != 0
  }

  /** What the blending loop does with a column. */
  datatype Effect = Plain | Alpha | White | Black

  function Choose(b: Blend, o: ObjPixel, mask: Mask, sel: Selection): Effect
    requires Layered(sel)
  {
    var topLayer, bottomLayer := KeyLayer(sel.topKey), KeyLayer(sel.bottomKey);
    var semi := topLayer == LAYER_OBJ && o.semi;
    var effects := mask & Bit(5) != 0;
    if semi && SecondTarget(b, bottomLayer) && effects then Alpha
    else if effects && FirstTarget(b, topLayer) then
      if Mode(b) == 1 && SecondTarget(b, bottomLayer) then Alpha
      else if Mode(b) == 2 then White
      else if Mode(b) == 3 then Black
      else Plain
    else Plain
  }

  function ApplyEffect(e: Effect, b: Blend, top: Color, bottom: Color): Color {
    match e
    case Plain => top
    case Alpha => AlphaBlend(top, bottom, Weight(b.alpha), Weight(b.alpha >> 8))
    case White => Brightness(top, Weight(b.y), true)
    case Black => Brightness(top, Weight(b.y), false)
  }

  /** The colour the full blending loop gives a column. */
  function BlendPixel(b: Blend, backdrop: Color, o: ObjPixel, mask: Mask, sel: Selection): Color
    requires Layered(sel)
  {
    var top := if sel.topKey == KEY_NONE then backdrop else sel.topColor;
    var bottom := if sel.bottomKey == KEY_NONE then backdrop else sel.bottomColor;
    ApplyEffect(Choose(b, o, mask, sel), b, top, bottom)
  }

  /** A 15-bit colour to an opaque 0xAABBGGRR word. */
  function Abgr(c: Color): bv32 {
    var w := c as bv32;
    ((w & 0x1F) << 3) | ((w & 0x3E0) << 6) | ((w & 0x7C00) << 9) | 0xFF00_0000
  }

  // ---------------------------------------------------------------------------------------------
  // A whole line

  /** What compose reads: objects, window masks, the four backgrounds and the line's registers. */
  datatype Line = Line(
    forcedBlank: bool, backdrop: Color, blend: Blend, anySemi: bool,
    objs: seq<ObjPixel>, masks: seq<Mask>, bgs: seq<Bg<seq<Color>>>)

  /** The object pass raises `anySemi` for every semi-transparent pixel it leaves (module Sprites). */
  ghost predicate ValidLine(l: Line) {
    && |l.masks| == |l.objs| && |l.bgs| == 4
    && (forall b :: 0 <= b < 4 ==> l.bgs[b].prio < 4 && |l.bgs[b].px| == |l.objs|)
    && (forall x :: 0 <= x < |l.objs| ==> ValidObj(l.objs[x]) && (Valid(l.objs[x].color) && l.objs[x].semi ==> l.anySemi))
  }

  ghost function BgsVisible(l: Line, x: nat): set<Layer>
    requires ValidLine(l) && x < |l.objs|
  {
    set b: nat | b < 4 && BgVisible(l, x, b) :: BgLayer(BgAt(l, x, b))
  }

  /** The layers of a column, straight from the drawn backgrounds: no order, no candidate list. */
  ghost function Visible(l: Line, x: nat): set<Layer>
    requires ValidLine(l) && x < |l.objs|
  {
    ObjLayers(l.objs[x], l.masks[x]) + BgsVisible(l, x)
  }

  /** `sel` holds the two least visible layers, and `word` is their blend, widened. */
  ghost predicate Composed(l: Line, x: nat, sel: Selection, word: bv32)
    requires ValidLine(l) && x < |l.objs|
  {
    && Selects(sel, Visible(l, x)) && Layered(sel)
    && word == Abgr(BlendPixel(l.blend, l.backdrop, l.objs[x], l.masks[x], sel))
  }

  predicate Fits(order: seq<Listing<seq<Color>>>, x: nat) { forall i :: 0 <= i < |order| ==> x < |order[i].px| }

  /** The candidates of one column. */
  function At(order: seq<Listing<seq<Color>>>, x: nat): (r: seq<Candidate>)
    requires Fits(order, x)
    ensures ValidOrder(order) ==> ValidOrder(r)
    ensures Sorted(order) ==> Sorted(r)
  {
    seq(|order|, i requires 0 <= i < |order| => Candidate(order[i].px[x], order[i].bg, order[i].prio))
  }

  lemma ListFits(l: Line, order: seq<Listing<seq<Color>>>, x: nat)
    requires ValidLine(l) && x < |l.objs| && Lists(order, l.bgs)
    ensures ValidOrder(order) && Fits(order, x)
  {
  }

  ghost predicate BgVisible(l: Line, x: nat, b: nat)
    requires ValidLine(l) && x < |l.objs| && b < 4
  {
    l.bgs[b].active && l.masks[x] & Bit(b) != 0 && Valid(l.bgs[b].px[x])
  }

  function BgAt(l: Line, x: nat, b: nat): Candidate
    requires |l.bgs| == 4 && b < 4 && x < |l.bgs[b].px|
  {
    Candidate(l.bgs[b].px[x], b, l.bgs[b].prio)
  }

  /** An entry of the list, on this column, is the background it names. */
  lemma ListedIs(l: Line, order: seq<Listing<seq<Color>>>, x: nat, i: nat)
    requires ValidLine(l) && x < |l.objs| && Lists(order, l.bgs) && ValidOrder(order) && Fits(order, x) && i < |order|
    ensures var c := At(order, x)[i]; c == BgAt(l, x, c.bg) && (BgShows(c, l.masks[x]) <==> BgVisible(l, x, c.bg))
  {
  }

  lemma IsListed(l: Line, order: seq<Listing<seq<Color>>>, x: nat, b: nat) returns (i: nat)
    requires ValidLine(l) && x < |l.objs| && Lists(order, l.bgs) && Fits(order, x) && b < 4 && l.bgs[b].active
    ensures i < |order| && At(order, x)[i] == BgAt(l, x, b)
  {
    i :| i < |order| && order[i] == Candidate(l.bgs[b].px, b, l.bgs[b].prio);
  }

  /** The per-line list loses nothing: on every column it shows exactly the visible layers. */
  lemma ListShowsVisible(l: Line, order: seq<Listing<seq<Color>>>, x: nat)
    requires ValidLine(l) && x < |l.objs| && Lists(order, l.bgs) && ValidOrder(order) && Fits(order, x)
    ensures Layers(l.objs[x], At(order, x), l.masks[x]) == Visible(l, x)
  {
    var cs, mask := At(order, x), l.masks[x];
    forall k
      ensures k in BgLayers(cs, mask) <==> k in BgsVisible(l, x)
    {
      if k in BgLayers(cs, mask) {
        var i :| 0 <= i < |cs| && BgShows(cs[i], mask) && k == BgLayer(cs[i]);
        ListedIs(l, order, x, i);
      }
      if k in BgsVisible(l, x) {
        var b: nat :| b < 4 && BgVisible(l, x, b) && k == BgLayer(BgAt(l, x, b));
        var i := IsListed(l, order, x, b);
        ListedIs(l, order, x, i);
      }
    }
  }

  predicate Layered(sel: Selection) { KeyLayer(sel.topKey) < 6 && KeyLayer(sel.bottomKey) < 6 }

  lemma KeyNamesLayer(prio: nat, bg: nat)
    ensures prio < 256 ==> KeyLayer(ObjKey(prio)) == LAYER_OBJ
    ensures prio < 4 && bg < 4 ==> KeyLayer(BgKey(prio, bg)) == bg
  {
  }

  lemma VisibleLayer(l: Line, x: nat, k: Layer)
    requires ValidLine(l) && x < |l.objs| && k in Visible(l, x)
    ensures KeyLayer(k.key) < 6
    ensures KeyLayer(k.key) == LAYER_OBJ ==> ObjShows(l.objs[x], l.masks[x])
  {
    var o := l.objs[x];
    KeyNamesLayer(o.prio, 0);
    if k !in ObjLayers(o, l.masks[x]) {
      var b: nat :| b < 4 && k == BgLayer(BgAt(l, x, b));
      KeyNamesLayer(l.bgs[b].prio, b);
    }
  }

  /** A selected key names one of the six layers, and the object only where it shows. */
  lemma SelectedLayers(sel: Selection, l: Line, x: nat)
    requires ValidLine(l) && x < |l.objs| && Selects(sel, Visible(l, x))
    ensures Layered(sel)
    ensures KeyLayer(sel.topKey) == LAYER_OBJ ==> ObjShows(l.objs[x], l.masks[x])
  {
    var layers := Visible(l, x);
    var top, bottom := Layer(sel.topKey, sel.topColor), Layer(sel.bottomKey, sel.bottomColor);
    if top in layers { VisibleLayer(l, x, top); }
    if bottom in layers { VisibleLayer(l, x, bottom); }
  }

  predicate Shortcut(b: Blend, anySemi: bool) { Mode(b) == 0 && (!anySemi || b.cnt & 0x3F00 == 0) }

  function TopOrBackdrop(backdrop: Color, sel: Selection): Color {
    if sel.topKey == KEY_NONE then backdrop else sel.topColor
  }

  /** No second target bit is set anywhere. */
  lemma NoSecondTarget(b: Blend, layer: nat)
    requires layer < 6 && b.cnt & 0x3F00 == 0
    ensures !SecondTarget(b, layer)
  {
  }

  /** Under the shortcut's guard the full blending of a column is its top colour. */
  lemma NoBlendShortcut(l: Line, x: nat, sel: Selection)
    requires ValidLine(l) && x < |l.objs| && Selects(sel, Visible(l, x)) && Layered(sel)
    requires Shortcut(l.blend, l.anySemi)
    ensures BlendPixel(l.blend, l.backdrop, l.objs[x], l.masks[x], sel) == TopOrBackdrop(l.backdrop, sel)
  {
    SelectedLayers(sel, l, x);
    if l.anySemi { NoSecondTarget(l.blend, KeyLayer(sel.bottomKey)); }
  }

  /** One column: the selection, then the shortcut or the full blend. */
  method ComposePixel(l: Line, order: seq<Candidate>, x: nat) returns (sel: Selection, word: bv32)
    requires ValidLine(l) && x < |l.objs| && Sorted(order) && ValidOrder(order)
    requires Layers(l.objs[x], order, l.masks[x]) == Visible(l, x)
    ensures Composed(l, x, sel, word)
  {
    sel := SelectVector(l.objs[x], order, l.masks[x]);
    SelectedLayers(sel, l, x);
    if Shortcut(l.blend, l.anySemi) {
      NoBlendShortcut(l, x, sel);
      word := Abgr(TopOrBackdrop(l.backdrop, sel));
    } else {
      word := Abgr(BlendPixel(l.blend, l.backdrop, l.objs[x], l.masks[x], sel));
    }
  }

  method ComposeLine(l: Line) returns (sels: seq<Selection>, words: seq<bv32>)
    requires ValidLine(l)
    ensures |words| == |l.objs|
    ensures l.forcedBlank ==> forall x :: 0 <= x < |words| ==> words[x] == 0xFFFF_FFFF
    ensures !l.forcedBlank ==> |sels| == |l.objs| && forall x :: 0 <= x < |words| ==> Composed(l, x, sels[x], words[x])
  {
    if l.forcedBlank {
      return [], seq(|l.objs|, _ => 0xFFFF_FFFF);
    }
    var order := CandidateOrder(l.bgs);
    sels, words := [], [];
    for x := 0 to |l.objs|
      invariant |words| == |sels| == x && forall y :: 0 <= y < x ==> Composed(l, y, sels[y], words[y])
    {
      ListFits(l, order, x);
      ListShowsVisible(l, order, x);
      var sel, word := ComposePixel(l, At(order, x), x);
      sels, words := sels + [sel], words + [word];
    }
  }
}
