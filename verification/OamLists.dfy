/**
 Object attribute memory, decoded once per frame into per-line sprite lists.

 - `OamScratch.Decode`: for every OAM image and every line of the decoded range, the line's list resolves
   to exactly `SpritesOn`, the eligible sprites covering that line in OAM order;
 - `OnListIff`: which OAM entries those are, and `InOamOrder`: that their order is the OAM order;
 - `CoverageIsModular`: the vertical rule against the 256-line wrap of the sprite's Y coordinate;
 - `OffScreenHasNoPixel`: dropping the sprites left of the screen loses no pixel.
 */
module OamLists {
  import opened Bytes
  import opened Vram

  const WIDTH := 240
  const OBJS := 128
  const HALF_LINES := 80

  type Oam = m: seq<Byte> | |m| == 1024 witness seq(1024, _ => 0)

  /** One OAM entry with everything the per-line draw needs unpacked. */
  datatype Obj = Obj(
    ox: int, oy: int, w: nat, h: nat, boundW: nat, boundH: nat,
    baseTile: nat, stride1d: nat, pa: int, pb: int, pc: int, pd: int,
    prio: nat, palBank: nat,
    affine: bool, semi: bool, window: bool, wide: bool, hFlip: bool, vFlip: bool)

  datatype Attrs = Attrs(a0: nat, a1: nat, a2: nat)

  function AttrsOf(oam: Oam, n: nat): Attrs
    requires n < OBJS
  {
    Attrs(Half(oam, n * 8), Half(oam, n * 8 + 2), Half(oam, n * 8 + 4))
  }

  function Signed16(v: nat): int { if v >= 0x8000 then v - 0x10000 else v }

  function IsAffine(a: Attrs): bool { HasBit(a.a0, 0x100) }
  function GfxMode(a: Attrs): nat { a.a0 / 0x400 % 4 }
  function Shape(a: Attrs): nat { a.a0 / 0x4000 % 4 }
  function SizeIndex(a: Attrs): nat { a.a1 / 0x4000 % 4 }

  /** Disabled, prohibited mode or prohibited shape: never drawn. */
  predicate Drawable(a: Attrs) {
    && (IsAffine(a) || !HasBit(a.a0, 0x200))
    && GfxMode(a) != 3 && Shape(a) != 3
  }

  function ObjWidth(shape: nat, size: nat): nat {
    if shape == 0 then (if size == 0 then 8 else if size == 1 then 16 else if size == 2 then 32 else 64)
    else if shape == 1 then (if size == 0 then 16 else if size == 1 then 32 else if size == 2 then 32 else 64)
    else (if size == 0 then 8 else if size == 1 then 8 else if size == 2 then 16 else 32)
  }

  function ObjHeight(shape: nat, size: nat): nat {
    if shape == 0 then (if size == 0 then 8 else if size == 1 then 16 else if size == 2 then 32 else 64)
    else if shape == 1 then (if size == 0 then 8 else if size == 1 then 8 else if size == 2 then 16 else 32)
    else (if size == 0 then 16 else if size == 1 then 32 else if size == 2 then 32 else 64)
  }

  /** The double-size flag doubles the bounding box of an affine sprite. */
  function Scale(a: Attrs): nat { if IsAffine(a) && HasBit(a.a0, 0x200) then 2 else 1 }
  function BoundW(a: Attrs): nat { ObjWidth(Shape(a), SizeIndex(a)) * Scale(a) }
  function BoundH(a: Attrs): nat { ObjHeight(Shape(a), SizeIndex(a)) * Scale(a) }

  function Top(a: Attrs): int {
    var y := a.a0 % 0x100;
    if y + BoundH(a) > 256 then y - 256 else y
  }

  function Left(a: Attrs): int {
    var x := a.a1 % 0x200;
    if x >= WIDTH then x - 512 else x
  }

  predicate OnScreen(a: Attrs) { Left(a) + BoundW(a) > 0 }

  function Matrix(oam: Oam, a: Attrs, k: nat): int
    requires k < 4
  {
    var group := a.a1 / 0x200 % 32 * 32;
    Signed16(Half(oam, group + 6 + 8 * k))
  }

  function Decoded(oam: Oam, n: nat): Obj
    requires n < OBJS
  {
    var a := AttrsOf(oam, n);
    var affine, wide := IsAffine(a), HasBit(a.a0, 0x2000);
    var w, h := ObjWidth(Shape(a), SizeIndex(a)), ObjHeight(Shape(a), SizeIndex(a));
    Obj(Left(a), Top(a), w, h, BoundW(a), BoundH(a),
        a.a2 % 0x400, w / 8 * (if wide then 2 else 1),
        if affine then Matrix(oam, a, 0) else 0x100, if affine then Matrix(oam, a, 1) else 0,
        if affine then Matrix(oam, a, 2) else 0, if affine then Matrix(oam, a, 3) else 0x100,
        a.a2 / 0x400 % 4, a.a2 / 0x1000 % 16,
        affine, GfxMode(a) == 1, GfxMode(a) == 2, wide,
        !affine && HasBit(a.a1, 0x1000), !affine && HasBit(a.a1, 0x2000))
  }

  // ---------------------------------------------------------------------------------------------
  // The sprites of a line

  /** Entry `n` is eligible and covers the line. */
  predicate On(oam: Oam, line: nat, n: nat)
    requires n < OBJS
  {
    var a := AttrsOf(oam, n);
    Drawable(a) && OnScreen(a) && Top(a) <= line < Top(a) + BoundH(a)
  }

  /** The indices below `n` of the entries on a line. */
  function IndicesOn(oam: Oam, line: nat, n: nat): (r: seq<nat>)
    requires n <= OBJS
    ensures forall i :: 0 <= i < |r| ==> r[i] < n
    decreases n
  {
    if n == 0 then []
    else IndicesOn(oam, line, n - 1) + if On(oam, line, n - 1) then [n - 1] else []
  }

  /** The sprites a line has to draw, in OAM order. */
  function SpritesOn(oam: Oam, line: nat, n: nat): seq<Obj>
    requires n <= OBJS
    decreases n
  {
    if n == 0 then []
    else SpritesOn(oam, line, n - 1) + if On(oam, line, n - 1) then [Decoded(oam, n - 1)] else []
  }

  /** Exactly the entries on the line are listed. */
  lemma {:induction false} OnListIff(oam: Oam, line: nat, n: nat, k: nat)
    requires k < n <= OBJS
    ensures k in IndicesOn(oam, line, n) <==> On(oam, line, k)
    decreases n
  {
    var before, on := IndicesOn(oam, line, n - 1), On(oam, line, n - 1);
    var tail := if on then [n - 1] else [];
    assert IndicesOn(oam, line, n) == before + tail;
    assert k in before + tail <==> k in before || k in tail;
    if k == n - 1 {
      assert k !in before && (k in tail <==> on);
    } else {
      OnListIff(oam, line, n - 1, k);
      assert k !in tail;
    }
  }

  /** Listed in OAM order, each once, and decoded one for one. */
  lemma {:induction false} InOamOrder(oam: Oam, line: nat, n: nat)
    requires n <= OBJS
    ensures forall i, j :: 0 <= i < j < |IndicesOn(oam, line, n)| ==> IndicesOn(oam, line, n)[i] < IndicesOn(oam, line, n)[j]
    ensures |SpritesOn(oam, line, n)| == |IndicesOn(oam, line, n)|
    ensures forall i :: 0 <= i < |IndicesOn(oam, line, n)| ==> SpritesOn(oam, line, n)[i] == Decoded(oam, IndicesOn(oam, line, n)[i])
    decreases n
  {
    if n > 0 {
      InOamOrder(oam, line, n - 1);
    }
  }

  /** The hardware's rule: the Y coordinate counts modulo 256. */
  predicate CoversModulo(a: Attrs, line: nat) { (line - a.a0 % 0x100) % 256 < BoundH(a) }

  /**
   The code's rule is the modular one, except that a box reaching past line 256 shows only above the fold:
   it loses the lines from its Y coordinate down. On the screen that takes a 128-line box.
   */
  lemma CoverageIsModular(a: Attrs, line: nat)
    requires line < 160
    ensures Top(a) <= line < Top(a) + BoundH(a) <==> CoversModulo(a, line) && (a.a0 % 0x100 + BoundH(a) > 256 ==> line < a.a0 % 0x100)
    ensures BoundH(a) < 128 ==> (Top(a) <= line < Top(a) + BoundH(a) <==> CoversModulo(a, line))
  {
    var y := a.a0 % 0x100;
    if line >= y {
      assert (line - y) % 256 == line - y;
    } else {
      assert (line - y) % 256 == line - y + 256;
    }
    assert BoundH(a) <= 128;
  }

  /** A box that ends left of the screen covers no column of it. */
  lemma OffScreenHasNoPixel(a: Attrs, x: nat)
    requires x < WIDTH && !OnScreen(a)
    ensures !(0 <= x - Left(a) < BoundW(a))
  {
  }

  // ---------------------------------------------------------------------------------------------
  // Decoding

  /** `list` names the wanted sprites among the decoded slots. */
  ghost predicate Resolves(list: seq<nat>, objs: seq<Obj>, decoded: nat, want: seq<Obj>)
    requires decoded <= |objs|
  {
    |list| == |want| && forall i :: 0 <= i < |list| ==> list[i] < decoded && objs[list[i]] == want[i]
  }

  /** Decoding `d` into the next slot: the lists it is pushed on gain it, the others keep their meaning. */
  lemma ResolvesMore(list: seq<nat>, objs: seq<Obj>, decoded: nat, want: seq<Obj>, d: Obj)
    requires decoded < |objs| && Resolves(list, objs, decoded, want)
    ensures Resolves(list, objs[decoded := d], decoded + 1, want)
    ensures Resolves(list + [decoded], objs[decoded := d], decoded + 1, want + [d])
  {
  }

  lemma NextOn(oam: Oam, line: nat, n: nat, a: Attrs, top: int, bottom: int)
    requires n < OBJS && a == AttrsOf(oam, n) && top == Top(a) && bottom == Top(a) + BoundH(a)
    ensures SpritesOn(oam, line, n + 1) ==
            if Drawable(a) && OnScreen(a) && top <= line < bottom then SpritesOn(oam, line, n) + [Decoded(oam, n)] else SpritesOn(oam, line, n)
  {
  }

  /** What the lists of a half have to hold after the first `n` entries. */
  ghost function Wanted(oam: Oam, start: nat, end: nat, n: nat): seq<seq<Obj>>
    requires start <= end && n <= OBJS
  {
    seq(end - start, li => if li < 0 then [] else SpritesOn(oam, start + li, n))
  }

  lemma WantedAtFirst(oam: Oam, start: nat, end: nat, wants: seq<seq<Obj>>)
    requires start <= end && wants == Wanted(oam, start, end, 0)
    ensures forall li :: 0 <= li < |wants| ==> wants[li] == []
  {
    forall li | 0 <= li < |wants|
      ensures wants[li] == []
    {
      assert SpritesOn(oam, start + li, 0) == [];
    }
  }

  lemma WantedAtLast(oam: Oam, start: nat, end: nat, wants: seq<seq<Obj>>)
    requires start <= end && wants == Wanted(oam, start, end, OBJS)
    ensures |wants| == end - start && forall li :: 0 <= li < end - start ==> wants[li] == SpritesOn(oam, start + li, OBJS)
  {
  }

  lemma NextWanted(oam: Oam, start: nat, end: nat, n: nat, a: Attrs, top: int, bottom: int, before: seq<seq<Obj>>, after: seq<seq<Obj>>)
    requires start <= end && n < OBJS && a == AttrsOf(oam, n) && top == Top(a) && bottom == Top(a) + BoundH(a)
    requires before == Wanted(oam, start, end, n) && after == Wanted(oam, start, end, n + 1)
    ensures |before| == |after| == end - start
    ensures forall li :: 0 <= li < end - start ==>
              after[li] == if Drawable(a) && OnScreen(a) && top <= start + li < bottom then before[li] + [Decoded(oam, n)] else before[li]
  {
    forall li | 0 <= li < end - start
      ensures after[li] == if Drawable(a) && OnScreen(a) && top <= start + li < bottom then before[li] + [Decoded(oam, n)] else before[li]
    {
      NextOn(oam, start + li, n, a, top, bottom);
    }
  }

  class OamScratch {
    var objs: seq<Obj>
    var lists: seq<seq<nat>>
    var baseLine: nat

    ghost predicate Valid() reads this { |objs| == OBJS && |lists| == HALF_LINES }

    /** Appends a slot to the lists of the lines it covers. */
    method PushLines(lo: nat, hi: nat, slot: nat)
      requires Valid() && hi <= HALF_LINES
      modifies this`lists
      ensures Valid()
      ensures forall li :: 0 <= li < HALF_LINES ==> lists[li] == old(lists[li]) + if lo <= li < hi then [slot] else []
    {
      var li := lo;
      while li < hi
        invariant Valid() && lo <= li && (lo <= hi ==> li <= hi)
        invariant forall k :: 0 <= k < HALF_LINES ==> lists[k] == old(lists[k]) + if lo <= k < li && k < hi then [slot] else []
      {
        lists := lists[li := lists[li] + [slot]];
        li := li + 1;
      }
    }

    /** The lists of the first lines resolve to what is wanted. */
    ghost predicate ListsAre(wants: seq<seq<Obj>>, decoded: nat)
      requires Valid() && |wants| <= HALF_LINES && decoded <= OBJS
      reads this
    {
      forall li :: 0 <= li < |wants| ==> Resolves(lists[li], objs, decoded, wants[li])
    }

    /** Decodes `d` into the next slot and pushes it on lines `lo` to `hi`. */
    method PushEntry(d: Obj, lo: nat, hi: nat, decoded: nat, ghost before: seq<seq<Obj>>, ghost after: seq<seq<Obj>>)
      requires Valid() && decoded < OBJS && |before| == |after| <= HALF_LINES && hi <= HALF_LINES
      requires ListsAre(before, decoded)
      requires forall li :: 0 <= li < |after| ==> after[li] == if lo <= li < hi then before[li] + [d] else before[li]
      modifies this`objs, this`lists
      ensures Valid() && ListsAre(after, decoded + 1)
    {
      forall li | 0 <= li < |before| {
        ResolvesMore(lists[li], objs, decoded, before[li], d);
      }
      objs := objs[decoded := d];
      PushLines(lo, hi, decoded);
    }

    /** One entry of the loop: skipped, or decoded into the next slot and pushed on its lines. */
    method DecodeEntry(oam: Oam, start: nat, end: nat, n: nat, decoded: nat) returns (next: nat)
      requires Valid() && start <= end <= start + HALF_LINES && decoded <= n < OBJS
      requires ListsAre(Wanted(oam, start, end, n), decoded)
      modifies this`objs, this`lists
      ensures Valid() && decoded <= next <= n + 1
      ensures ListsAre(Wanted(oam, start, end, n + 1), next)
    {
      var a := AttrsOf(oam, n);
      var top, bottom := Top(a), Top(a) + BoundH(a);
      ghost var before, after := Wanted(oam, start, end, n), Wanted(oam, start, end, n + 1);
      NextWanted(oam, start, end, n, a, top, bottom, before, after);
      if !Drawable(a) {
        assert after == before;
        return decoded;
      }
      var y0 := if top > start then top else start;
      var y1 := if bottom < end then bottom else end;
      if y0 >= y1 {
        assert after == before;
        return decoded;
      }
      if !OnScreen(a) {
        assert after == before;
        return decoded;
      }
      PushEntry(Decoded(oam, n), y0 - start, y1 - start, decoded, before, after);
      return decoded + 1;
    }

    method Decode(oam: Oam, start: nat, end: nat)
      requires Valid() && start <= end <= start + HALF_LINES
      modifies this
      ensures Valid() && baseLine == start
      ensures forall li :: 0 <= li < end - start ==> Resolves(lists[li], objs, OBJS, SpritesOn(oam, start + li, OBJS))
    {
      baseLine := start;
      var stale := lists;
      lists := seq(HALF_LINES, li requires 0 <= li < |stale| => if li < end - start then [] else stale[li]);
      var decoded := 0;
      WantedAtFirst(oam, start, end, Wanted(oam, start, end, 0));
      for n := 0 to OBJS
        invariant Valid() && baseLine == start && decoded <= n
        invariant ListsAre(Wanted(oam, start, end, n), decoded)
      {
        decoded := DecodeEntry(oam, start, end, n, decoded);
      }
      WantedAtLast(oam, start, end, Wanted(oam, start, end, OBJS));
    }
  }
}
