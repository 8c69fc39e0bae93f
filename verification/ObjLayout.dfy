/**
 Sprites from their attributes and bytes, in plain arithmetic.

 - `DecodedIs`: an attribute entry put together from its fields decodes to those fields, for every field;
 - `SizesAre`: the twelve sprite sizes;
 - `TexelIs`: which byte of the character memory a texel is, under both tile mappings;
 - `FlipsMirror`, `IdentityIsRegular`, `AffineIs`: what the flip bits and the matrix do to a sprite.
 */
module ObjLayout {
  import opened Arithmetic
  import opened OamLists
  import opened Sprites
  import opened Vram

  function Flag(b: bool): nat { if b then 1 else 0 }

  // ---------------------------------------------------------------------------------------------
  // Attributes

  /** An entry by its fields. `double` disables a sprite that is not affine; `param` is the matrix group of an affine
      sprite, and has the flips of another in its two high bits. */
  datatype Fields = Fields(
    y: nat, affine: bool, double: bool, mode: nat, mosaic: bool, wide: bool, shape: nat,
    x: nat, param: nat, size: nat,
    tile: nat, prio: nat, bank: nat)

  predicate ValidFields(f: Fields) {
    && f.y < 256 && f.mode < 4 && f.shape < 4
    && f.x < 512 && f.param < 32 && f.size < 4
    && f.tile < 1024 && f.prio < 4 && f.bank < 16
  }

  function Packed(f: Fields): Attrs {
    Attrs(f.y + 256 * Flag(f.affine) + 512 * Flag(f.double) + 1024 * f.mode + 4096 * Flag(f.mosaic) + 8192 * Flag(f.wide)
          + 16384 * f.shape,
          f.x + 512 * f.param + 16384 * f.size,
          f.tile + 1024 * f.prio + 4096 * f.bank)
  }

  lemma FirstWord(w: nat, y: nat, affine: nat, double: nat, mode: nat, mosaic: nat, wide: nat, shape: nat)
    requires y < 256 && affine < 2 && double < 2 && mode < 4 && mosaic < 2 && wide < 2 && shape < 4
    requires w == y + 256 * affine + 512 * double + 1024 * mode + 4096 * mosaic + 8192 * wide + 16384 * shape
    ensures w % 256 == y && w / 256 % 2 == affine && w / 512 % 2 == double && w / 1024 % 4 == mode
    ensures w / 8192 % 2 == wide && w / 16384 % 4 == shape
  {
    var high := mode + 4 * (mosaic + 2 * (wide + 2 * shape));
    DivModIs(w, 256, affine + 2 * (double + 2 * high), y);
    DivModIs(w, 512, double + 2 * high, y + 256 * affine);
    DivModIs(w, 1024, high, y + 256 * affine + 512 * double);
    DivModIs(high, 4, mosaic + 2 * (wide + 2 * shape), mode);
    DivModIs(w, 8192, wide + 2 * shape, y + 256 * affine + 512 * double + 1024 * mode + 4096 * mosaic);
    DivModIs(w, 16384, shape, y + 256 * affine + 512 * double + 1024 * mode + 4096 * mosaic + 8192 * wide);
  }

  lemma SecondWord(w: nat, x: nat, param: nat, size: nat)
    requires x < 512 && param < 32 && size < 4 && w == x + 512 * param + 16384 * size
    ensures w % 512 == x && w / 512 % 32 == param && w / 16384 % 4 == size
    ensures w / 4096 % 2 == param / 8 % 2 && w / 8192 % 2 == param / 16
  {
    DivModIs(w, 512, param + 32 * size, x);
    DivModIs(param + 32 * size, 32, size, param);
    DivModIs(w, 16384, size, x + 512 * param);
    FlipBits(w, x, param % 8, param / 8 % 2, param / 16, size, param);
  }

  lemma FlipBits(w: nat, x: nat, low: nat, h: nat, v: nat, size: nat, param: nat)
    requires x < 512 && low < 8 && h < 2 && v < 2 && param == low + 8 * h + 16 * v && w == x + 512 * param + 16384 * size
    ensures w / 4096 % 2 == h && w / 8192 % 2 == v
  {
    DivModIs(w, 4096, h + 2 * (v + 2 * size), x + 512 * low);
    DivModIs(w, 8192, v + 2 * size, x + 512 * (low + 8 * h));
  }

  lemma ThirdWord(w: nat, tile: nat, prio: nat, bank: nat)
    requires tile < 1024 && prio < 4 && bank < 16 && w == tile + 1024 * prio + 4096 * bank
    ensures w % 1024 == tile && w / 1024 % 4 == prio && w / 4096 % 16 == bank
  {
    DivModIs(w, 1024, prio + 4 * bank, tile);
    DivModIs(w, 4096, bank, tile + 1024 * prio);
  }

  /** Width and height: squares of 8, 16, 32 and 64, oblongs lying or standing. */
  const SIZES: seq<seq<(nat, nat)>> := [
    [(8, 8), (16, 16), (32, 32), (64, 64)],
    [(16, 8), (32, 8), (32, 16), (64, 32)],
    [(8, 16), (8, 32), (16, 32), (32, 64)]]

  lemma SizesAre(shape: nat, size: nat)
    requires shape < 3 && size < 4
    ensures (ObjWidth(shape, size), ObjHeight(shape, size)) == SIZES[shape][size]
  {
    assert shape == 0 || shape == 1 || shape == 2;
    assert size == 0 || size == 1 || size == 2 || size == 3;
  }

  /** When an entry is drawn at all. */
  lemma DrawableIs(f: Fields)
    requires ValidFields(f)
    ensures Drawable(Packed(f)) <==> (f.affine || !f.double) && f.mode < 3 && f.shape < 3
  {
    FirstWord(Packed(f).a0, f.y, Flag(f.affine), Flag(f.double), f.mode, Flag(f.mosaic), Flag(f.wide), f.shape);
  }

  /** The bounding box: twice the sprite's size under the double flag of an affine one, wrapped to the left of column 240
      and above line 256. */
  lemma BoxIs(f: Fields)
    requires ValidFields(f) && f.shape < 3
    ensures var a, (w, h) := Packed(f), SIZES[f.shape][f.size];
            var scale := if f.affine && f.double then 2 else 1;
            && BoundW(a) == w * scale && BoundH(a) == h * scale
            && Left(a) == (if f.x < 240 then f.x else f.x - 512)
            && Top(a) == (if f.y + h * scale <= 256 then f.y else f.y - 256)
  {
    SizesAre(f.shape, f.size);
    FirstWord(Packed(f).a0, f.y, Flag(f.affine), Flag(f.double), f.mode, Flag(f.mosaic), Flag(f.wide), f.shape);
    SecondWord(Packed(f).a1, f.x, f.param, f.size);
  }

  /** Matrix entry `k` of a group: the fourth halfword of every entry holds one. */
  function MatrixOf(oam: Oam, group: nat, k: nat): int
    requires group < 32 && k < 4
  {
    Signed16(Half(oam, 8 * (4 * group + k) + 6))
  }

  /** Decoding gives back what the entry was put together from. */
  lemma DecodedIs(oam: Oam, n: nat, f: Fields)
    requires n < OBJS && ValidFields(f) && f.shape < 3 && AttrsOf(oam, n) == Packed(f)
    ensures var d, (w, h) := Decoded(oam, n), SIZES[f.shape][f.size];
            && d.w == w && d.h == h && d.ox == Left(Packed(f)) && d.oy == Top(Packed(f))
            && d.boundW == BoundW(Packed(f)) && d.boundH == BoundH(Packed(f))
            && d.baseTile == f.tile && d.prio == f.prio && d.palBank == f.bank
            && d.affine == f.affine && d.semi == (f.mode == 1) && d.window == (f.mode == 2) && d.wide == f.wide
            && d.hFlip == (!f.affine && f.param / 8 % 2 == 1) && d.vFlip == (!f.affine && f.param / 16 == 1)
  {
    SizesAre(f.shape, f.size);
    FirstWord(Packed(f).a0, f.y, Flag(f.affine), Flag(f.double), f.mode, Flag(f.mosaic), Flag(f.wide), f.shape);
    SecondWord(Packed(f).a1, f.x, f.param, f.size);
    ThirdWord(Packed(f).a2, f.tile, f.prio, f.bank);
  }

  /** A halfword as a two's complement number. */
  lemma SignedIs(v: nat)
    requires v < 0x1_0000
    ensures -0x8000 <= Signed16(v) < 0x8000 && (Signed16(v) == v || Signed16(v) == v - 0x1_0000)
  {}

  /** And the matrix of its group. */
  lemma MatrixIs(oam: Oam, n: nat, f: Fields)
    requires n < OBJS && ValidFields(f) && AttrsOf(oam, n) == Packed(f) && f.affine
    ensures var d := Decoded(oam, n);
            && d.pa == MatrixOf(oam, f.param, 0) && d.pb == MatrixOf(oam, f.param, 1)
            && d.pc == MatrixOf(oam, f.param, 2) && d.pd == MatrixOf(oam, f.param, 3)
  {
    FirstWord(Packed(f).a0, f.y, Flag(f.affine), Flag(f.double), f.mode, Flag(f.mosaic), Flag(f.wide), f.shape);
    SecondWord(Packed(f).a1, f.x, f.param, f.size);
  }

  // ---------------------------------------------------------------------------------------------
  // Texels

  /** How many tiles a texel is past the sprite's first: the sprite's own rows under one-dimensional mapping, rows of 32
      under two-dimensional mapping; a tile of 256 colours counts for two. */
  function TilesPast(ctx: Ctx, d: Obj, tx: nat, ty: nat): nat {
    var step := if d.wide then 2 else 1;
    if ctx.mapping1d then step * (ty / 8 * (d.w / 8) + tx / 8) else 32 * (ty / 8) + step * (tx / 8)
  }

  /** The byte of a texel: eight rows of eight bytes to a tile, or of four with two texels each. */
  function TexelAddress(ctx: Ctx, d: Obj, tx: nat, ty: nat): nat {
    0x10000 + 32 * ((d.baseTile + TilesPast(ctx, d, tx, ty)) % 1024)
    + if d.wide then 8 * (ty % 8) + tx % 8 else 4 * (ty % 8) + tx % 8 / 2
  }

  lemma TexelIs(ctx: Ctx, d: Obj, tx: nat, ty: nat)
    requires d.stride1d == d.w / 8 * TileStep(d)
    ensures var byte := ctx.vram[Offset(TexelAddress(ctx, d, tx, ty))] as nat;
            TexelOf(ctx, d, tx, ty) == if d.wide then byte else if tx % 2 == 0 then byte % 16 else byte / 16
  {
    TileIs(ctx, d, tx, ty, d.w / 8);
    LowBit(tx);
  }

  lemma TileIs(ctx: Ctx, d: Obj, tx: nat, ty: nat, columns: nat)
    requires columns == d.w / 8 && d.stride1d == columns * TileStep(d)
    ensures TileOf(ctx, d, tx, ty) == d.baseTile + TilesPast(ctx, d, tx, ty)
  {
    if ctx.mapping1d { Steps(ty / 8, columns, tx / 8, TileStep(d)); }
  }

  lemma Steps(row: nat, columns: nat, column: nat, step: nat)
    ensures row * (columns * step) + column * step == step * (row * columns + column)
  {
    assert row * (columns * step) == step * (row * columns);
  }

  lemma LowBit(tx: nat)
    ensures tx % 8 % 2 == tx % 2
  {
    DivModIs(tx, 2, 4 * (tx / 8) + tx % 8 / 2, tx % 8 % 2);
  }

  /** Decoded sprites have that stride. */
  lemma StrideIs(oam: Oam, n: nat)
    requires n < OBJS
    ensures Decoded(oam, n).stride1d == Decoded(oam, n).w / 8 * TileStep(Decoded(oam, n))
  {}

  /** The colour of a texel: one of the 256 object colours, or of the sprite's bank of sixteen. */
  lemma InkIs(ctx: Ctx, d: Obj, index: nat)
    requires d.palBank < 16 && index < if d.wide then 256 else 16
    ensures var at := 512 + 2 * (if d.wide then index else 16 * d.palBank + index);
            InkOf(ctx, d, index) == (Half(ctx.pal, at) as Color) | 0x8000
  {}

  // ---------------------------------------------------------------------------------------------
  // Flips and matrices

  /** A flipped sprite shows, on every column of its box, what the unflipped one shows on the mirrored column, and its
      rows from the bottom up. */
  lemma FlipsMirror(ctx: Ctx, d: Obj, x: nat)
    requires ValidObj(d) && Covers(ctx, d) && !d.affine && d.ox <= x < d.ox + d.w && !(ctx.bitmapMode && d.baseTile < 512)
    ensures var lx, ly := x - d.ox, ctx.line - d.oy;
            Index(ctx, d, x) == TexelOf(ctx, d, if d.hFlip then d.w - 1 - lx else lx, if d.vFlip then d.h - 1 - ly else ly)
  {}

  /** Nothing shows outside the box, nor in the bitmap modes of a sprite whose tiles begin in the background's memory. */
  lemma NothingShows(ctx: Ctx, d: Obj, x: nat)
    requires ValidObj(d) && Covers(ctx, d) && (!(d.ox <= x < d.ox + d.boundW) || (ctx.bitmapMode && d.baseTile < 512))
    ensures Index(ctx, d, x) == 0
  {}

  /** Under a matrix a column shows the texel it is mapped to, if the sprite has one. */
  lemma AffineShows(ctx: Ctx, d: Obj, x: nat)
    requires ValidObj(d) && Covers(ctx, d) && d.affine && d.ox <= x < d.ox + d.boundW && !(ctx.bitmapMode && d.baseTile < 512)
    ensures var u, v := AffineU(d, x - d.ox, ctx.line - d.oy), AffineV(d, x - d.ox, ctx.line - d.oy);
            Index(ctx, d, x) == if 0 <= u < d.w && 0 <= v < d.h then TexelOf(ctx, d, u, v) else 0
  {}

  /** The identity matrix in a box of the sprite's own size draws the regular sprite. */
  lemma IdentityIsRegular(ctx: Ctx, d: Obj, x: nat)
    requires ValidObj(d) && Covers(ctx, d) && d.affine && d.pa == d.pd == 0x100 && d.pb == d.pc == 0
    requires d.boundW == d.w && d.boundH == d.h
    ensures var r := d.(affine := false, hFlip := false, vFlip := false);
            ValidObj(r) && Covers(ctx, r) && Index(ctx, d, x) == Index(ctx, r, x)
  {
    var r := d.(affine := false, hFlip := false, vFlip := false);
    var lx, ly := x - d.ox, ctx.line - d.oy;
    Unscaled(lx, d.w);
    Unscaled(ly, d.h);
    assert forall tx: nat, ty: nat :: TexelOf(ctx, d, tx, ty) == TexelOf(ctx, r, tx, ty);
  }

  lemma Unscaled(l: int, w: nat)
    ensures (0x100 * (l - w / 2) + 0 * w) / 256 + w / 2 == l
  {}

  /** A matrix maps the offset from the centre of the box to the offset from the centre of the sprite, in 256ths,
      rounded down. */
  lemma AffineIs(d: Obj, lx: int, ly: int)
    ensures var dx, dy := lx - d.boundW / 2, ly - d.boundH / 2;
            && 256 * (AffineU(d, lx, ly) - d.w / 2) <= d.pa * dx + d.pb * dy < 256 * (AffineU(d, lx, ly) - d.w / 2) + 256
            && 256 * (AffineV(d, lx, ly) - d.h / 2) <= d.pc * dx + d.pd * dy < 256 * (AffineV(d, lx, ly) - d.h / 2) + 256
  {
    var dx, dy := lx - d.boundW / 2, ly - d.boundH / 2;
    Floor(d.pa * dx + d.pb * dy);
    Floor(d.pc * dx + d.pd * dy);
  }

  lemma Floor(n: int)
    ensures 256 * (n / 256) <= n < 256 * (n / 256) + 256
  {}
}
