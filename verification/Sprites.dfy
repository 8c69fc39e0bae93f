/**
 Drawing the sprites of a line.

 - `DrawRegular`: the tile-run loop (one row load per eight texels, flips, zero rows skipped) plots exactly
   the per-pixel texels, as `DrawAffine` does per pixel;
 - `DrawObjects`: in-place plotting in list order, folded over the whole object attribute memory;
 - `WinnerIsMinimal`, `WindowIff`: on every column the fold leaves the opaque non-window sprite that is
   least in (priority, OAM index), and the object window is set iff some window sprite is opaque there;
 - a semi-transparent pixel on the line always raises the line's flag.
 */
module Sprites {
  import opened Arithmetic
  import opened OamLists
  import opened Vram

  /** What drawing a line reads besides the sprite. */
  datatype Ctx = Ctx(vram: Memory, pal: Palette, line: nat, mapping1d: bool, bitmapMode: bool)

  /** One column of the object line and of the object window. */
  datatype Cell = Cell(color: Color, prio: nat, semi: bool, window: bool)

  predicate Opaque(c: Color) { c & 0x8000 != 0 }

  /** In bitmap modes the low charblock belongs to the background. */
  predicate Hidden(ctx: Ctx, d: Obj) { ctx.bitmapMode && d.baseTile < 512 }

  predicate ValidObj(d: Obj) {
    d.palBank < 16 && d.w % 8 == 0 && (!d.affine ==> d.boundW == d.w && d.boundH == d.h)
  }

  predicate Covers(ctx: Ctx, d: Obj) { d.oy <= ctx.line < d.oy + d.boundH }

  // ---------------------------------------------------------------------------------------------
  // One texel

  function RowStride(ctx: Ctx, d: Obj): nat { if ctx.mapping1d then d.stride1d else 32 }
  function TileStep(d: Obj): nat { if d.wide then 2 else 1 }

  function TileOf(ctx: Ctx, d: Obj, tx: nat, ty: nat): nat {
    d.baseTile + ty / 8 * RowStride(ctx, d) + tx / 8 * TileStep(d)
  }

  function RowAddr(d: Obj, tile: nat, ty: nat): nat {
    0x10000 + tile % 0x400 * 32 + if d.wide then ty % 8 * 8 else ty % 8 * 4
  }

  lemma RowAddrAligned(d: Obj, tile: nat, ty: nat)
    ensures Aligned(d.wide, RowAddr(d, tile, ty))
  {
    var t, y := tile % 0x400, ty % 8;
    if d.wide {
      DivModIs(RowAddr(d, tile, ty), 8, 0x2000 + t * 4 + y, 0);
    } else {
      DivModIs(RowAddr(d, tile, ty), 4, 0x4000 + t * 8 + y, 0);
    }
  }

  /** The palette index of texture coordinate (tx, ty). */
  function TexelOf(ctx: Ctx, d: Obj, tx: nat, ty: nat): nat {
    TexelAt(ctx.vram, d.wide, RowAddr(d, TileOf(ctx, d, tx, ty), ty), tx % 8)
  }

  /** Affine sprites: the matrix applied around the centre of the bounding box. */
  function AffineU(d: Obj, lx: int, ly: int): int { (d.pa * (lx - d.boundW / 2) + d.pb * (ly - d.boundH / 2)) / 256 + d.w / 2 }
  function AffineV(d: Obj, lx: int, ly: int): int { (d.pc * (lx - d.boundW / 2) + d.pd * (ly - d.boundH / 2)) / 256 + d.h / 2 }

  function FlipX(d: Obj, lx: nat): nat
    requires lx < d.w
  {
    if d.hFlip then d.w - 1 - lx else lx
  }

  function FlipY(d: Obj, ly: nat): nat
    requires ly < d.h
  {
    if d.vFlip then d.h - 1 - ly else ly
  }

  /** The palette index a sprite has on column `x`; 0 where it is transparent or does not reach. */
  function Index(ctx: Ctx, d: Obj, x: nat): (r: nat)
    requires ValidObj(d) && Covers(ctx, d)
    ensures r < if d.wide then 256 else 16
  {
    var lx, ly := x - d.ox, ctx.line - d.oy;
    if Hidden(ctx, d) || !(0 <= lx < d.boundW) then 0
    else if d.affine then
      var u, v := AffineU(d, lx, ly), AffineV(d, lx, ly);
      if 0 <= u < d.w && 0 <= v < d.h then TexelOf(ctx, d, u, v) else 0
    else TexelOf(ctx, d, FlipX(d, lx), FlipY(d, ly))
  }

  function InkOf(ctx: Ctx, d: Obj, index: nat): Color
    requires d.palBank < 16 && index < if d.wide then 256 else 16
  {
    Ink(ctx.pal, 256 + if d.wide then index else d.palBank * 16 + index)
  }

  predicate Wins(c: Cell, d: Obj) { !Opaque(c.color) || c.prio > d.prio }

  /** Resolves one texel against what the line already holds. */
  function Plot(ctx: Ctx, c: Cell, d: Obj, index: nat): Cell
    requires d.palBank < 16 && index < if d.wide then 256 else 16
  {
    if index == 0 then c
    else if d.window then c.(window := true)
    else if Wins(c, d) then Cell(InkOf(ctx, d, index), d.prio, d.semi, c.window)
    else c
  }

  // ---------------------------------------------------------------------------------------------
  // The drawing loops

  ghost function Indices(ctx: Ctx, d: Obj): seq<nat>
    requires ValidObj(d) && Covers(ctx, d)
  {
    seq(WIDTH, x => if x < 0 then 0 else Index(ctx, d, x))
  }

  predicate ValidIndices(d: Obj, want: seq<nat>) {
    |want| == WIDTH && forall k :: 0 <= k < WIDTH ==> want[k] < if d.wide then 256 else 16
  }

  /** Columns below `upTo` are plotted, the others untouched. */
  ghost predicate Plotted(ctx: Ctx, d: Obj, now: seq<Cell>, was: seq<Cell>, want: seq<nat>, upTo: int)
    requires d.palBank < 16 && |now| == |was| == WIDTH && ValidIndices(d, want)
  {
    forall k :: 0 <= k < WIDTH ==> now[k] == if k < upTo then Plot(ctx, was[k], d, want[k]) else was[k]
  }

  /** The flag covers every semi-transparent pixel on the line. */
  ghost predicate SemiFlagged(cells: seq<Cell>, anySemi: bool) {
    forall k :: 0 <= k < |cells| && Opaque(cells[k].color) && cells[k].semi ==> anySemi
  }

  method PlotAt(ctx: Ctx, d: Obj, x: nat, index: nat, cells: array<Cell>, semiSoFar: bool) returns (anySemi: bool)
    requires d.palBank < 16 && (index < if d.wide then 256 else 16) && x < cells.Length
    requires SemiFlagged(cells[..], semiSoFar)
    modifies cells
    ensures SemiFlagged(cells[..], anySemi)
    ensures cells[..] == old(cells[..])[x := Plot(ctx, old(cells[x]), d, index)]
  {
    anySemi := semiSoFar;
    if index != 0 {
      if d.window {
        cells[x] := cells[x].(window := true);
      } else if Wins(cells[x], d) {
        cells[x] := Cell(InkOf(ctx, d, index), d.prio, d.semi, cells[x].window);
        anySemi := anySemi || d.semi;
      }
    }
  }

  /** Columns left of the sprite, and right of it, want nothing. */
  lemma OutsideIsBlank(ctx: Ctx, d: Obj, want: seq<nat>)
    requires ValidObj(d) && Covers(ctx, d) && want == Indices(ctx, d)
    ensures forall k :: 0 <= k < WIDTH && !(d.ox <= k < d.ox + d.boundW) ==> want[k] == 0
  {
  }

  lemma AffineIndex(ctx: Ctx, d: Obj, lx: nat, u: int, v: int)
    requires ValidObj(d) && Covers(ctx, d) && d.affine && !Hidden(ctx, d) && lx < d.boundW && d.ox + lx >= 0
    requires u == AffineU(d, lx, ctx.line - d.oy) && v == AffineV(d, lx, ctx.line - d.oy)
    ensures Index(ctx, d, d.ox + lx) == if 0 <= u < d.w && 0 <= v < d.h then TexelOf(ctx, d, u, v) else 0
  {
  }

  /** A transparent column is as good as plotted. */
  lemma PlottedBlank(ctx: Ctx, d: Obj, now: seq<Cell>, was: seq<Cell>, want: seq<nat>, x: nat)
    requires d.palBank < 16 && |now| == |was| == WIDTH && ValidIndices(d, want) && x < WIDTH && want[x] == 0
    requires Plotted(ctx, d, now, was, want, x)
    ensures Plotted(ctx, d, now, was, want, x + 1)
  {}

  method DrawAffine(ctx: Ctx, d: Obj, cells: array<Cell>, semiSoFar: bool) returns (anySemi: bool)
    requires ValidObj(d) && Covers(ctx, d) && d.affine && !Hidden(ctx, d) && cells.Length == WIDTH
    requires SemiFlagged(cells[..], semiSoFar)
    modifies cells
    ensures SemiFlagged(cells[..], anySemi)
    ensures Plotted(ctx, d, cells[..], old(cells[..]), Indices(ctx, d), WIDTH)
  {
    ghost var was, want := cells[..], Indices(ctx, d);
    OutsideIsBlank(ctx, d, want);
    anySemi := semiSoFar;
    var ly := ctx.line - d.oy;
    var start, end := Max(-d.ox, 0), Min(d.boundW, WIDTH - d.ox);
    var lx := start;
    while lx < end
      invariant start <= lx && (start <= end ==> lx <= end)
      invariant SemiFlagged(cells[..], anySemi) && Plotted(ctx, d, cells[..], was, want, if start <= end then d.ox + lx else 0)
    {
      var u, v := AffineU(d, lx, ly), AffineV(d, lx, ly);
      assert want[d.ox + lx] == if 0 <= u < d.w && 0 <= v < d.h then TexelOf(ctx, d, u, v) else 0 by {
        AffineIndex(ctx, d, lx, u, v);
      }
      if 0 <= u < d.w && 0 <= v < d.h {
        anySemi := PlotAt(ctx, d, d.ox + lx, TexelOf(ctx, d, u, v), cells, anySemi);
      } else {
        PlottedBlank(ctx, d, cells[..], was, want, d.ox + lx);
      }
      lx := lx + 1;
    }
  }

  // ---------------------------------------------------------------------------------------------
  // Regular sprites, a tile row at a time

  /** How many columns from `lx` on stay in its tile, walking left under a horizontal flip. */
  function Run(d: Obj, tx0: nat, lx: int, end: int): int {
    Min(if d.hFlip then tx0 % 8 + 1 else 8 - tx0 % 8, end - lx)
  }

  function Along(d: Obj, tx0: nat, i: nat): int { if d.hFlip then tx0 - i else tx0 + i }

  /** A run stays in one tile. */
  lemma RunStaysInTile(d: Obj, tx0: nat, i: nat)
    requires i < if d.hFlip then tx0 % 8 + 1 else 8 - tx0 % 8
    ensures Along(d, tx0, i) >= 0 && Along(d, tx0, i) / 8 == tx0 / 8
  {
    var q, r := tx0 / 8, tx0 % 8;
    if d.hFlip {
      DivModIs(tx0 - i, 8, q, r - i);
    } else {
      DivModIs(tx0 + i, 8, q, r + i);
    }
  }

  /** Along a run the columns stay in the tile. */
  lemma RunColumn(ctx: Ctx, d: Obj, lx: nat, ty: nat, tx0: nat, i: nat) returns (tx: nat)
    requires ValidObj(d) && lx + i < d.w && tx0 == FlipX(d, lx) && i < if d.hFlip then tx0 % 8 + 1 else 8 - tx0 % 8
    ensures tx == Along(d, tx0, i) == FlipX(d, lx + i) && TileOf(ctx, d, tx, ty) == TileOf(ctx, d, tx0, ty)
  {
    RunStaysInTile(d, tx0, i);
    tx := Along(d, tx0, i);
  }

  /** Inside a run the row word holds the texel of every column. */
  lemma RunTexel(ctx: Ctx, d: Obj, lx: nat, ty: nat, tx0: nat, i: nat, tile: nat, at: nat, word: nat)
    requires ValidObj(d) && Covers(ctx, d) && !d.affine && !Hidden(ctx, d) && lx + i < d.w && d.ox + lx + i >= 0
    requires tx0 == FlipX(d, lx) && ty == FlipY(d, ctx.line - d.oy) && i < if d.hFlip then tx0 % 8 + 1 else 8 - tx0 % 8
    requires tile == TileOf(ctx, d, tx0, ty) && at == RowAddr(d, tile, ty)
    requires Aligned(d.wide, at) && word == RowWord(ctx.vram, d.wide, at)
    ensures ColumnIs(d, word, tx0, i, Index(ctx, d, d.ox + lx + i))
  {
    var tx := RunColumn(ctx, d, lx, ty, tx0, i);
    RowTexel(ctx.vram, d.wide, at, tx % 8);
  }

  predicate ColumnIs(d: Obj, word: nat, tx0: nat, i: nat, index: nat) {
    Along(d, tx0, i) >= 0 && index == Texel(word, d.wide, Along(d, tx0, i) % 8)
  }

  /** The texels of a row word, put down from column `x` on, are wanted there. */
  ghost predicate RowIs(d: Obj, word: nat, tx0: nat, x: nat, run: nat, want: seq<nat>)
    requires |want| == WIDTH && x + run <= WIDTH
  {
    forall k :: x <= k < x + run ==> ColumnIs(d, word, tx0, k - x, want[k])
  }

  /** The texel loop of one tile row, skipped when the row is all zero. */
  method DrawRow(ctx: Ctx, d: Obj, word: nat, tx0: nat, x: nat, run: nat, cells: array<Cell>, semiSoFar: bool, ghost was: seq<Cell>, ghost want: seq<nat>)
    returns (anySemi: bool)
    requires d.palBank < 16 && cells.Length == |was| == WIDTH && ValidIndices(d, want) && x + run <= WIDTH
    requires RowIs(d, word, tx0, x, run, want) && Plotted(ctx, d, cells[..], was, want, x) && SemiFlagged(cells[..], semiSoFar)
    modifies cells
    ensures Plotted(ctx, d, cells[..], was, want, x + run) && SemiFlagged(cells[..], anySemi)
  {
    anySemi := semiSoFar;
    if word == 0 {
      forall k | x <= k < x + run
        ensures want[k] == 0
      {
        assert ColumnIs(d, word, tx0, k - x, want[k]);
        ZeroRow(d.wide, Along(d, tx0, k - x) % 8);
      }
      return;
    }
    for i := 0 to run
      invariant Plotted(ctx, d, cells[..], was, want, x + i) && SemiFlagged(cells[..], anySemi)
    {
      assert ColumnIs(d, word, tx0, i, want[x + i]);
      anySemi := PlotAt(ctx, d, x + i, Texel(word, d.wide, Along(d, tx0, i) % 8), cells, anySemi);
    }
  }

  lemma RowOfRun(ctx: Ctx, d: Obj, lx: nat, ty: nat, tx0: nat, run: nat, tile: nat, at: nat, word: nat, want: seq<nat>)
    requires ValidObj(d) && Covers(ctx, d) && !d.affine && !Hidden(ctx, d) && lx < d.w && d.ox + lx >= 0
    requires tx0 == FlipX(d, lx) && ty == FlipY(d, ctx.line - d.oy) && run == Run(d, tx0, lx, Min(d.w, WIDTH - d.ox))
    requires tile == TileOf(ctx, d, tx0, ty) && at == RowAddr(d, tile, ty)
    requires Aligned(d.wide, at) && word == RowWord(ctx.vram, d.wide, at) && want == Indices(ctx, d)
    ensures d.ox + lx + run <= WIDTH && RowIs(d, word, tx0, d.ox + lx, run, want)
  {
    var x := d.ox + lx;
    assert x + run <= WIDTH;
    forall k | x <= k < x + run
      ensures ColumnIs(d, word, tx0, k - x, want[k])
    {
      assert want[k] == Index(ctx, d, k);
      RunTexel(ctx, d, lx, ty, tx0, k - x, tile, at, word);
    }
  }

  /** One tile row of the span, from column `lx` of the sprite. */
  method DrawTileRun(ctx: Ctx, d: Obj, lx: nat, ty: nat, cells: array<Cell>, semiSoFar: bool, ghost was: seq<Cell>, ghost want: seq<nat>)
    returns (run: nat, anySemi: bool)
    requires ValidObj(d) && Covers(ctx, d) && !d.affine && !Hidden(ctx, d) && cells.Length == |was| == WIDTH
    requires lx < d.w && 0 <= d.ox + lx < WIDTH && ty == FlipY(d, ctx.line - d.oy) && want == Indices(ctx, d)
    requires SemiFlagged(cells[..], semiSoFar) && Plotted(ctx, d, cells[..], was, want, d.ox + lx)
    modifies cells
    ensures run > 0 && lx + run <= Min(d.w, WIDTH - d.ox)
    ensures SemiFlagged(cells[..], anySemi) && Plotted(ctx, d, cells[..], was, want, d.ox + lx + run)
  {
    var tx0 := FlipX(d, lx);
    run := Run(d, tx0, lx, Min(d.w, WIDTH - d.ox));
    var tile := TileOf(ctx, d, tx0, ty);
    RowAddrAligned(d, tile, ty);
    var at := RowAddr(d, tile, ty);
    var word := RowWord(ctx.vram, d.wide, at);
    RowOfRun(ctx, d, lx, ty, tx0, run, tile, at, word, want);
    anySemi := DrawRow(ctx, d, word, tx0, d.ox + lx, run, cells, semiSoFar, was, want);
  }

  method DrawRegular(ctx: Ctx, d: Obj, cells: array<Cell>, semiSoFar: bool) returns (anySemi: bool)
    requires ValidObj(d) && Covers(ctx, d) && !d.affine && !Hidden(ctx, d) && cells.Length == WIDTH
    requires SemiFlagged(cells[..], semiSoFar)
    modifies cells
    ensures SemiFlagged(cells[..], anySemi)
    ensures Plotted(ctx, d, cells[..], old(cells[..]), Indices(ctx, d), WIDTH)
  {
    ghost var was, want := cells[..], Indices(ctx, d);
    OutsideIsBlank(ctx, d, want);
    anySemi := semiSoFar;
    var ty := FlipY(d, ctx.line - d.oy);
    var start, end := Max(-d.ox, 0), Min(d.w, WIDTH - d.ox);
    var lx := start;
    while lx < end
      invariant start <= lx && (start <= end ==> lx <= end)
      invariant SemiFlagged(cells[..], anySemi) && Plotted(ctx, d, cells[..], was, want, if start <= end then d.ox + lx else 0)
    {
      var run;
      run, anySemi := DrawTileRun(ctx, d, lx, ty, cells, anySemi, was, want);
      lx := lx + run;
    }
  }

  // ---------------------------------------------------------------------------------------------
  // All sprites of a line

  ghost predicate AllOn(ctx: Ctx, sprites: seq<Obj>) {
    forall i :: 0 <= i < |sprites| ==> ValidObj(sprites[i]) && Covers(ctx, sprites[i])
  }

  /** One column after plotting a list of sprites in order. */
  function PlotAll(ctx: Ctx, c: Cell, sprites: seq<Obj>, x: nat): Cell
    requires AllOn(ctx, sprites)
    decreases |sprites|
  {
    if sprites == [] then c
    else
      var last := sprites[|sprites| - 1];
      Plot(ctx, PlotAll(ctx, c, sprites[..|sprites| - 1], x), last, Index(ctx, last, x))
  }

  method DrawSprite(ctx: Ctx, d: Obj, cells: array<Cell>, semiSoFar: bool) returns (anySemi: bool)
    requires ValidObj(d) && Covers(ctx, d) && cells.Length == WIDTH && SemiFlagged(cells[..], semiSoFar)
    modifies cells
    ensures SemiFlagged(cells[..], anySemi)
    ensures Plotted(ctx, d, cells[..], old(cells[..]), Indices(ctx, d), WIDTH)
  {
    anySemi := semiSoFar;
    if Hidden(ctx, d) {
      return;
    }
    if d.affine {
      anySemi := DrawAffine(ctx, d, cells, anySemi);
    } else {
      anySemi := DrawRegular(ctx, d, cells, anySemi);
    }
  }

  ghost predicate PlottedAll(ctx: Ctx, now: seq<Cell>, was: seq<Cell>, sprites: seq<Obj>)
    requires |now| == |was| == WIDTH && AllOn(ctx, sprites)
  {
    forall x :: 0 <= x < WIDTH ==> now[x] == PlotAll(ctx, was[x], sprites, x)
  }

  lemma PlottedOneMore(ctx: Ctx, now: seq<Cell>, mid: seq<Cell>, was: seq<Cell>, sprites: seq<Obj>, i: nat, want: seq<nat>)
    requires |now| == |mid| == |was| == WIDTH && AllOn(ctx, sprites) && i < |sprites| && want == Indices(ctx, sprites[i])
    requires PlottedAll(ctx, mid, was, sprites[..i]) && Plotted(ctx, sprites[i], now, mid, want, WIDTH)
    ensures PlottedAll(ctx, now, was, sprites[..i + 1])
  {
    forall x | 0 <= x < WIDTH
      ensures now[x] == PlotAll(ctx, was[x], sprites[..i + 1], x)
    {
      assert sprites[..i + 1][..i] == sprites[..i];
      assert now[x] == Plot(ctx, mid[x], sprites[i], want[x]);
    }
  }

  /** The list walk of draw_objects. */
  method DrawObjects(ctx: Ctx, objs: seq<Obj>, list: seq<nat>, cells: array<Cell>, ghost sprites: seq<Obj>) returns (anySemi: bool)
    requires cells.Length == WIDTH && |objs| == OBJS && Resolves(list, objs, OBJS, sprites) && AllOn(ctx, sprites)
    requires SemiFlagged(cells[..], false)
    modifies cells
    ensures SemiFlagged(cells[..], anySemi)
    ensures PlottedAll(ctx, cells[..], old(cells[..]), sprites)
  {
    anySemi := false;
    ghost var was := cells[..];
    for i := 0 to |list|
      invariant SemiFlagged(cells[..], anySemi) && PlottedAll(ctx, cells[..], was, sprites[..i])
    {
      ghost var mid := cells[..];
      anySemi := DrawSprite(ctx, objs[list[i]], cells, anySemi);
      PlottedOneMore(ctx, cells[..], mid, was, sprites, i, Indices(ctx, sprites[i]));
    }
    assert sprites[..|list|] == sprites;
  }

  // ---------------------------------------------------------------------------------------------
  // Who wins a column

  lemma DecodedIsValid(oam: Oam, ctx: Ctx, n: nat)
    requires n < OBJS && On(oam, ctx.line, n)
    ensures ValidObj(Decoded(oam, n)) && Covers(ctx, Decoded(oam, n))
  {
    var d := Decoded(oam, n);
    assert d.w == 8 || d.w == 16 || d.w == 32 || d.w == 64;
  }

  lemma {:induction false} SpritesAreOn(oam: Oam, ctx: Ctx, n: nat)
    requires n <= OBJS
    ensures AllOn(ctx, SpritesOn(oam, ctx.line, n))
    decreases n
  {
    if n > 0 {
      SpritesAreOn(oam, ctx, n - 1);
      if On(oam, ctx.line, n - 1) { DecodedIsValid(oam, ctx, n - 1); }
    }
  }

  /** The palette index of OAM entry `n` on a column, 0 if the entry is not on the line. */
  function IndexOf(oam: Oam, ctx: Ctx, n: nat, x: nat): (r: nat)
    requires n < OBJS
    ensures r < if Decoded(oam, n).wide then 256 else 16
  {
    if On(oam, ctx.line, n) then DecodedIsValid(oam, ctx, n); Index(ctx, Decoded(oam, n), x) else 0
  }

  /** What one sprite wants of a column. */
  datatype Claim = Claim(solid: bool, window: bool, prio: nat, semi: bool, color: Color)

  predicate Contends(c: Claim) { c.solid && !c.window }
  predicate Masks(c: Claim) { c.solid && c.window }

  /** The claim of OAM entry `n`; entries not on the line claim nothing. */
  function ClaimOf(oam: Oam, ctx: Ctx, n: nat, x: nat): Claim
    requires n < OBJS
  {
    var d, index := Decoded(oam, n), IndexOf(oam, ctx, n, x);
    Claim(index != 0, d.window, d.prio, d.semi, InkOf(ctx, d, index))
  }

  /** The claims of the whole object attribute memory on a column, in OAM order: no lists, no decoding pass. */
  function Claims(oam: Oam, ctx: Ctx, x: nat): (r: seq<Claim>)
    ensures |r| == OBJS
  {
    seq(OBJS, k requires 0 <= k < OBJS => ClaimOf(oam, ctx, k, x))
  }

  /** `w` is least in (priority, OAM index) among the contenders. */
  ghost predicate IsWinner(claims: seq<Claim>, w: nat) {
    && w < |claims| && Contends(claims[w])
    && forall k :: 0 <= k < |claims| && Contends(claims[k]) ==>
         claims[w].prio < claims[k].prio || (claims[w].prio == claims[k].prio && w <= k)
  }

  /** The winner's pixel, or nothing; and the window where some window sprite is opaque. */
  ghost predicate Resolved(claims: seq<Claim>, c: Cell) {
    && (c.window <==> exists k :: 0 <= k < |claims| && Masks(claims[k]))
    && (if exists k :: 0 <= k < |claims| && Contends(claims[k])
        then exists w :: 0 <= w < |claims| && IsWinner(claims, w)
                         && c.color == claims[w].color && c.prio == claims[w].prio && c.semi == claims[w].semi
        else c.color == 0)
  }

  function Settle(c: Cell, claim: Claim): Cell {
    if !claim.solid then c
    else if claim.window then c.(window := true)
    else if !Opaque(c.color) || c.prio > claim.prio then Cell(claim.color, claim.prio, claim.semi, c.window)
    else c
  }

  function SettleAll(c: Cell, claims: seq<Claim>): Cell
    decreases |claims|
  {
    if claims == [] then c else Settle(SettleAll(c, claims[..|claims| - 1]), claims[|claims| - 1])
  }

  lemma PlotSettles(oam: Oam, ctx: Ctx, c: Cell, x: nat, n: nat)
    requires n < OBJS
    ensures Plot(ctx, c, Decoded(oam, n), IndexOf(oam, ctx, n, x)) == Settle(c, ClaimOf(oam, ctx, n, x))
  {
  }

  /** The first claims are those of the first entries. */
  ghost predicate Has(oam: Oam, ctx: Ctx, x: nat, claims: seq<Claim>, k: nat)
    requires k < |claims| <= OBJS
  {
    claims[k] == ClaimOf(oam, ctx, k, x)
  }

  ghost predicate ClaimsAre(oam: Oam, ctx: Ctx, x: nat, claims: seq<Claim>) {
    |claims| <= OBJS && forall k: nat :: k < |claims| ==> Has(oam, ctx, x, claims, k)
  }

  lemma ClaimsHold(oam: Oam, ctx: Ctx, x: nat)
    ensures ClaimsAre(oam, ctx, x, Claims(oam, ctx, x))
  {
  }

  /** An entry on the line appends its sprite, and its claim is what plotting it does; any other claims nothing. */
  lemma ListGrows(oam: Oam, ctx: Ctx, c: Cell, x: nat, n: nat, before: seq<Obj>, all: seq<Obj>)
    requires n < OBJS && before == SpritesOn(oam, ctx.line, n) && all == SpritesOn(oam, ctx.line, n + 1)
    requires AllOn(ctx, before) && AllOn(ctx, all)
    ensures PlotAll(ctx, c, all, x) == Settle(PlotAll(ctx, c, before, x), ClaimOf(oam, ctx, n, x))
  {
    if On(oam, ctx.line, n) {
      assert all[..|all| - 1] == before;
      PlotSettles(oam, ctx, PlotAll(ctx, c, before, x), x, n);
    } else {
      assert all == before;
    }
  }

  lemma OneMoreClaim(oam: Oam, ctx: Ctx, c: Cell, x: nat, claims: seq<Claim>, n: nat, before: seq<Obj>, all: seq<Obj>)
    requires n < |claims| && ClaimsAre(oam, ctx, x, claims)
    requires before == SpritesOn(oam, ctx.line, n) && all == SpritesOn(oam, ctx.line, n + 1)
    requires AllOn(ctx, before) && AllOn(ctx, all) && PlotAll(ctx, c, before, x) == SettleAll(c, claims[..n])
    ensures PlotAll(ctx, c, all, x) == SettleAll(c, claims[..n + 1])
  {
    ListGrows(oam, ctx, c, x, n, before, all);
    assert Has(oam, ctx, x, claims, n);
    assert claims[..n + 1][..n] == claims[..n];
  }

  lemma PrefixOn(oam: Oam, ctx: Ctx, n: nat, before: seq<Obj>, all: seq<Obj>)
    requires n < OBJS && before == SpritesOn(oam, ctx.line, n) && all == SpritesOn(oam, ctx.line, n + 1) && AllOn(ctx, all)
    ensures AllOn(ctx, before)
  {
    assert forall i :: 0 <= i < |before| ==> before[i] == all[i];
  }

  /** Walking the line's list is scanning all 128 entries. */
  lemma {:induction false} ListIsScan(oam: Oam, ctx: Ctx, c: Cell, x: nat, claims: seq<Claim>, n: nat, list: seq<Obj>)
    requires ClaimsAre(oam, ctx, x, claims) && n <= |claims| && list == SpritesOn(oam, ctx.line, n) && AllOn(ctx, list)
    ensures PlotAll(ctx, c, list, x) == SettleAll(c, claims[..n])
    decreases n
  {
    if n > 0 {
      var before := SpritesOn(oam, ctx.line, n - 1);
      PrefixOn(oam, ctx, n - 1, before, list);
      ListIsScan(oam, ctx, c, x, claims, n - 1, before);
      OneMoreClaim(oam, ctx, c, x, claims, n - 1, before, list);
    }
  }

  /** The window half: set iff some window sprite is opaque. */
  lemma {:induction false} WindowIff(c: Cell, claims: seq<Claim>)
    requires !c.window
    ensures SettleAll(c, claims).window <==> exists k :: 0 <= k < |claims| && Masks(claims[k])
    decreases |claims|
  {
    if claims != [] {
      var before := claims[..|claims| - 1];
      WindowIff(c, before);
      if SettleAll(c, claims).window && !Masks(claims[|claims| - 1]) {
        var k :| 0 <= k < |before| && Masks(before[k]);
        assert Masks(claims[k]);
      }
      if k :| 0 <= k < |claims| && Masks(claims[k]) && k < |before| {
        assert Masks(before[k]);
      }
    }
  }

  /** The colour half: the least contender, if there is one. */
  lemma {:induction false} WinnerIsMinimal(c: Cell, claims: seq<Claim>) returns (w: int)
    requires c.color == 0 && forall k :: 0 <= k < |claims| && claims[k].solid ==> Opaque(claims[k].color)
    ensures var r := SettleAll(c, claims);
            if w < 0 then r.color == 0 && forall k :: 0 <= k < |claims| ==> !Contends(claims[k])
            else IsWinner(claims, w) && r.color == claims[w].color && r.prio == claims[w].prio && r.semi == claims[w].semi
    decreases |claims|
  {
    w := -1;
    if claims != [] {
      var n := |claims| - 1;
      var before, last := claims[..n], claims[n];
      w := WinnerIsMinimal(c, before);
      assert forall k :: 0 <= k < n ==> before[k] == claims[k];
      if Contends(last) && (w < 0 || claims[w].prio > last.prio) {
        w := n;
      }
    }
  }

  lemma InkIsOpaque(pal: Palette, index: nat)
    requires index < 512
    ensures Opaque(Ink(pal, index))
  {
    var c := Half(pal, 2 * index) as Color;
    assert (c | 0x8000) & 0x8000 != 0;
  }

  lemma ClaimIsOpaque(oam: Oam, ctx: Ctx, k: nat, x: nat)
    requires k < OBJS
    ensures Opaque(ClaimOf(oam, ctx, k, x).color)
  {
    var d, index := Decoded(oam, k), IndexOf(oam, ctx, k, x);
    InkIsOpaque(ctx.pal, 256 + if d.wide then index else d.palBank * 16 + index);
  }

  /** Settling claims on a cleared column leaves the winner. */
  lemma SettledIsResolved(c: Cell, claims: seq<Claim>)
    requires c.color == 0 && !c.window && forall k :: 0 <= k < |claims| && claims[k].solid ==> Opaque(claims[k].color)
    ensures Resolved(claims, SettleAll(c, claims))
  {
    WindowIff(c, claims);
    var w := WinnerIsMinimal(c, claims);
  }

  /** Every column of a cleared line ends up with its winner. */
  lemma ColumnIsResolved(oam: Oam, ctx: Ctx, c: Cell, x: nat, claims: seq<Claim>)
    requires c.color == 0 && !c.window && ClaimsAre(oam, ctx, x, claims)
    ensures AllOn(ctx, SpritesOn(oam, ctx.line, |claims|))
    ensures Resolved(claims, PlotAll(ctx, c, SpritesOn(oam, ctx.line, |claims|), x))
  {
    forall k: nat | k < |claims|
      ensures Opaque(claims[k].color)
    {
      assert Has(oam, ctx, x, claims, k);
      ClaimIsOpaque(oam, ctx, k, x);
    }
    SpritesAreOn(oam, ctx, |claims|);
    ListIsScan(oam, ctx, c, x, claims, |claims|, SpritesOn(oam, ctx.line, |claims|));
    assert claims[..|claims|] == claims;
    SettledIsResolved(c, claims);
  }

  ghost predicate Cleared(cells: seq<Cell>) { forall k :: 0 <= k < |cells| ==> cells[k].color == 0 && !cells[k].window }

  /** Every column holds the winner of the full scan. */
  ghost predicate LineResolved(oam: Oam, ctx: Ctx, cells: seq<Cell>) {
    forall x :: 0 <= x < |cells| ==> Resolved(Claims(oam, ctx, x), cells[x])
  }

  lemma PlottedIsResolved(oam: Oam, ctx: Ctx, now: seq<Cell>, was: seq<Cell>, sprites: seq<Obj>)
    requires |now| == |was| == WIDTH && Cleared(was) && sprites == SpritesOn(oam, ctx.line, OBJS) && AllOn(ctx, sprites)
    requires PlottedAll(ctx, now, was, sprites)
    ensures LineResolved(oam, ctx, now)
  {
    forall x | 0 <= x < WIDTH
      ensures Resolved(Claims(oam, ctx, x), now[x])
    {
      ClaimsHold(oam, ctx, x);
      ColumnIsResolved(oam, ctx, was[x], x, Claims(oam, ctx, x));
    }
  }

  method Clear(cells: array<Cell>)
    modifies cells
    ensures Cleared(cells[..])
  {
    for x := 0 to cells.Length
      invariant Cleared(cells[..x])
    {
      cells[x] := cells[x].(color := 0, window := false);
    }
    assert cells[..cells.Length] == cells[..];
  }

  /** Drawing the list of a line onto the cleared line resolves every column. */
  method DrawListed(ctx: Ctx, objs: seq<Obj>, list: seq<nat>, cells: array<Cell>, ghost oam: Oam) returns (anySemi: bool)
    requires cells.Length == WIDTH && |objs| == OBJS && Cleared(cells[..])
    requires Resolves(list, objs, OBJS, SpritesOn(oam, ctx.line, OBJS))
    modifies cells
    ensures SemiFlagged(cells[..], anySemi) && LineResolved(oam, ctx, cells[..])
  {
    ghost var was, sprites := cells[..], SpritesOn(oam, ctx.line, OBJS);
    SpritesAreOn(oam, ctx, OBJS);
    anySemi := DrawObjects(ctx, objs, list, cells, sprites);
    PlottedIsResolved(oam, ctx, cells[..], was, sprites);
  }

  /** The object half of a line: clear it, then draw the line's list. */
  method DrawLine(ctx: Ctx, scratch: OamScratch, displayObjs: bool, cells: array<Cell>, ghost oam: Oam) returns (anySemi: bool)
    requires scratch.Valid() && scratch.baseLine <= ctx.line < scratch.baseLine + HALF_LINES && cells.Length == WIDTH
    requires Resolves(scratch.lists[ctx.line - scratch.baseLine], scratch.objs, OBJS, SpritesOn(oam, ctx.line, OBJS))
    modifies cells
    ensures SemiFlagged(cells[..], anySemi)
    ensures if displayObjs then LineResolved(oam, ctx, cells[..]) else Cleared(cells[..])
  {
    Clear(cells);
    anySemi := false;
    if displayObjs {
      anySemi := DrawListed(ctx, scratch.objs, scratch.lists[ctx.line - scratch.baseLine], cells, oam);
    }
  }
}
