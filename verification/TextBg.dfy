/**
 Text backgrounds, drawn a tile run at a time.

 `Pixel` is what one pixel of a text background is: its own map entry, its own texel. `Draw` follows the
 run loop (one map entry and one row load per tile, all-zero rows skipped against the cleared line) and
 is proved to leave exactly `Pixel` everywhere, through scroll wraps, screenblock splits and flips.
 */
module TextBg {
  import opened Arithmetic
  import opened Vram

  const WIDTH := 240

  /** BGxCNT and the scroll offsets. */
  datatype Regs = Regs(cnt: nat, hOfs: nat, vOfs: nat)

  function CharBase(r: Regs): nat { r.cnt / 4 % 4 * 0x4000 }
  function ScreenBase(r: Regs): nat { r.cnt / 0x100 % 32 * 0x800 }
  predicate Wide(r: Regs) { HasBit(r.cnt, 0x80) }
  predicate Broad(r: Regs) { HasBit(r.cnt, 0x4000) }
  predicate Tall(r: Regs) { HasBit(r.cnt, 0x8000) }

  function MapX(r: Regs, px: nat): nat { if Broad(r) then (px + r.hOfs) % 512 else (px + r.hOfs) % 256 }
  function MapY(r: Regs, line: nat): nat { if Tall(r) then (line + r.vOfs) % 512 else (line + r.vOfs) % 256 }

  function RowBlock(r: Regs, y: nat): nat {
    ScreenBase(r) + if y >= 256 then (if Broad(r) then 0x1000 else 0x800) else 0
  }

  function EntryAddr(r: Regs, x: nat, y: nat): nat {
    RowBlock(r, y) + (if x >= 256 then 0x800 else 0) + (y % 256 / 8 * 32 + x % 256 / 8) * 2
  }

  lemma EntryAddrEven(r: Regs, x: nat, y: nat)
    ensures EntryAddr(r, x, y) % 2 == 0
  {
    var s, t := r.cnt / 0x100 % 32, y % 256 / 8 * 32 + x % 256 / 8;
    assert s * 0x800 == 2 * (s * 0x400);
  }

  /** The map entry of a position. */
  function Entry(m: Memory, r: Regs, x: nat, y: nat): nat {
    EntryAddrEven(r, x, y);
    Read16(m, EntryAddr(r, x, y))
  }

  /** The address of the character row an entry names. */
  function RowAddr(r: Regs, entry: nat, y: nat): (a: nat)
  {
    var ty := if HasBit(entry, 0x800) then 7 - y % 8 else y % 8;
    CharBase(r) + if Wide(r) then entry % 0x400 * 64 + ty * 8 else entry % 0x400 * 32 + ty * 4
  }

  lemma RowAddrAligned(r: Regs, entry: nat, y: nat)
    ensures Aligned(Wide(r), RowAddr(r, entry, y))
  {
    var ty := if HasBit(entry, 0x800) then 7 - y % 8 else y % 8;
    var c, t := r.cnt / 4 % 4, entry % 0x400;
    if Wide(r) {
      DivModIs(RowAddr(r, entry, y), 8, c * 0x800 + t * 8 + ty, 0);
    } else {
      DivModIs(RowAddr(r, entry, y), 4, c * 0x1000 + t * 8 + ty, 0);
    }
  }

  /** The column of the character row under tile column `tx`. */
  function Flip(entry: nat, tx: nat): nat
    requires tx < 8
  {
    if HasBit(entry, 0x400) then 7 - tx else tx
  }

  /** The colour of a texel: a 256-colour index, or one of the entry's 16-colour bank. */
  function TexelColor(pal: Palette, r: Regs, entry: nat, index: nat): Color
    requires index < if Wide(r) then 256 else 16
  {
    if index == 0 then 0 else Ink(pal, if Wide(r) then index else entry / 0x1000 % 16 * 16 + index)
  }

  /** One pixel of the background, on its own; 0 is transparent. */
  function Pixel(m: Memory, pal: Palette, r: Regs, line: nat, px: nat): Color {
    var x, y := MapX(r, px), MapY(r, line);
    var entry := Entry(m, r, x, y);
    TexelColor(pal, r, entry, TexelAt(m, Wide(r), RowAddr(r, entry, y), Flip(entry, x % 8)))
  }

  // ---------------------------------------------------------------------------------------------
  // The run loop

  /** How many pixels from `px` on stay in its tile. */
  function Run(x: nat, px: nat): nat
    requires px < WIDTH
  {
    var inTile := 8 - x % 8;
    if inTile < WIDTH - px then inTile else WIDTH - px
  }

  /** A run stays inside one tile of one screenblock. */
  lemma RunStaysInTile(r: Regs, px: nat, i: nat, y: nat)
    requires px < WIDTH && i < Run(MapX(r, px), px)
    ensures MapX(r, px + i) % 8 == MapX(r, px) % 8 + i
    ensures EntryAddr(r, MapX(r, px + i), y) == EntryAddr(r, MapX(r, px), y)
  {
    var b, k := Octave(px + r.hOfs);
    var x := if Broad(r) then b % 512 else b % 256;
    MapOf(r, px, b, k, x);
    SameEntry(r, x, k, y);
    MapOf(r, px + i, b, k + i, x);
    SameEntry(r, x, k + i, y);
  }

  lemma Octave(a: nat) returns (b: nat, k: nat)
    ensures a == b + k && b % 8 == 0 && k < 8
  {
    b, k := 8 * (a / 8), a % 8;
  }

  lemma MapOf(r: Regs, px: nat, b: nat, k: nat, x: nat)
    requires b % 8 == 0 && k < 8 && px + r.hOfs == b + k && x == if Broad(r) then b % 512 else b % 256
    ensures MapX(r, px) == x + k && x % 8 == 0
  {
    Wraps(r, b, k);
  }

  lemma Wraps(r: Regs, b: nat, k: nat)
    requires b % 8 == 0 && k < 8
    ensures if Broad(r) then (b + k) % 512 == b % 512 + k && b % 512 % 8 == 0
            else (b + k) % 256 == b % 256 + k && b % 256 % 8 == 0
  {
    AlignedMod(b, k, 8, 64, 512);
    AlignedMod(b, k, 8, 32, 256);
  }

  lemma SameEntry(r: Regs, x: nat, k: nat, y: nat)
    requires x % 8 == 0 && k < 8
    ensures (x + k) % 8 == k && EntryAddr(r, x + k, y) == EntryAddr(r, x, y)
  {
    SameCell(x, k);
  }

  lemma SameCell(x: nat, k: nat)
    requires x % 8 == 0 && k < 8
    ensures (x + k) % 8 == k && (x + k) % 256 / 8 == x % 256 / 8 && (x + k >= 256 <==> x >= 256)
  {
    AlignedMod(x, k, 8, 32, 256);
    DivModIs(x + k, 8, x / 8, k);
    DivModIs(x % 256 + k, 8, x % 256 / 8, k);
  }

  /** The line the loop is after. */
  ghost function Pixels(m: Memory, pal: Palette, r: Regs, line: nat): seq<Color> {
    seq(WIDTH, px => if px < 0 then 0 else Pixel(m, pal, r, line, px))
  }

  /** The pixels before `upTo` are drawn, the others still cleared. */
  predicate Drawn(s: seq<Color>, want: seq<Color>, upTo: nat)
    requires |s| == |want| == WIDTH && upTo <= WIDTH
  {
    forall k :: 0 <= k < WIDTH ==> s[k] == if k < upTo then want[k] else 0
  }

  predicate ValidIndex(r: Regs, index: nat) { index < if Wide(r) then 256 else 16 }

  /** Tile column `tx` of a row word has this colour. */
  predicate TexelIs(pal: Palette, r: Regs, entry: nat, word: nat, tx: nat, color: Color)
    requires tx < 8
  {
    var index := Texel(word, Wide(r), Flip(entry, tx));
    ValidIndex(r, index) && color == TexelColor(pal, r, entry, index)
  }

  /** The texels of a row word, put down from `px` on, are wanted there. */
  ghost predicate RowIs(pal: Palette, r: Regs, entry: nat, word: nat, first: nat, px: nat, run: nat, want: seq<Color>)
    requires |want| == WIDTH && px + run <= WIDTH && first + run <= 8
  {
    forall k :: px <= k < px + run ==> TexelIs(pal, r, entry, word, first + (k - px), want[k])
  }

  /** A zero row wants no write. */
  lemma ZeroRowIs(pal: Palette, r: Regs, entry: nat, first: nat, px: nat, run: nat, want: seq<Color>)
    requires |want| == WIDTH && px + run <= WIDTH && first + run <= 8
    requires RowIs(pal, r, entry, 0, first, px, run, want)
    ensures forall k :: px <= k < px + run ==> want[k] == 0
  {
    forall k | px <= k < px + run
      ensures want[k] == 0
    {
      var i := k - px;
      ZeroRow(Wide(r), Flip(entry, first + i));
      assert TexelIs(pal, r, entry, 0, first + i, want[k]);
    }
  }

  /** The texel loop of one run, skipped when the row word is zero. */
  method DrawRow(pal: Palette, r: Regs, entry: nat, word: nat, first: nat, px: nat, run: nat, out: array<Color>, ghost want: seq<Color>)
    requires |want| == out.Length == WIDTH && px + run <= WIDTH && first + run <= 8
    requires RowIs(pal, r, entry, word, first, px, run, want) && Drawn(out[..], want, px)
    modifies out
    ensures Drawn(out[..], want, px + run)
  {
    if word == 0 {
      ZeroRowIs(pal, r, entry, first, px, run, want);
      return;
    }
    for i := 0 to run
      invariant Drawn(out[..], want, px + i)
    {
      assert TexelIs(pal, r, entry, word, first + i, want[px + i]);
      var index := Texel(word, Wide(r), Flip(entry, first + i));
      if index != 0 {
        out[px + i] := TexelColor(pal, r, entry, index);
      }
    }
  }

  /** Inside a run the row word holds the texels of every pixel. */
  lemma RunTexel(m: Memory, pal: Palette, r: Regs, line: nat, px: nat, i: nat)
    requires px < WIDTH && i < Run(MapX(r, px), px)
    ensures var x, y := MapX(r, px), MapY(r, line);
            var entry := Entry(m, r, x, y);
            Aligned(Wide(r), RowAddr(r, entry, y)) && x % 8 + i < 8 &&
            TexelIs(pal, r, entry, RowWord(m, Wide(r), RowAddr(r, entry, y)), x % 8 + i, Pixel(m, pal, r, line, px + i))
  {
    var x, y := MapX(r, px), MapY(r, line);
    RunStaysInTile(r, px, i, y);
    var entry := Entry(m, r, x, y);
    RowAddrAligned(r, entry, y);
    RowTexel(m, Wide(r), RowAddr(r, entry, y), Flip(entry, x % 8 + i));
  }

  /** The row of the tile under `px` holds the rest of its run. */
  lemma RowOfRun(m: Memory, pal: Palette, r: Regs, y: nat, line: nat, x: nat, px: nat, entry: nat, run: nat, word: nat, want: seq<Color>)
    requires px < WIDTH && x == MapX(r, px) && y == MapY(r, line) && entry == Entry(m, r, x, y) && run == Run(x, px)
    requires Aligned(Wide(r), RowAddr(r, entry, y)) && word == RowWord(m, Wide(r), RowAddr(r, entry, y))
    requires want == Pixels(m, pal, r, line)
    ensures x % 8 + run <= 8 && RowIs(pal, r, entry, word, x % 8, px, run, want)
  {
    forall k | px <= k < px + run
      ensures x % 8 + (k - px) < 8 && TexelIs(pal, r, entry, word, x % 8 + (k - px), want[k])
    {
      RunTexel(m, pal, r, line, px, k - px);
    }
  }

  method Draw(m: Memory, pal: Palette, r: Regs, line: nat, out: array<Color>)
    requires out.Length == WIDTH && forall k :: 0 <= k < WIDTH ==> out[k] == 0
    modifies out
    ensures forall k :: 0 <= k < WIDTH ==> out[k] == Pixel(m, pal, r, line, k)
  {
    ghost var want := Pixels(m, pal, r, line);
    var y, px := MapY(r, line), 0;
    while px < WIDTH
      invariant px <= WIDTH && Drawn(out[..], want, px)
    {
      var x := MapX(r, px);
      var entry, run := Entry(m, r, x, y), Run(x, px);
      RowAddrAligned(r, entry, y);
      var word := RowWord(m, Wide(r), RowAddr(r, entry, y));
      RowOfRun(m, pal, r, y, line, x, px, entry, run, word, want);
      DrawRow(pal, r, entry, word, x % 8, px, run, out, want);
      px := px + run;
    }
    assert forall k :: 0 <= k < WIDTH ==> out[..][k] == want[k];
  }
}
