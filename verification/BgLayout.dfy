/**
 Background pixels from their registers and bytes, in plain arithmetic.

 - `TextPixelIs`: which map entry, character byte and palette colour a pixel of a text background is, for every
   setting of the control register's fields and of the entry's;
 - `TextWraps`: scrolling by the size of the map changes nothing;
 - `BitmapPixelIs`: which byte or halfword of the page a pixel of a bitmap is;
 - `FrameLines`: the reference an affine background has on each line of a frame, and `WriteRefIs`: what a write to it
   stores.
 */
module BgLayout {
  import opened Arithmetic
  import opened Bytes
  import opened Vram

  import B = BitmapBg
  import T = TextBg

  function Flag(b: bool): nat { if b then 1 else 0 }

  // ---------------------------------------------------------------------------------------------
  // Text backgrounds

  /** BGxCNT by its fields. */
  datatype Control = Control(prio: nat, charBase: nat, low: nat, wide: bool, screenBase: nat, high: bool, broad: bool, tall: bool)

  predicate ValidControl(k: Control) { k.prio < 4 && k.charBase < 4 && k.low < 8 && k.screenBase < 32 }

  function ControlWord(k: Control): nat {
    k.prio + 4 * k.charBase + 16 * k.low + 128 * Flag(k.wide) + 256 * k.screenBase + 8192 * Flag(k.high)
    + 16384 * Flag(k.broad) + 32768 * Flag(k.tall)
  }

  lemma LowFields(w: nat, prio: nat, charBase: nat, low: nat, wide: nat, upper: nat)
    requires prio < 4 && charBase < 4 && low < 8 && wide < 2
    requires w == prio + 4 * charBase + 16 * low + 128 * wide + 256 * upper
    ensures w / 4 % 4 == charBase && w / 128 % 2 == wide && w / 256 == upper
  {
    DivModIs(w, 4, charBase + 4 * (low + 8 * (wide + 2 * upper)), prio);
    DivModIs(w / 4, 4, low + 8 * (wide + 2 * upper), charBase);
    DivModIs(w, 128, wide + 2 * upper, prio + 4 * charBase + 16 * low);
    DivModIs(w, 256, upper, prio + 4 * charBase + 16 * low + 128 * wide);
  }

  lemma HighFields(w: nat, rest: nat, screenBase: nat, high: nat, broad: nat, tall: nat)
    requires rest < 256 && screenBase < 32 && high < 2 && broad < 2 && tall < 2
    requires w == rest + 256 * (screenBase + 32 * (high + 2 * (broad + 2 * tall)))
    ensures w / 256 % 32 == screenBase && w / 16384 % 2 == broad && w / 32768 % 2 == tall
  {
    DivModIs(w, 256, screenBase + 32 * (high + 2 * (broad + 2 * tall)), rest);
    DivModIs(w, 16384, broad + 2 * tall, rest + 256 * (screenBase + 32 * high));
    DivModIs(w, 32768, tall, rest + 256 * (screenBase + 32 * (high + 2 * broad)));
  }

  lemma ControlFields(k: Control, r: T.Regs)
    requires ValidControl(k) && r.cnt == ControlWord(k)
    ensures T.CharBase(r) == 16384 * k.charBase && T.ScreenBase(r) == 2048 * k.screenBase
    ensures T.Wide(r) == k.wide && T.Broad(r) == k.broad && T.Tall(r) == k.tall
  {
    var upper := k.screenBase + 32 * (Flag(k.high) + 2 * (Flag(k.broad) + 2 * Flag(k.tall)));
    LowFields(r.cnt, k.prio, k.charBase, k.low, Flag(k.wide), upper);
    HighFields(r.cnt, k.prio + 4 * k.charBase + 16 * k.low + 128 * Flag(k.wide), k.screenBase, Flag(k.high), Flag(k.broad),
               Flag(k.tall));
  }

  /** A map entry by its fields. */
  datatype Entry = Entry(tile: nat, hFlip: bool, vFlip: bool, bank: nat)

  predicate ValidEntry(e: Entry) { e.tile < 1024 && e.bank < 16 }

  function EntryWord(e: Entry): nat { e.tile + 1024 * Flag(e.hFlip) + 2048 * Flag(e.vFlip) + 4096 * e.bank }

  lemma EntryFields(e: Entry, w: nat)
    requires ValidEntry(e) && w == EntryWord(e)
    ensures w % 1024 == e.tile && HasBit(w, 1024) == e.hFlip && HasBit(w, 2048) == e.vFlip && w / 4096 % 16 == e.bank
  {
    DivModIs(w, 1024, Flag(e.hFlip) + 2 * (Flag(e.vFlip) + 2 * e.bank), e.tile);
    DivModIs(w, 2048, Flag(e.vFlip) + 2 * e.bank, e.tile + 1024 * Flag(e.hFlip));
    DivModIs(w, 4096, e.bank, e.tile + 1024 * Flag(e.hFlip) + 2048 * Flag(e.vFlip));
  }

  /** Where the map has the entry of a position: 32 by 32 entries to a block of 2 KB, the blocks row by row. */
  function MapAddress(k: Control, x: nat, y: nat): (at: nat)
    ensures at % 2 == 0
  {
    2 * (1024 * (k.screenBase + x / 256 + y / 256 * (if k.broad then 2 else 1)) + 32 * (y % 256 / 8) + x % 256 / 8)
  }

  lemma EntryAddressIs(k: Control, r: T.Regs, x: nat, y: nat)
    requires ValidControl(k) && r.cnt == ControlWord(k) && x < 512 && y < 512
    ensures T.EntryAddr(r, x, y) == MapAddress(k, x, y)
  {
    ControlFields(k, r);
    Half512(x);
    Half512(y);
  }

  lemma Half512(x: nat)
    requires x < 512
    ensures x / 256 == if x >= 256 then 1 else 0
  {}

  /** The byte a character's texel is in: eight rows of eight bytes, or of four with two texels each. */
  function CharAddress(k: Control, e: Entry, tx: nat, ty: nat): nat {
    16384 * k.charBase + if k.wide then 64 * e.tile + 8 * ty + tx else 32 * e.tile + 4 * ty + tx / 2
  }

  function Mirrored(flip: bool, t: nat): nat
    requires t < 8
  {
    if flip then 7 - t else t
  }

  /** The texel, as the byte or the half of a byte it is stored in. */
  function Texel(m: Memory, wide: bool, at: nat, tx: nat): (t: nat)
    ensures t < if wide then 256 else 16
  {
    var byte := m[Offset(at)] as nat;
    if wide then byte else if tx % 2 == 0 then byte % 16 else byte / 16
  }

  lemma PixelOf(m: Memory, pal: Palette, r: T.Regs, line: nat, px: nat, x: nat, y: nat, entry: nat)
    requires x == T.MapX(r, px) && y == T.MapY(r, line) && entry == T.Entry(m, r, x, y)
    ensures var texel := TexelAt(m, T.Wide(r), T.RowAddr(r, entry, y), T.Flip(entry, x % 8));
            T.Pixel(m, pal, r, line, px) ==
            if texel == 0 then 0 else Ink(pal, if T.Wide(r) then texel else 16 * (entry / 4096 % 16) + texel)
  {}

  lemma TexelIs(m: Memory, k: Control, r: T.Regs, e: Entry, entry: nat, x: nat, y: nat, tx: nat, ty: nat)
    requires ValidControl(k) && r.cnt == ControlWord(k) && ValidEntry(e) && entry == EntryWord(e)
    requires tx == Mirrored(e.hFlip, x % 8) && ty == Mirrored(e.vFlip, y % 8)
    ensures T.Wide(r) == k.wide
    ensures TexelAt(m, k.wide, T.RowAddr(r, entry, y), T.Flip(entry, x % 8)) == Texel(m, k.wide, CharAddress(k, e, tx, ty), tx)
  {
    ControlFields(k, r);
    EntryFields(e, entry);
  }

  /** One pixel: the entry under its scrolled position, the texel of the entry's character, flipped as the entry says,
      and the palette colour of the texel, in the entry's bank of sixteen unless the character has 256. */
  lemma TextPixelIs(m: Memory, pal: Palette, r: T.Regs, line: nat, px: nat, k: Control, e: Entry, x: nat, y: nat)
    requires ValidControl(k) && r.cnt == ControlWord(k)
    requires x == (if k.broad then (px + r.hOfs) % 512 else (px + r.hOfs) % 256)
    requires y == (if k.tall then (line + r.vOfs) % 512 else (line + r.vOfs) % 256)
    requires ValidEntry(e) && Read16(m, MapAddress(k, x, y)) == EntryWord(e)
    ensures var tx, ty := Mirrored(e.hFlip, x % 8), Mirrored(e.vFlip, y % 8);
            var texel := Texel(m, k.wide, CharAddress(k, e, tx, ty), tx);
            T.Pixel(m, pal, r, line, px) == if texel == 0 then 0 else Ink(pal, if k.wide then texel else 16 * e.bank + texel)
  {
    ControlFields(k, r);
    EntryAddressIs(k, r, x, y);
    PixelOf(m, pal, r, line, px, x, y, EntryWord(e));
    TexelIs(m, k, r, e, EntryWord(e), x, y, Mirrored(e.hFlip, x % 8), Mirrored(e.vFlip, y % 8));
    EntryFields(e, EntryWord(e));
  }

  /** The map repeats: scrolling by its width and height changes no pixel. */
  lemma TextWraps(m: Memory, pal: Palette, r: T.Regs, line: nat, px: nat)
    ensures var s := r.(hOfs := r.hOfs + (if T.Broad(r) then 512 else 256), vOfs := r.vOfs + (if T.Tall(r) then 512 else 256));
            T.Pixel(m, pal, s, line, px) == T.Pixel(m, pal, r, line, px)
  {
    var s := r.(hOfs := r.hOfs + (if T.Broad(r) then 512 else 256), vOfs := r.vOfs + (if T.Tall(r) then 512 else 256));
    Repeats(px + r.hOfs);
    Repeats(line + r.vOfs);
    assert T.MapX(s, px) == T.MapX(r, px) && T.MapY(s, line) == T.MapY(r, line);
    var x, y := T.MapX(r, px), T.MapY(r, line);
    SameButOffsets(m, r, s, x, y);
    PixelOf(m, pal, r, line, px, x, y, T.Entry(m, r, x, y));
    PixelOf(m, pal, s, line, px, x, y, T.Entry(m, r, x, y));
  }

  lemma Repeats(n: nat)
    ensures (n + 512) % 512 == n % 512 && (n + 256) % 256 == n % 256
  {}

  lemma SameButOffsets(m: Memory, r: T.Regs, s: T.Regs, x: nat, y: nat)
    requires r.cnt == s.cnt
    ensures T.Entry(m, r, x, y) == T.Entry(m, s, x, y)
    ensures forall entry: nat :: T.RowAddr(r, entry, y) == T.RowAddr(s, entry, y)
  {}

  // ---------------------------------------------------------------------------------------------
  // Bitmaps

  function BitmapWidth(mode: B.Mode): nat { if mode == 5 then 160 else 240 }

  function BitmapHeight(mode: B.Mode): nat { if mode == 5 then 128 else 160 }

  /** Where a texel of the shown page is: rows of 240 or 160, a byte each in mode 4 and a halfword in modes 3 and 5; the
      second page of modes 4 and 5 begins at 0xA000. */
  function BitmapAddress(mode: B.Mode, second: bool, x: nat, y: nat): nat {
    if mode == 3 then 2 * (240 * y + x)
    else if mode == 4 then (if second then 0xA000 else 0) + 240 * y + x
    else (if second then 0xA000 else 0) + 2 * (160 * y + x)
  }

  lemma BitmapAddressIs(mode: B.Mode, second: bool, x: nat, y: nat)
    requires B.Inside(mode, x, y)
    ensures B.Address(mode, B.Page(mode, second), x, y) == BitmapAddress(mode, second, x, y)
    ensures BitmapAddress(mode, second, x, y) + 1 < SIZE && (mode == 4 || BitmapAddress(mode, second, x, y) % 2 == 0)
  {
    B.AddressFits(mode, second, x, y);
  }

  /** The colour stored there: a palette index, 0 for none, or the colour itself. */
  function BitmapColor(m: Memory, pal: Palette, mode: B.Mode, at: nat): Color
    requires at + 1 < SIZE
  {
    if mode == 4 then (if m[at] == 0 then 0 else Ink(pal, m[at] as nat)) else (Half(m, at) as Color) | 0x8000
  }

  lemma BitmapColorIs(m: Memory, pal: Palette, mode: B.Mode, second: bool, x: nat, y: nat)
    requires B.Inside(mode, x, y)
    ensures BitmapAddress(mode, second, x, y) + 1 < SIZE
    ensures B.ColorAt(m, pal, mode, B.Page(mode, second), x, y) == BitmapColor(m, pal, mode, BitmapAddress(mode, second, x, y))
  {
    BitmapAddressIs(mode, second, x, y);
    B.DirectIsMirrored(m, pal, mode, BitmapAddress(mode, second, x, y));
  }

  /** One pixel: the reference moved by `px` columns, in whole texels, and the colour there inside the bitmap. */
  lemma BitmapPixelIs(m: Memory, pal: Palette, mode: B.Mode, second: bool, a: B.Affine, px: nat, x: int, y: int)
    requires B.ValidAffine(a) && x == B.Wrap32(a.x + a.pa * px) / 256 && y == B.Wrap32(a.y + a.pc * px) / 256
    ensures if 0 <= x < BitmapWidth(mode) && 0 <= y < BitmapHeight(mode)
            then BitmapAddress(mode, second, x, y) + 1 < SIZE &&
                 B.Pixel(m, pal, mode, second, a, px) == BitmapColor(m, pal, mode, BitmapAddress(mode, second, x, y))
            else B.Pixel(m, pal, mode, second, a, px) == 0
  {
    B.RefIs(a.x, a.pa, px);
    B.RefIs(a.y, a.pc, px);
    if B.Inside(mode, x, y) { BitmapColorIs(m, pal, mode, second, x, y); }
  }

  // ---------------------------------------------------------------------------------------------
  // Reference registers

  /** A write keeps 28 bits of the register, as a signed number. */
  lemma WriteRefIs(s: B.Axis, mask: bv32, value: bv32) returns (w: bv32)
    requires B.I32(s.reference)
    ensures w == (B.AsU32(s.reference) & !mask) | (value & mask)
    ensures var t := B.Step(s, B.WriteRef(mask, value));
            && t.internal == t.reference && -0x800_0000 <= t.reference < 0x800_0000
            && (w as int - t.reference) % 0x1000_0000 == 0
            && t.step == s.step && t.line == s.line && t.inHblank == s.inHblank
  {
    w := (B.AsU32(s.reference) & !mask) | (value & mask);
    SignExtendIs(w as int);
  }

  lemma SignExtendIs(w: int)
    requires w >= 0
    ensures var v := w % 0x1000_0000;
            var r := if v >= 0x800_0000 then v - 0x1000_0000 else v;
            (w - r) % 0x1000_0000 == 0
  {
    var q, v := w / 0x1000_0000, w % 0x1000_0000;
    if v >= 0x800_0000 { DivModIs(0x1000_0000 * (q + 1), 0x1000_0000, q + 1, 0); } else { DivModIs(0x1000_0000 * q, 0x1000_0000, q, 0); }
  }

  /** `n` whole lines without a register write. */
  function AfterLines(s: B.Axis, n: nat): (t: B.Axis)
    requires B.I32(s.reference)
    ensures t.reference == s.reference && t.step == s.step
    decreases n
  {
    if n == 0 then s else B.Step(B.Step(AfterLines(s, n - 1), B.HblankStart), B.LineEnd)
  }

  /** Through a frame that starts from the written reference: line n is drawn from the reference moved n steps, the 68
      lines of the vblank move it no further, and the next frame starts from the written reference again. */
  lemma {:induction false} FrameLines(s: B.Axis, n: nat)
    requires B.Bounded(s) && s.line == 0 && !s.inHblank && s.internal == s.reference && n <= 228
    ensures var t := AfterLines(s, n);
            && !t.inHblank && t.line == (if n == 228 then 0 else n)
            && t.internal == if n == 228 then s.reference else s.reference + s.step * (if n < 160 then n else 160)
    decreases n
  {
    if n > 0 {
      FrameLines(s, n - 1);
      NextLine(s.reference, s.step, n - 1);
    }
  }

  lemma NextLine(c: int, p: int, n: nat)
    requires -0x800_0000 <= c < 0x800_0000 && B.I16(p) && n < 228
    ensures n < 160 ==> B.Wrap32(c + p * n + p) == c + p * (n + 1)
  {
    if n < 160 {
      B.MulBound(p, n + 1);
      assert c + p * n + p == c + p * (n + 1);
      B.WrapIs(c + p * (n + 1));
    }
  }
}
