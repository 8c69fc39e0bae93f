/**
 Video memory addressing and tile rows.

 - `RowContiguous`: a tile row never straddles the mirror fold, so one load fetches it whole;
 - `Texel8Is`, `Texel4Is`: the texels shifted out of a loaded row word are the bytes and nibbles in
   memory, and a zero word is a row of transparent texels (`ZeroRow`).
 */
module Vram {
  import opened Arithmetic
  import opened Bytes

  const SIZE: nat := 0x18000

  /** 64K, then 32K mirrored once per 128K block. */
  function Offset(addr: nat): (r: nat)
    ensures r < SIZE
  {
    var a := addr % 0x20000;
    if a >= 0x10000 then 0x10000 + a % 0x8000 else a
  }

  /** Memory repeats every 128 KB, and there the third 32 KB once more; below that an address stands for itself. */
  lemma MirrorIs(addr: nat)
    ensures Offset(addr + 0x20000) == Offset(addr)
    ensures addr < SIZE ==> Offset(addr) == addr
    ensures addr < 0x8000 ==> Offset(SIZE + addr) == 0x10000 + addr
  {
    DivModIs(addr + 0x20000, 0x20000, addr / 0x20000 + 1, addr % 0x20000);
    if addr < 0x8000 { DivModIs(0x18000 + addr, 0x8000, 3, addr); }
  }

  /** Inside an aligned group the remainder moves with the address. */
  lemma AlignedMod(a: nat, k: nat, s: nat, n: nat, m: nat)
    requires 0 < s && 0 < n && m == s * n && k < s && a % s == 0
    ensures (a + k) % m == a % m + k && (a % m) % s == 0 && a % m + s <= m
  {
    var b := a / s;
    var q, c := b / n, b % n;
    Scaled(s, n, q, c);
    DivModIs(a, m, q, s * c);
    DivModIs(a + k, m, q, s * c + k);
    DivModIs(s * c, s, c, 0);
  }

  lemma Scaled(s: nat, n: nat, q: nat, c: nat)
    requires c < n
    ensures s * (n * q + c) == (s * n) * q + s * c && s * c + s <= s * n
  {
    Distributes(s, n * q, c);
    MulMonotone(c + 1, n, s);
    Distributes(s, c, 1);
    assert s * (n * q) == (s * n) * q;
  }

  lemma RowContiguous(addr: nat, k: nat, s: nat)
    requires (s == 8 || s == 4 || s == 2) && addr % s == 0 && k < s
    ensures Offset(addr + k) == Offset(addr) + k && Offset(addr) + s <= SIZE
  {
    var a := addr % 0x20000;
    var n := if s == 8 then 0x1000 else if s == 4 then 0x2000 else 0x4000;
    AlignedMod(addr, k, s, 4 * n, 0x20000);
    AlignedMod(a, k, s, n, 0x8000);
  }

  type Memory = m: seq<Byte> | |m| == SIZE witness seq(SIZE, _ => 0)

  /** Shift right by `k` digits of base `base`. */
  function Shr(w: nat, base: nat, k: nat): nat
    requires base > 0
    decreases k
  {
    if k == 0 then w else Shr(w / base, base, k - 1)
  }

  /** Texel `k` of a row word, 8 bits or 4 bits wide. */
  function Texel(row: nat, wide: bool, k: nat): nat {
    if wide then Shr(row, 256, k) % 256 else Shr(row, 16, k) % 16
  }

  /** The low or high nibble of a byte. */
  function Nibble(b: Byte, k: nat): nat { if k % 2 == 0 then b as nat % 16 else b as nat / 16 }

  lemma {:induction false} Texel8Is(bytes: seq<Byte>, k: nat)
    requires k < |bytes|
    ensures Texel(Le(bytes), true, k) == bytes[k] as nat
    decreases k
  {
    if k > 0 {
      assert Le(bytes) / 256 == Le(bytes[1..]);
      Texel8Is(bytes[1..], k - 1);
    }
  }

  lemma TwoNibbles(b: nat, rest: nat, w: nat)
    requires b < 256 && w == b + 256 * rest
    ensures w % 16 == b % 16 && w / 16 % 16 == b / 16 && w / 16 / 16 == rest
  {
    DivModIs(w, 16, b / 16 + 16 * rest, b % 16);
    DivModIs(w / 16, 16, rest, b / 16);
  }

  lemma {:induction false} Texel4Is(bytes: seq<Byte>, k: nat)
    requires k / 2 < |bytes|
    ensures Texel(Le(bytes), false, k) == Nibble(bytes[k / 2], k)
    decreases k
  {
    var w := Le(bytes);
    TwoNibbles(bytes[0] as nat, Le(bytes[1..]), w);
    if k == 1 {
      assert Shr(w, 16, 1) == Shr(w / 16, 16, 0);
    } else if k >= 2 {
      assert Shr(w, 16, k) == Shr(w / 16, 16, k - 1) == Shr(w / 16 / 16, 16, k - 2);
      Texel4Is(bytes[1..], k - 2);
      assert bytes[1..][(k - 2) / 2] == bytes[k / 2];
    }
  }

  /** A zero row word: every texel is transparent, so skipping the row draws the same. */
  lemma {:induction false} ZeroRow(wide: bool, k: nat)
    ensures Texel(0, wide, k) == 0
    decreases k
  {
    if k > 0 { ZeroRow(wide, k - 1); }
  }

  /** A colour word of the palette or of a bitmap. */
  function Half(bytes: seq<Byte>, at: nat): (r: nat)
    requires at + 1 < |bytes|
    ensures r < 0x10000
  {
    bytes[at] as nat + 256 * bytes[at + 1] as nat
  }

  /** The two bytes at a mirrored, even address. */
  function Read16(m: Memory, addr: nat): (r: nat)
    requires addr % 2 == 0
    ensures r < 0x10000
  {
    RowContiguous(addr, 1, 2);
    Half(m, Offset(addr))
  }

  /** Bit `k` of a halfword, `scale` being 2^k. */
  predicate HasBit(w: nat, scale: nat)
    requires scale > 0
  {
    w / scale % 2 == 1
  }

  /** 512 colours: backgrounds, then objects. */
  type Palette = m: seq<Byte> | |m| == 1024 witness seq(1024, _ => 0)

  type Color = bv16

  /** A palette colour with the opaque bit; texel 0 is no write at all. */
  function Ink(pal: Palette, index: nat): Color
    requires index < 512
  {
    (Half(pal, 2 * index) as Color) | 0x8000
  }

  predicate Aligned(wide: bool, addr: nat) { if wide then addr % 8 == 0 else addr % 4 == 0 }

  /** One load of a tile row, 8 or 4 bytes. */
  function RowWord(m: Memory, wide: bool, addr: nat): nat
    requires Aligned(wide, addr)
  {
    RowContiguous(addr, 0, if wide then 8 else 4);
    var row := Offset(addr);
    if wide then Le(m[row..row + 8]) else Le(m[row..row + 4])
  }

  /** Texel `tx` of the tile row at `addr`, fetched on its own. */
  function TexelAt(m: Memory, wide: bool, addr: nat, tx: nat): (r: nat)
    requires tx < 8
    ensures r < if wide then 256 else 16
  {
    if wide then m[Offset(addr + tx)] as nat else Nibble(m[Offset(addr + tx / 2)], tx)
  }

  /** Shifting a texel out of the row word is fetching it on its own. */
  lemma RowTexel(m: Memory, wide: bool, addr: nat, tx: nat)
    requires Aligned(wide, addr) && tx < 8
    ensures Texel(RowWord(m, wide, addr), wide, tx) == TexelAt(m, wide, addr, tx)
  {
    if wide {
      RowContiguous(addr, tx, 8);
      Texel8Is(m[Offset(addr)..Offset(addr) + 8], tx);
    } else {
      RowContiguous(addr, tx / 2, 4);
      Texel4Is(m[Offset(addr)..Offset(addr) + 4], tx);
    }
  }
}
