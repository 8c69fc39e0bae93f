/** Bytes and little-endian numbers. */
module Bytes {

  newtype Byte = x: int | 0 <= x < 256

  /** A little-endian number of any width. */
  function Le(bytes: seq<Byte>): nat
    decreases |bytes|
  {
    if bytes == [] then 0 else bytes[0] as nat + 256 * Le(bytes[1..])
  }

  /** The low `width` bytes of a number, little-endian. */
  function LeBytes(n: nat, width: nat): (r: seq<Byte>)
    ensures |r| == width
    decreases width
  {
    if width == 0 then [] else [(n % 256) as Byte] + LeBytes(n / 256, width - 1)
  }

  function Pow256(width: nat): nat
    decreases width
  {
    if width == 0 then 1 else 256 * Pow256(width - 1)
  }

  /** A number that fits its width survives. */
  lemma {:induction false} LeRoundTrip(n: nat, width: nat)
    requires n < Pow256(width)
    ensures Le(LeBytes(n, width)) == n
    decreases width
  {
    if width > 0 {
      LeRoundTrip(n / 256, width - 1);
      assert LeBytes(n, width)[1..] == LeBytes(n / 256, width - 1);
    }
  }

  /** Bytes are determined by their number. */
  lemma {:induction false} LeInverse(bytes: seq<Byte>)
    ensures Le(bytes) < Pow256(|bytes|) && LeBytes(Le(bytes), |bytes|) == bytes
    decreases |bytes|
  {
    if bytes != [] {
      var b, rest := bytes[0] as nat, Le(bytes[1..]);
      LeInverse(bytes[1..]);
      assert (b + 256 * rest) % 256 == b && (b + 256 * rest) / 256 == rest;
      assert bytes == [bytes[0]] + bytes[1..];
    }
  }

  lemma Widths()
    ensures Pow256(1) == 0x100 && Pow256(2) == 0x1_0000 && Pow256(4) == 0x1_0000_0000
    ensures Pow256(8) == 0x1_0000_0000_0000_0000
  {
    assert Pow256(1) == 256 * Pow256(0);
    assert Pow256(2) == 256 * Pow256(1);
    assert Pow256(3) == 256 * Pow256(2);
    assert Pow256(4) == 256 * Pow256(3);
    assert Pow256(5) == 256 * Pow256(4);
    assert Pow256(6) == 256 * Pow256(5);
    assert Pow256(7) == 256 * Pow256(6);
    assert Pow256(8) == 256 * Pow256(7);
  }
}
