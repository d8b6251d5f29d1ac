/** Bytes as numbers: big-endian unsigned integers of any width, and the four-byte ones of
    authenticator data and of PNG chunks. */
module Bytes {

  type Byte = x: int | 0 <= x < 256

  const TWO32: nat := 0x1_0000_0000

  function Pow256(n: nat): nat { if n == 0 then 1 else 256 * Pow256(n - 1) }

  function Unsigned(b: seq<Byte>): (n: nat)
    ensures n < Pow256(|b|)
  {
    if b == [] then 0 else 256 * Unsigned(b[..|b| - 1]) + b[|b| - 1]
  }

  function UnsignedBytes(n: nat, width: nat): (b: seq<Byte>)
    ensures |b| == width
  {
    if width == 0 then [] else UnsignedBytes(n / 256, width - 1) + [n % 256]
  }

  lemma {:induction false} UnsignedOfBytes(n: nat, width: nat)
    requires n < Pow256(width)
    ensures Unsigned(UnsignedBytes(n, width)) == n
  {
    if width > 0 {
      UnsignedOfBytes(n / 256, width - 1);
      assert UnsignedBytes(n, width)[..width - 1] == UnsignedBytes(n / 256, width - 1);
    }
  }

  lemma {:induction false} BytesOfUnsigned(b: seq<Byte>)
    ensures UnsignedBytes(Unsigned(b), |b|) == b
  {
    if b != [] {
      BytesOfUnsigned(b[..|b| - 1]);
      assert Unsigned(b) / 256 == Unsigned(b[..|b| - 1]);
      assert b == b[..|b| - 1] + [b[|b| - 1]];
    }
  }

  lemma FourBytes()
    ensures Pow256(4) == TWO32
  {
    assert Pow256(2) == 0x1_0000;
  }

  function BigEndian(b: seq<Byte>): (n: nat)
    requires |b| == 4
    ensures n < TWO32
  {
    FourBytes();
    Unsigned(b)
  }

  /** The most significant byte comes first. */
  lemma BigEndianIs(b: seq<Byte>)
    requires |b| == 4
    ensures BigEndian(b) == 16777216 * (b[0] as int) + 65536 * (b[1] as int) + 256 * (b[2] as int) + (b[3] as int)
  {
    var b3, b2, b1 := b[..3], b[..2], b[..1];
    assert b3[..2] == b2 && b2[..1] == b1 && b1[..0] == [];
    assert Unsigned(b1) == b[0] as int && Unsigned(b2) == 256 * (b[0] as int) + (b[1] as int);
    assert Unsigned(b3) == 65536 * (b[0] as int) + 256 * (b[1] as int) + (b[2] as int);
  }

  function BytesOf(n: nat): (b: seq<Byte>)
    requires n < TWO32
    ensures |b| == 4
  {
    UnsignedBytes(n, 4)
  }

  lemma BigEndianOfBytes(n: nat)
    requires n < TWO32
    ensures BigEndian(BytesOf(n)) == n
  {
    FourBytes();
    UnsignedOfBytes(n, 4);
  }

  lemma BytesOfBigEndian(b: seq<Byte>)
    requires |b| == 4
    ensures BytesOf(BigEndian(b)) == b
  {
    BytesOfUnsigned(b);
  }
}
