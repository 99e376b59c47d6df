/** Byte strings, fixed-width big-endian integers and two's-complement 64-bit words:
    the vocabulary every stored record is written in. */
module Bytes {
  type byte = n: int | 0 <= n < 256
  type bytes = seq<byte>

  datatype Option<+T> = None | Some(value: T)

  const TWO16: int := 0x1_0000
  const TWO32: int := 0x1_0000_0000
  const TWO63: int := 0x8000_0000_0000_0000
  const TWO64: int := 0x1_0000_0000_0000_0000
  const MAX_INT64: int := TWO63 - 1
  const MIN_INT64: int := -TWO63

  type int64 = n: int | MIN_INT64 <= n <= MAX_INT64

  /** The white space of ASCII. */
  predicate IsSpace(b: byte) { b == 0x20 || 0x09 <= b <= 0x0D }

  function Pow256(w: nat): (r: nat)
    ensures r >= 1
  {
    if w == 0 then 1 else 256 * Pow256(w - 1)
  }

  /** The `w` low-order bytes of `n`, most significant first; higher bytes are dropped,
      as a narrowing conversion before PutUint16/32/64 drops them. */
  function BigEndian(n: nat, w: nat): (b: bytes)
    ensures |b| == w
  {
    if w == 0 then [] else BigEndian(n / 256, w - 1) + [n % 256]
  }

  function FromBigEndian(b: bytes): (n: nat)
    ensures n < Pow256(|b|)
  {
    if |b| == 0 then 0 else FromBigEndian(b[..|b| - 1]) * 256 + b[|b| - 1]
  }

  lemma {:induction false} BigEndianRoundTrip(n: nat, w: nat)
    requires n < Pow256(w)
    ensures FromBigEndian(BigEndian(n, w)) == n
  {
    if w > 0 {
      BigEndianRoundTrip(n / 256, w - 1);
      assert BigEndian(n, w)[..w - 1] == BigEndian(n / 256, w - 1);
    }
  }

  lemma {:induction false} FromBigEndianRoundTrip(b: bytes)
    ensures BigEndian(FromBigEndian(b), |b|) == b
  {
    if |b| > 0 {
      var front := b[..|b| - 1];
      FromBigEndianRoundTrip(front);
      assert FromBigEndian(b) / 256 == FromBigEndian(front);
      assert b == front + [b[|b| - 1]];
    }
  }

  lemma Widths()
    ensures Pow256(2) == TWO16 && Pow256(4) == TWO32 && Pow256(8) == TWO64
  {
    assert Pow256(1) == 256;
    assert Pow256(3) == 0x100_0000;
    assert Pow256(5) == 0x100_0000_0000;
    assert Pow256(6) == 0x1_0000_0000_0000;
    assert Pow256(7) == 0x100_0000_0000_0000;
  }

  function Word32(n: nat): (b: bytes)
    ensures |b| == 4
  {
    BigEndian(n, 4)
  }

  function FromWord32(b: bytes): (n: nat)
    requires |b| == 4
    ensures n < TWO32
  {
    Widths();
    FromBigEndian(b)
  }

  /** uint64(n) of a signed 64-bit integer, then eight big-endian bytes. */
  function Word64(n: int64): (b: bytes)
    ensures |b| == 8
  {
    BigEndian(if n < 0 then n + TWO64 else n, 8)
  }

  function FromWord64(b: bytes): (n: int64)
    requires |b| == 8
  {
    Widths();
    var u := FromBigEndian(b);
    if u >= TWO63 then u - TWO64 else u
  }

  lemma Word32RoundTrip(n: nat)
    requires n < TWO32
    ensures FromWord32(Word32(n)) == n
  {
    Widths();
    BigEndianRoundTrip(n, 4);
  }

  lemma FromWord32RoundTrip(b: bytes)
    requires |b| == 4
    ensures Word32(FromWord32(b)) == b
  {
    FromBigEndianRoundTrip(b);
  }

  lemma Word64RoundTrip(n: int64)
    ensures FromWord64(Word64(n)) == n
  {
    Widths();
    BigEndianRoundTrip(if n < 0 then n + TWO64 else n, 8);
  }

  lemma FromWord64RoundTrip(b: bytes)
    requires |b| == 8
    ensures Word64(FromWord64(b)) == b
  {
    Widths();
    FromBigEndianRoundTrip(b);
  }
}
