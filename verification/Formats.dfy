/** The storage formats, byte by byte. */
module Formats {
  import opened Bytes
  import opened Keys
  import opened Envelope
  import ListCodec

  function Byte(n: nat, divisor: nat): byte
    requires divisor > 0
  {
    n / divisor % 256
  }

  /** A length as four bytes, the most significant first. */
  function Four(n: nat): bytes { [Byte(n, 0x100_0000), Byte(n, 0x1_0000), Byte(n, 0x100), Byte(n, 1)] }

  lemma FourIsWord(n: nat)
    ensures Word32(n) == Four(n)
  {
    assert BigEndian(n / 0x100_0000, 1) == [n / 0x100_0000 % 256];
    assert n / 256 / 256 / 256 == n / 0x100_0000 && n / 256 / 256 == n / 0x1_0000;
    assert BigEndian(n / 0x1_0000, 2) == [n / 0x100_0000 % 256, n / 0x1_0000 % 256];
    assert BigEndian(n / 256, 3) == [n / 0x100_0000 % 256, n / 0x1_0000 % 256, n / 256 % 256];
  }

  /** A deadline as eight bytes, two's complement, the most significant first. */
  function Eight(n: int64): bytes {
    var u := if n < 0 then n + 0x1_0000_0000_0000_0000 else n;
    Four(u / 0x1_0000_0000) + Four(u)
  }

  lemma LowFour(u: nat)
    ensures BigEndian(u, 8) == BigEndian(u / 0x1_0000_0000, 4) + Four(u)
  {
    hide BigEndian;
    assert u / 256 / 256 == u / 0x1_0000 && u / 256 / 256 / 256 == u / 0x100_0000;
    assert u / 256 / 256 / 256 / 256 == u / 0x1_0000_0000;
    LastByte(u, 8);
    LastByte(u / 256, 7);
    LastByte(u / 256 / 256, 6);
    LastByte(u / 256 / 256 / 256, 5);
  }

  lemma LastByte(n: nat, w: nat)
    requires w > 0
    ensures BigEndian(n, w) == BigEndian(n / 256, w - 1) + [n % 256]
  {
  }

  lemma EightIsWord(n: int64)
    ensures Word64(n) == Eight(n)
  {
    hide BigEndian, Four;
    var u := if n < 0 then n + TWO64 else n;
    LowFour(u);
    FourIsWord(u / 0x1_0000_0000);
  }

  /** The five kinds of records, and how a key is set apart from what follows it. */
  lemma StorageKeys(k: bytes, x: bytes)
    ensures ValueKey(k) == [1] + k && ListKey(k) == [4] + k && TtlKey(k) == [5] + k
    ensures HashKey(k, x) == [2] + Four(|k|) + k + x
    ensures SetKey(k, x) == [3] + Four(|k|) + k + x
  {
    FourIsWord(|k|);
  }

  /** The magic KVL1, the deadline, the length of the codec name in two bytes, the name, the value. */
  lemma EnvelopeBytes(e: Env)
    requires |e.codec| <= 65535
    ensures Marshal(e) ==
            Some([75, 86, 76, 49] + Eight(e.expiresAt) + [|e.codec| / 256, |e.codec| % 256] + e.codec + e.payload)
  {
    EightIsWord(e.expiresAt);
    assert BigEndian(|e.codec| / 256, 1) == [] + [|e.codec| / 256];
    assert BigEndian(|e.codec|, 2) == [|e.codec| / 256, |e.codec| % 256];
    hide BigEndian, Eight, Word64;
  }

  /** A list record: the number of items, then each item after its length. */
  function ListBytes(items: seq<bytes>): bytes {
    if items == [] then [] else Four(|items[0]|) + items[0] + ListBytes(items[1..])
  }

  lemma {:induction false} ItemBytes(items: seq<bytes>)
    ensures ListCodec.EncodeItems(items) == ListBytes(items)
    decreases |items|
  {
    if items != [] {
      FourIsWord(|items[0]|);
      ItemBytes(items[1..]);
    }
  }

  lemma ListRecordBytes(items: seq<bytes>)
    ensures ListCodec.EncodeList(items) == Four(|items|) + ListBytes(items)
  {
    FourIsWord(|items|);
    ItemBytes(items);
  }
}
