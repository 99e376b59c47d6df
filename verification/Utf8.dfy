/** The text coercion of Go's JSON encoder: a byte that does not start a well-formed UTF-8
    sequence is written as U+FFFD, so a string survives a JSON round trip only if it is UTF-8. */
module Utf8 {
  import opened Bytes

  predicate Continuation(b: byte) { 0x80 <= b <= 0xBF }

  /** The second byte allowed after `first` in a sequence of three or four bytes. */
  predicate Second(first: byte, b: byte) {
    Continuation(b) && (first == 0xE0 ==> b >= 0xA0) && (first == 0xED ==> b <= 0x9F)
    && (first == 0xF0 ==> b >= 0x90) && (first == 0xF4 ==> b <= 0x8F)
  }

  /** Length of the well-formed sequence at the front of `s`, 0 when there is none. */
  function RuneLength(s: bytes): (n: nat)
    ensures n <= |s|
  {
    if s == [] then 0
    else if s[0] < 0x80 then 1
    else if 0xC2 <= s[0] <= 0xDF && |s| >= 2 && Continuation(s[1]) then 2
    else if 0xE0 <= s[0] <= 0xEF && |s| >= 3 && Second(s[0], s[1]) && Continuation(s[2]) then 3
    else if 0xF0 <= s[0] <= 0xF4 && |s| >= 4 && Second(s[0], s[1]) && Continuation(s[2]) && Continuation(s[3]) then 4
    else 0
  }

  predicate WellFormed(s: bytes) {
    s == [] || (RuneLength(s) > 0 && WellFormed(s[RuneLength(s)..]))
  }

  const REPLACEMENT: bytes := [0xEF, 0xBF, 0xBD]

  /** The string a JSON reader gets back. */
  function Coerce(s: bytes): bytes {
    if s == [] then []
    else if RuneLength(s) > 0 then s[..RuneLength(s)] + Coerce(s[RuneLength(s)..])
    else REPLACEMENT + Coerce(s[1..])
  }

  lemma {:induction false} CoerceGrows(s: bytes)
    ensures |Coerce(s)| >= |s| && (|Coerce(s)| == |s| ==> WellFormed(s))
    decreases |s|
  {
    if s == [] {
    } else if RuneLength(s) > 0 {
      CoerceGrows(s[RuneLength(s)..]);
    } else {
      CoerceGrows(s[1..]);
    }
  }

  lemma {:induction false} CoerceKeepsWellFormed(s: bytes)
    requires WellFormed(s)
    ensures Coerce(s) == s
    decreases |s|
  {
    if s != [] {
      CoerceKeepsWellFormed(s[RuneLength(s)..]);
      assert s == s[..RuneLength(s)] + s[RuneLength(s)..];
    }
  }

  /** A string survives the JSON round trip exactly when it is UTF-8. */
  lemma SurvivesJson(s: bytes)
    ensures Coerce(s) == s <==> WellFormed(s)
  {
    CoerceGrows(s);
    if WellFormed(s) { CoerceKeepsWellFormed(s); }
  }

  lemma {:induction false} AsciiSurvives(s: bytes)
    requires forall i :: 0 <= i < |s| ==> s[i] < 0x80
    ensures WellFormed(s)
    decreases |s|
  {
    if s != [] { AsciiSurvives(s[1..]); }
  }

  // ---------------------------------------------------------------- code points

  /** A Unicode scalar value: no surrogate, nothing past U+10FFFF. */
  predicate Scalar(c: int) { 0 <= c < 0xD800 || 0xE000 <= c <= 0x10FFFF }

  /** UTF-8 by the bits of the code point. */
  function Encode(c: int): (b: bytes)
    requires Scalar(c)
    ensures b != []
  {
    if c < 0x80 then [c]
    else if c < 0x800 then [0xC0 + c / 0x40, 0x80 + c % 0x40]
    else if c < 0x1_0000 then [0xE0 + c / 0x1000, 0x80 + c / 0x40 % 0x40, 0x80 + c % 0x40]
    else [0xF0 + c / 0x4_0000, 0x80 + c / 0x1000 % 0x40, 0x80 + c / 0x40 % 0x40, 0x80 + c % 0x40]
  }

  lemma EncodedIsRune(c: int, rest: bytes)
    requires Scalar(c)
    ensures RuneLength(Encode(c) + rest) == |Encode(c)|
  {
    var s := Encode(c) + rest;
    if c >= 0x80 { assert s[0] == Encode(c)[0] && s[1] == Encode(c)[1]; }
    if c >= 0x800 { assert s[2] == Encode(c)[2]; }
    if c >= 0x1_0000 { assert s[3] == Encode(c)[3]; }
  }

  /** The code point of a lead value and its continuation bytes, six bits each. */
  function Joined(lead: int, tail: bytes): int {
    if tail == [] then lead else Joined(lead, tail[..|tail| - 1]) * 0x40 + tail[|tail| - 1] - 0x80
  }

  function Lead(s: bytes): int
    requires RuneLength(s) > 0
  {
    var mark := match RuneLength(s) case 1 => 0 case 2 => 0xC0 case 3 => 0xE0 case _ => 0xF0;
    s[0] - mark
  }

  function CodePoint(s: bytes): int
    requires RuneLength(s) > 0
  {
    Joined(Lead(s), s[1..RuneLength(s)])
  }

  lemma Joins(lead: int, a: byte, b: byte, c: byte)
    ensures Joined(lead, [a]) == lead * 0x40 + (a - 0x80)
    ensures Joined(lead, [a, b]) == (lead * 0x40 + (a - 0x80)) * 0x40 + (b - 0x80)
    ensures Joined(lead, [a, b, c]) == ((lead * 0x40 + (a - 0x80)) * 0x40 + (b - 0x80)) * 0x40 + (c - 0x80)
  {
    assert [a][..0] == [] && [a, b][..1] == [a] && [a, b, c][..2] == [a, b];
  }

  lemma Splits(high: int, low: int)
    requires 0 <= low < 0x40
    ensures (high * 0x40 + low) / 0x40 == high && (high * 0x40 + low) % 0x40 == low
  {
  }

  lemma TwoBytes(s: bytes)
    requires RuneLength(s) == 2
    ensures Scalar(CodePoint(s)) && s[..2] == Encode(CodePoint(s))
  {
    assert s[1..2] == [s[1]];
    Joins(Lead(s), s[1], 0, 0);
    Splits(Lead(s), s[1] - 0x80);
  }

  lemma ThreeBytes(s: bytes)
    requires RuneLength(s) == 3
    ensures Scalar(CodePoint(s)) && s[..3] == Encode(CodePoint(s))
  {
    assert s[1..3] == [s[1], s[2]];
    Joins(Lead(s), s[1], s[2], 0);
    var high := Lead(s) * 0x40 + (s[1] - 0x80);
    Splits(Lead(s), s[1] - 0x80);
    Splits(high, s[2] - 0x80);
    var c := CodePoint(s);
    assert c / 0x40 == high && c / 0x1000 == high / 0x40;
  }

  lemma FourBytes(s: bytes)
    requires RuneLength(s) == 4
    ensures Scalar(CodePoint(s)) && s[..4] == Encode(CodePoint(s))
  {
    assert s[1..4] == [s[1], s[2], s[3]];
    Joins(Lead(s), s[1], s[2], s[3]);
    var top := Lead(s) * 0x40 + (s[1] - 0x80);
    var high := top * 0x40 + (s[2] - 0x80);
    Splits(Lead(s), s[1] - 0x80);
    Splits(top, s[2] - 0x80);
    Splits(high, s[3] - 0x80);
    var c := CodePoint(s);
    assert c / 0x40 == high && c / 0x1000 == high / 0x40 && c / 0x4_0000 == top / 0x40;
  }

  /** The sequences recognised are the encodings of the scalar values and no others. */
  lemma RuneIsEncoded(s: bytes)
    requires RuneLength(s) > 0
    ensures Scalar(CodePoint(s)) && s[..RuneLength(s)] == Encode(CodePoint(s))
  {
    hide Joined, Encode;
    match RuneLength(s)
    case 1 => OneByte(s);
    case 2 => TwoBytes(s);
    case 3 => ThreeBytes(s);
    case _ => FourBytes(s);
  }

  lemma OneByte(s: bytes)
    requires RuneLength(s) == 1
    ensures Scalar(CodePoint(s)) && s[..1] == Encode(CodePoint(s))
  {
    assert s[1..1] == [];
  }
}
