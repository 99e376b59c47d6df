/** Decimal text as strconv and math/big read and print it in base ten. */
module Decimal {
  import opened Bytes

  const PLUS: byte := 43
  const MINUS: byte := 45
  const ZERO: byte := 48

  predicate IsDigit(c: byte) { ZERO <= c <= 57 }

  predicate AllDigits(b: bytes) {
    forall i :: 0 <= i < |b| ==> IsDigit(b[i])
  }

  function DigitsValue(b: bytes): (n: nat)
    requires AllDigits(b)
  {
    if b == [] then 0 else DigitsValue(b[..|b| - 1]) * 10 + (b[|b| - 1] - ZERO)
  }

  /** An optional sign and at least one digit; anything else is rejected. */
  function Parse(b: bytes): Option<int> {
    var signed := b != [] && (b[0] == PLUS || b[0] == MINUS);
    var digits := if signed then b[1..] else b;
    if digits == [] || !AllDigits(digits) then None
    else
      var n: int := DigitsValue(digits);
      Some(if b[0] == MINUS then -n else n)
  }

  /** strconv.ParseInt(text, 10, 64), the parser of every numeric argument. */
  function ParseInt64(b: bytes): (r: Option<int64>)
  {
    match Parse(b)
    case Some(n) => if MIN_INT64 <= n <= MAX_INT64 then Some(n) else None
    case None => None
  }

  function FormatNat(n: nat): (b: bytes)
    ensures b != [] && AllDigits(b)
  {
    if n < 10 then [ZERO + n] else FormatNat(n / 10) + [ZERO + n % 10]
  }

  function Format(n: int): (b: bytes)
    ensures b != []
  {
    if n < 0 then [MINUS] + FormatNat(-n) else FormatNat(n)
  }

  lemma {:induction false} DigitsOfFormat(n: nat)
    ensures DigitsValue(FormatNat(n)) == n
  {
    if n >= 10 {
      DigitsOfFormat(n / 10);
      var b := FormatNat(n);
      assert b[..|b| - 1] == FormatNat(n / 10);
    }
  }

  lemma ParseInvertsFormat(n: int)
    ensures Parse(Format(n)) == Some(n)
  {
    if n < 0 {
      DigitsOfFormat(-n);
      assert Format(n)[1..] == FormatNat(-n);
    } else {
      DigitsOfFormat(n);
      assert IsDigit(FormatNat(n)[0]);
    }
  }

  /** Numbers are digits, at least one, after at most one sign. */
  lemma ParseAccepts(b: bytes)
    ensures Parse(b).Some? <==>
            var digits := if b != [] && (b[0] == 43 || b[0] == 45) then b[1..] else b;
            digits != [] && forall i :: 0 <= i < |digits| ==> 48 <= digits[i] <= 57
  {
    assert AllDigits(b) ==> forall i :: 0 <= i < |b| ==> IsDigit(b[i]);
  }

  /** A plus and leading zeros change nothing. */
  lemma ParseIgnores(n: nat)
    ensures Parse([43] + FormatNat(n)) == Parse([48] + FormatNat(n)) == Some(n)
  {
    DigitsOfFormat(n);
    LeadingZero(FormatNat(n));
    assert ([43] + FormatNat(n))[1..] == FormatNat(n);
    assert ([48] + FormatNat(n))[0] == 48;
  }

  lemma {:induction false} LeadingZero(b: bytes)
    requires AllDigits(b)
    ensures AllDigits([48] + b) && DigitsValue([48] + b) == DigitsValue(b)
    decreases |b|
  {
    var zero: bytes := [48] + b;
    assert AllDigits(zero);
    if b == [] {
      assert zero[..0] == [];
    } else {
      var front := b[..|b| - 1];
      LeadingZero(front);
      assert zero[..|zero| - 1] == [48] + front;
    }
  }

  lemma FormatIsPrintable(n: int)
    ensures forall c <- Format(n) :: c == MINUS || IsDigit(c)
  {
  }

  lemma {:induction false} FormatNatLength(n: nat, w: nat)
    requires n < Pow10(w) && w >= 1
    ensures |FormatNat(n)| <= w
    decreases w
  {
    if n >= 10 {
      FormatNatLength(n / 10, w - 1);
    }
  }

  function Pow10(w: nat): nat { if w == 0 then 1 else 10 * Pow10(w - 1) }

  lemma Format64Length(n: int64)
    ensures |Format(n)| <= 20
  {
    assert Pow10(4) == 10000;
    assert Pow10(8) == 10000_0000;
    assert Pow10(12) == 10000_0000_0000;
    assert Pow10(16) == 10000_0000_0000_0000;
    assert Pow10(19) == 1000_0000_0000_0000_0000;
    var magnitude: int := n;
    FormatNatLength(if n < 0 then -magnitude else magnitude, 19);
  }
}
