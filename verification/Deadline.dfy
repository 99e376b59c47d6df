/** Deadline arithmetic on 64-bit nanoseconds (redis_commands.go, redis_storage.go). */
module Deadline {
  import opened Bytes

  const SECOND: int := 1_000_000_000
  const MILLISECOND: int := 1_000_000

  predicate Fits(n: int) { MIN_INT64 <= n <= MAX_INT64 }

  /** Two's-complement wrap-around of a 64-bit sum. */
  function Wrap(n: int): (r: int64)
    ensures Fits(n) ==> r == n
  {
    var u := (n + TWO63) % TWO64;
    u - TWO63
  }

  /** time.Time.Sub saturates at the ends of the duration range. */
  function Sub(a: int64, b: int64): (d: int64)
    ensures Fits(a - b) ==> d == a - b
  {
    if a - b > MAX_INT64 then MAX_INT64 else if a - b < MIN_INT64 then MIN_INT64 else a - b
  }

  /** redisWriteString turns a deadline into a duration, putPayload turns it back, each
      with a clock reading of its own. */
  function Stored(deadline: int64, read1: int64, read2: int64): int64 {
    Wrap(read2 + Sub(deadline, read1))
  }

  /** Go's integer quotient, which truncates toward zero. */
  function Quotient(a: int, b: int): int
    requires b > 0
  {
    if a >= 0 then a / b else -((-a) / b)
  }

  /** redisExpiryFromCommand, with the command already split into its unit and whether it
      is absolute. */
  function FromCommand(now: int64, unit: int, absolute: bool, amount: int64): Option<int64>
    requires unit == SECOND || unit == MILLISECOND
  {
    if amount > Quotient(MAX_INT64, unit) || amount < Quotient(MIN_INT64, unit) then None
    else
      ProductFits(amount, unit);
      var delta: int64 := amount * unit;
      if absolute then Some(delta)
      else if delta > 0 && now > MAX_INT64 - delta then None
      else if delta < 0 && now < MIN_INT64 - delta then None
      else Some(now + delta)
  }

  /** The guard before the multiplication admits exactly the products that fit. */
  lemma ProductFits(amount: int, unit: int)
    requires unit == SECOND || unit == MILLISECOND
    ensures Fits(amount * unit) <==> Quotient(MIN_INT64, unit) <= amount <= Quotient(MAX_INT64, unit)
  {
    if unit == SECOND {
      assert Quotient(MAX_INT64, unit) == 9_223_372_036 && Quotient(MIN_INT64, unit) == -9_223_372_036;
    } else {
      assert Quotient(MAX_INT64, unit) == 9_223_372_036_854 && Quotient(MIN_INT64, unit) == -9_223_372_036_854;
    }
  }

  /** The exact mathematical deadline, or an error exactly when a product or sum does not fit. */
  lemma FromCommandIsExact(now: int64, unit: int, absolute: bool, amount: int64)
    requires unit == SECOND || unit == MILLISECOND
    ensures var deadline := if absolute then amount * unit else now + amount * unit;
            FromCommand(now, unit, absolute, amount) ==
            if Fits(amount * unit) && Fits(deadline) then Some(deadline) else None
  {
    ProductFits(amount, unit);
  }

  /** A stored string deadline is never earlier than the one asked for exactly while the sum
      of the two readings' drift and the deadline fits, and is that one exactly when the two
      clock readings agree. */
  lemma StoredIsNeverEarlier(deadline: int64, read1: int64, read2: int64)
    requires 0 <= read1 < deadline && read1 <= read2
    ensures Stored(deadline, read1, read2) >= deadline <==> Fits(deadline + (read2 - read1))
    ensures Stored(deadline, read1, read2) == deadline <==> read1 == read2
  {
    var sum := read2 + (deadline - read1);
    if !Fits(sum) {
      assert (sum + TWO63) % TWO64 == sum + TWO63 - TWO64;
    }
  }

  /** One nanosecond between the readings is enough to turn the last deadline into a past one. */
  lemma StoredCanWrap()
    ensures Stored(MAX_INT64, 0, 1) == MIN_INT64
  {
  }
}
