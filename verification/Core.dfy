/** The scalar operations of db.go on the same store: PutStoredValue, GetStoredValue, Has and
    Delete, each the body its callers run under protocolMu. */
module Core {
  import opened Bytes
  import opened Keys
  import opened Envelope
  import opened Layout
  import opened Keyspace
  import opened LogicalKeys
  import opened RedisStorage
  import opened Effects
  import Deadline
  import P = Probe

  datatype Operation =
    | PutStoredValue(codec: bytes, payload: bytes, ttl: Option<int64>)
    | GetStoredValue
    | Has
    | Delete

  datatype Outcome =
    | Done
    | InvalidArgument
    | NotFound
    | Stored(codec: bytes, payload: bytes, expiresAt: int)
    | Truth(value: bool)

  /** The same outcome to a caller: an expiry that is not positive means none, whatever it is. */
  predicate SameOutcome(a: Outcome, b: Outcome) {
    if a.Stored? && b.Stored? then
      a.codec == b.codec && a.payload == b.payload && P.DeadlineOf(a.expiresAt) == P.DeadlineOf(b.expiresAt)
    else a == b
  }

  /** ErrInvalidArgument: an empty key, an empty or overlong codec name, a TTL that is not positive. */
  predicate Refused(k: bytes, op: Operation) {
    || k == []
    || (op.PutStoredValue? && (op.codec == [] || |op.codec| > 65535 || (op.ttl.Some? && op.ttl.value <= 0)))
  }

  /** The deadline a TTL gives a new value; none without one. */
  function NewDeadline(ttl: Option<int64>, now: int64): int64 {
    match ttl case None => 0 case Some(t) => Deadline.Wrap(now + t)
  }

  /** The deadline is the sum of clock and TTL if and only if that sum fits 64 bits. Past that it
      wraps to a negative number, which every reader takes for no deadline at all. */
  lemma NewDeadlineIsExact(ttl: int64, now: int64)
    requires ttl > 0 && now >= 0
    ensures NewDeadline(Some(ttl), now) == now + ttl <==> Deadline.Fits(now + ttl)
    ensures P.DeadlineOf(NewDeadline(Some(ttl), now)) == if Deadline.Fits(now + ttl) then Some(now + ttl) else None
  {
    if !Deadline.Fits(now + ttl) {
      assert (now + ttl + TWO63) % TWO64 == now + ttl + TWO63 - TWO64;
    }
  }

  /** So a value stored with the longest TTL never expires, however late it is looked at. */
  lemma LongestTtlNeverExpires(k: bytes, codec: bytes, payload: bytes, now: int64, later: int)
    requires k != [] && codec != [] && |codec| <= 65535 && now > 0
    ensures var oe := Meaning(k, PutStoredValue(codec, payload, Some(MAX_INT64)), None, now).0;
            oe == Some(Entry(Str(codec, payload), None)) && Later(oe, later) == oe
  {
    NewDeadlineIsExact(MAX_INT64, now);
  }

  /** What each operation means on the entry of its key. Only strings are visible to reads. */
  function Meaning(k: bytes, op: Operation, oe: Option<Entry>, now: int64): (Option<Entry>, Outcome) {
    if Refused(k, op) then (oe, InvalidArgument)
    else match op
      case PutStoredValue(codec, payload, ttl) =>
        (Some(Entry(Str(codec, payload), P.DeadlineOf(NewDeadline(ttl, now)))), Done)
      case GetStoredValue => (oe, match oe
        case Some(Entry(Str(codec, payload), deadline)) =>
          Stored(codec, payload, if deadline.Some? then deadline.value else 0)
        case _ => NotFound)
      case Has => (oe, Truth(oe.Some? && oe.value.value.Str?))
      case Delete => (None, Done)
  }

  /** A put with a TTL, read back: there until that long after, gone from then on; a put without
      one stays, and each put replaces what was there, whatever its type. */
  lemma PutThenRead(k: bytes, put: Operation, oe: Option<Entry>, now: int64, later: int64)
    requires put.PutStoredValue? && !Refused(k, put) && now >= 0
    requires put.ttl.Some? ==> now + put.ttl.value <= 0x7FFF_FFFF_FFFF_FFFF
    ensures Meaning(k, put, oe, now).1 == Done
    ensures var after := Later(Meaning(k, put, oe, now).0, later);
            var expires := if put.ttl.Some? then now + put.ttl.value else 0;
            if put.ttl.Some? && later >= expires then
              && Meaning(k, GetStoredValue, after, later) == (None, NotFound)
              && Meaning(k, Has, after, later) == (None, Truth(false))
            else
              && Meaning(k, GetStoredValue, after, later) == (after, Stored(put.codec, put.payload, expires))
              && Meaning(k, Has, after, later) == (after, Truth(true))
  {
    if put.ttl.Some? { NewDeadlineIsExact(put.ttl.value, now); }
  }

  /** Delete leaves nothing of any type; reads change nothing and see nothing but strings. */
  lemma DeleteAndRead(k: bytes, oe: Option<Entry>, now: int64)
    requires k != []
    ensures Meaning(k, Delete, oe, now) == (None, Done)
    ensures oe.None? || !oe.value.value.Str? ==>
              Meaning(k, GetStoredValue, oe, now) == (oe, NotFound) && Meaning(k, Has, oe, now) == (oe, Truth(false))
  {
  }

  /** What is refused, changing nothing. */
  lemma RefusedArguments(k: bytes, op: Operation, oe: Option<Entry>, now: int64)
    requires k == [] || (op.PutStoredValue? && (op.codec == [] || |op.codec| > 65535))
             || (op.PutStoredValue? && op.ttl.Some? && op.ttl.value <= 0)
    ensures Meaning(k, op, oe, now) == (oe, InvalidArgument)
  {
  }

  lemma NewValueMeans(codec: bytes, payload: bytes, ttl: Option<int64>, now: int64)
    requires now >= 0 && (ttl.Some? ==> ttl.value > 0)
    ensures var b := EMPTY.(value := Some(Env(NewDeadline(ttl, now), codec, payload)));
            && P.Ok(b)
            && P.Look(b, now) == Some(Entry(Str(codec, payload), P.DeadlineOf(NewDeadline(ttl, now))))
  {
    if ttl.Some? && !Deadline.Fits(now + ttl.value) {
      assert (now + ttl.value + TWO63) % TWO64 == now + ttl.value + TWO63 - TWO64;
    }
  }

  /** replaceLogicalValue: remove every record of the key, then store the scalar. */
  method Replace(db: Database, k: key, codec: bytes, payload: bytes, ttl: Option<int64>)
    requires WellFormed(db.engine.data) && db.now >= 0
    requires |codec| <= 65535 && (ttl.Some? ==> ttl.value > 0)
    modifies db.engine
    ensures Effect(old(db.engine.data), db.engine.data, k, db.now,
                   Some(Entry(Str(codec, payload), P.DeadlineOf(NewDeadline(ttl, db.now)))))
  {
    hide At, WellFormed, P.Ok, P.Look;
    NewValueMeans(codec, payload, ttl, db.now);
    var _ := db.DeleteRaw(k);
    db.PutValue(k, codec, payload, if ttl.Some? then ttl.value else 0);
  }

  /** GetStoredValue and Has read the value record and delete it once expired. */
  method ReadValue(db: Database, k: key) returns (r: Option<Env>)
    requires WellFormed(db.engine.data)
    modifies db.engine
    ensures var b := At(old(db.engine.data), k);
            var expired := b.value.Some? && Expired(b.value.value, db.now);
            && r == (if expired then None else b.value)
            && Stepped(old(db.engine.data), db.engine.data, k, if expired then b.(value := None) else b)
  {
    hide At, WellFormed;
    r := db.GetValue(k);
    if r.Some? && Expired(r.value, db.now) {
      db.DeleteValue(k);
      return None;
    }
  }

  lemma ReadMeans(b: Bundle, now: int)
    requires P.Ok(b)
    ensures var expired := b.value.Some? && Expired(b.value.value, now);
            var b' := if expired then b.(value := None) else b;
            var r := if expired then None else b.value;
            && P.Ok(b') && P.Look(b', now) == P.Look(b, now)
            && (r.Some? ==>
                  P.Look(b, now) == Some(Entry(Str(r.value.codec, r.value.payload), P.DeadlineOf(r.value.expiresAt))))
            && (r.None? ==> P.Look(b, now).None? || !P.Look(b, now).value.value.Str?)
  {
  }

  /** Each operation does to its key what it means on the entry. */
  method Perform(db: Database, k: key, op: Operation) returns (r: Outcome)
    requires Inv(db.engine.data) && db.now >= 0
    modifies db.engine
    ensures var (oe, outcome) := Meaning(k, op, P.Look(At(old(db.engine.data), k), db.now), db.now);
            Effect(old(db.engine.data), db.engine.data, k, db.now, oe) && SameOutcome(r, outcome)
  {
    hide At, WellFormed, Inv, P.Ok, P.Look;
    InvAt(db.engine.data, k);
    if Refused(k, op) { return InvalidArgument; }
    match op
    case PutStoredValue(codec, payload, ttl) =>
      Replace(db, k, codec, payload, ttl);
      return Done;
    case GetStoredValue =>
      ReadMeans(At(db.engine.data, k), db.now);
      var value := ReadValue(db, k);
      return if value.None? then NotFound
             else Stored(value.value.codec, value.value.payload, value.value.expiresAt);
    case Has =>
      ReadMeans(At(db.engine.data, k), db.now);
      var value := ReadValue(db, k);
      return Truth(value.Some?);
    case Delete =>
      NothingLeft(db.now);
      var _ := db.DeleteRaw(k);
      return Done;
  }
}
