/** String and counter commands of redis_commands.go. */
module StringCommands {
  import opened Bytes
  import opened Keys
  import opened Envelope
  import opened Layout
  import opened Keyspace
  import opened Resp
  import opened LogicalKeys
  import opened RedisStorage
  import opened Effects
  import opened S = CommandSpec
  import Decimal
  import Deadline
  import P = Probe
  import M = Meaning

  method Get(db: Database, args: seq<Arg>) returns (r: Resp)
    requires Inv(db.engine.data) && db.now >= 0
    modifies db.engine
    ensures Performed(old(db.engine.data), db.engine.data, args, db.now,
                      S.Get(Before(old(db.engine.data), args, db.now), args), r)
  {
    hide At, WellFormed, Inv, P.Ok, P.Look, P.String;
    Untouched(db.engine.data, args, db.now, SyntaxError());
    if |args| != 2 { return SyntaxError(); }
    InvAt(db.engine.data, args[1]);
    M.StringMeans(At(db.engine.data, args[1]), db.now);
    var value := db.String(args[1]);
    match value
    case WrongType => return WrongTypeError();
    case Missing => return NullBulk;
    case Found(e) => return Bulk(e.payload);
  }

  method StrLen(db: Database, args: seq<Arg>) returns (r: Resp)
    requires Inv(db.engine.data) && db.now >= 0
    modifies db.engine
    ensures Performed(old(db.engine.data), db.engine.data, args, db.now,
                      S.StrLen(Before(old(db.engine.data), args, db.now), args), r)
  {
    hide At, WellFormed, Inv, P.Ok, P.Look, P.String;
    Untouched(db.engine.data, args, db.now, SyntaxError());
    if |args| != 2 { return SyntaxError(); }
    InvAt(db.engine.data, args[1]);
    M.StringMeans(At(db.engine.data, args[1]), db.now);
    var value := db.String(args[1]);
    match value
    case WrongType => return WrongTypeError();
    case Missing => return Integer(0);
    case Found(e) => return Integer(|e.payload|);
  }

  /** The overflow guards of redisSetOptions and redisSetEX admit exactly the deadlines that
      fit 64 bits. */
  method CheckedDeadline(name: bytes, amount: int64, now: int64) returns (r: Option<int64>)
    ensures r == PositiveDeadline(name, amount, now)
  {
    if amount <= 0 { return None; }
    var unit, absolute := UnitOf(name), IsAbsolute(name);
    Deadline.FromCommandIsExact(now, unit, absolute, amount);
    Deadline.ProductFits(amount, unit);
    if amount > MAX_INT64 / unit { return None; }
    var nanos := amount * unit;
    if absolute { return Some(nanos); }
    if now > MAX_INT64 - nanos { return None; }
    return Some(now + nanos);
  }

  method SetOptionsOf(args: seq<Arg>, now: int64) returns (r: Parsed<SetOptions>)
    ensures r == ParseSet(args, 3, NO_OPTIONS, now)
  {
    var options, index := NO_OPTIONS, 3;
    while index < |args|
      invariant index >= 3
      invariant ParseSet(args, index, options, now) == ParseSet(args, 3, NO_OPTIONS, now)
    {
      var name := Upper(args[index]);
      if IsUnitName(name) {
        if options.hasExpiry || index + 1 >= |args| { return Bad(SyntaxError()); }
        var amount := Decimal.ParseInt64(args[index + 1]);
        if amount.None? { return Bad(NotAnInteger()); }
        var deadline := CheckedDeadline(name, amount.value, now);
        if deadline.None? { return Bad(BadSetExpiry()); }
        options, index := options.(expiresAt := deadline.value, hasExpiry := true), index + 2;
      } else {
        var flagged := AddFlag(options, name);
        if flagged.Bad? { return flagged; }
        options, index := flagged.value, index + 1;
      }
    }
    return Good(options);
  }

  /** Write a string over records that are a string or nothing. */
  method PutString(db: Database, k: key, payload: bytes, expiresAt: int64)
    requires WellFormed(db.engine.data) && db.now >= 0 && M.StringOnly(At(db.engine.data, k))
    modifies db.engine
    ensures Effect(old(db.engine.data), db.engine.data, k, db.now,
        StringUntil(payload, P.DeadlineOf(expiresAt), db.now))
  {
    hide At, WellFormed, P.Ok, P.Look, P.WriteString, M.StringOnly;
    M.WriteStringMeans(At(db.engine.data, k), P.BYTES_CODEC, payload, expiresAt, db.now);
    db.WriteString(k, P.BYTES_CODEC, payload, expiresAt);
  }

  /** redisDeleteAndWriteString: whatever the key held is replaced. */
  method ReplaceString(db: Database, k: key, payload: bytes, expiresAt: int64)
    requires WellFormed(db.engine.data) && db.now >= 0
    modifies db.engine
    ensures Effect(old(db.engine.data), db.engine.data, k, db.now,
        StringUntil(payload, P.DeadlineOf(expiresAt), db.now))
  {
    hide At, WellFormed, P.Ok, P.Look;
    var _ := db.DeleteRaw(k);
    PutString(db, k, payload, expiresAt);
  }

  lemma ExpiryIsPositive(o: SetOptions, name: bytes, amount: Arg, now: int64)
    requires now >= 0 && AddExpiry(o, name, amount, now).Good?
    ensures AddExpiry(o, name, amount, now).value.hasExpiry && AddExpiry(o, name, amount, now).value.expiresAt > 0
  {
    var n := Decimal.ParseInt64(amount).value;
    Deadline.FromCommandIsExact(now, UnitOf(name), IsAbsolute(name), n);
  }

  lemma {:induction false} OptionsAreConsistent(args: seq<Arg>, index: nat, o: SetOptions, now: int64)
    requires now >= 0 && (if o.hasExpiry then o.expiresAt > 0 else o.expiresAt == 0)
    ensures var r := ParseSet(args, index, o, now);
            r.Good? ==> if r.value.hasExpiry then r.value.expiresAt > 0 else r.value.expiresAt == 0
    decreases |args| - index
  {
    hide AddExpiry, IsUnitName;
    if index < |args| {
      var name := Upper(args[index]);
      if IsUnitName(name) {
        if !o.hasExpiry && index + 1 < |args| && AddExpiry(o, name, args[index + 1], now).Good? {
          ExpiryIsPositive(o, name, args[index + 1], now);
          OptionsAreConsistent(args, index + 2, AddExpiry(o, name, args[index + 1], now).value, now);
        }
      } else if AddFlag(o, name).Good? {
        OptionsAreConsistent(args, index + 1, AddFlag(o, name).value, now);
      }
    }
  }

  method OldString(db: Database, k: key) returns (r: Lookup<bytes>)
    requires WellFormed(db.engine.data) && P.Ok(At(db.engine.data, k))
    modifies db.engine
    ensures WellFormed(db.engine.data) && Frame(old(db.engine.data), db.engine.data, k)
    ensures M.Kept(At(old(db.engine.data), k), At(db.engine.data, k), db.now)
    ensures r == StringOf(P.Look(At(old(db.engine.data), k), db.now))
    ensures !r.WrongType? ==> M.StringOnly(At(db.engine.data, k))
  {
    hide At, WellFormed, P.Ok, P.Look, P.String;
    M.StringMeans(At(db.engine.data, k), db.now);
    var value := db.String(k);
    r := M.PayloadOf(value);
  }

  method OldExpiry(db: Database, k: key) returns (r: int64)
    requires WellFormed(db.engine.data) && P.Ok(At(db.engine.data, k)) && db.now >= 0
    modifies db.engine
    ensures WellFormed(db.engine.data) && Frame(old(db.engine.data), db.engine.data, k)
    ensures M.Kept(At(old(db.engine.data), k), At(db.engine.data, k), db.now)
    ensures P.DeadlineOf(r) == DeadlineIn(P.Look(At(old(db.engine.data), k), db.now))
    ensures M.StringOnly(At(old(db.engine.data), k)) ==> M.StringOnly(At(db.engine.data, k))
  {
    hide At, WellFormed, P.Ok, P.Look, P.Expiry;
    M.ExpiryMeans(At(db.engine.data, k), db.now);
    M.LiveDeadline(At(db.engine.data, k), db.now);
    PrunedStringOnly(At(db.engine.data, k), db.now);
    var deadline := db.Expiry(k);
    r := if deadline.Some? then deadline.value else 0;
  }

  lemma PrunedStringOnly(b: Bundle, now: int)
    ensures M.StringOnly(b) ==> M.StringOnly(M.Pruned(b, now))
  {
  }

  /** redisSet once its options are read. */
  method SetWith(db: Database, k: key, payload: bytes, o: SetOptions) returns (r: Resp)
    requires Inv(db.engine.data) && db.now >= 0
    requires if o.hasExpiry then o.expiresAt > 0 else o.expiresAt == 0
    modifies db.engine
    ensures var oe := P.Look(At(old(db.engine.data), k), db.now);
            && Effect(old(db.engine.data), db.engine.data, k, db.now, SetEntry(oe, payload, o, db.now))
            && r == SetReply(oe, o)
  {
    hide At, WellFormed, Inv, P.Ok, P.Look, P.Type, M.StringOnly;
    InvAt(db.engine.data, k);
    M.PrunedIsKept(At(db.engine.data, k), db.now);
    var kind := db.Type(k);
    if (o.nx && kind != NoKind) || (o.xx && kind == NoKind) { return NullBulk; }
    var previous := NullBulk;
    if o.get && kind != NoKind {
      var value := OldString(db, k);
      if value.WrongType? { return WrongTypeError(); }
      if value.Found? { previous := Bulk(value.value); }
    }
    var expiresAt := o.expiresAt;
    if o.keepTTL && kind != NoKind && !o.hasExpiry {
      expiresAt := OldExpiry(db, k);
    }
    ReplaceString(db, k, payload, expiresAt);
    return if o.get then previous else OkReply();
  }

  method Set(db: Database, args: seq<Arg>) returns (r: Resp)
    requires Inv(db.engine.data) && db.now >= 0
    modifies db.engine
    ensures Performed(old(db.engine.data), db.engine.data, args, db.now,
                      S.Set(Before(old(db.engine.data), args, db.now), args, db.now), r)
  {
    hide At, WellFormed, Inv, P.Ok, P.Look, ParseSet, SetEntry, SetReply;
    Untouched(db.engine.data, args, db.now, SyntaxError());
    if |args| < 3 { return SyntaxError(); }
    var options := SetOptionsOf(args, db.now);
    if options.Bad? { return options.reply; }
    OptionsAreConsistent(args, 3, NO_OPTIONS, db.now);
    r := SetWith(db, args[1], args[2], options.value);
  }

  method SetNX(db: Database, args: seq<Arg>) returns (r: Resp)
    requires Inv(db.engine.data) && db.now >= 0
    modifies db.engine
    ensures Performed(old(db.engine.data), db.engine.data, args, db.now,
                      S.SetNX(Before(old(db.engine.data), args, db.now), args, db.now), r)
  {
    hide At, WellFormed, Inv, P.Ok, P.Look, P.Type;
    Untouched(db.engine.data, args, db.now, SyntaxError());
    if |args| != 3 { return SyntaxError(); }
    InvAt(db.engine.data, args[1]);
    M.PrunedIsKept(At(db.engine.data, args[1]), db.now);
    var kind := db.Type(args[1]);
    if kind != NoKind { return Integer(0); }
    PutString(db, args[1], args[2], 0);
    return Integer(1);
  }

  method SetEX(db: Database, args: seq<Arg>, milliseconds: bool) returns (r: Resp)
    requires Inv(db.engine.data) && db.now >= 0
    modifies db.engine
    ensures Performed(old(db.engine.data), db.engine.data, args, db.now,
                      S.SetEX(Before(old(db.engine.data), args, db.now), args, milliseconds, db.now), r)
  {
    hide At, WellFormed, Inv, P.Ok, P.Look, PositiveDeadline;
    Untouched(db.engine.data, args, db.now, SyntaxError());
    if |args| != 4 { return SyntaxError(); }
    InvAt(db.engine.data, args[1]);
    var amount := Decimal.ParseInt64(args[2]);
    if amount.None? { return BadSetExpiry(); }
    var name := Ascii(if milliseconds then "PX" else "EX");
    DeadlineIsPositive(name, amount.value, db.now);
    var deadline := CheckedDeadline(name, amount.value, db.now);
    if deadline.None? { return BadSetExpiry(); }
    ReplaceString(db, args[1], args[3], deadline.value);
    return OkReply();
  }

  lemma DeadlineIsPositive(name: bytes, amount: int64, now: int64)
    requires now >= 0
    ensures var r := PositiveDeadline(name, amount, now); r.Some? ==> r.value > 0
  {
    Deadline.FromCommandIsExact(now, UnitOf(name), IsAbsolute(name), amount);
  }

  method GetSet(db: Database, args: seq<Arg>) returns (r: Resp)
    requires Inv(db.engine.data) && db.now >= 0
    modifies db.engine
    ensures Performed(old(db.engine.data), db.engine.data, args, db.now,
                      S.GetSet(Before(old(db.engine.data), args, db.now), args, db.now), r)
  {
    hide At, WellFormed, Inv, P.Ok, P.Look, M.StringOnly;
    Untouched(db.engine.data, args, db.now, SyntaxError());
    if |args| != 3 { return SyntaxError(); }
    InvAt(db.engine.data, args[1]);
    var value := OldString(db, args[1]);
    if value.WrongType? { return WrongTypeError(); }
    ReplaceString(db, args[1], args[2], 0);
    return if value.Found? then Bulk(value.value) else NullBulk;
  }

  method GetDel(db: Database, args: seq<Arg>) returns (r: Resp)
    requires Inv(db.engine.data) && db.now >= 0
    modifies db.engine
    ensures Performed(old(db.engine.data), db.engine.data, args, db.now,
                      S.GetDel(Before(old(db.engine.data), args, db.now), args), r)
  {
    hide At, WellFormed, Inv, P.Ok, P.Look, M.StringOnly;
    Untouched(db.engine.data, args, db.now, SyntaxError());
    if |args| != 2 { return SyntaxError(); }
    InvAt(db.engine.data, args[1]);
    var value := OldString(db, args[1]);
    if value.WrongType? { return WrongTypeError(); }
    if value.Missing? { return NullBulk; }
    NothingLeft(db.now);
    var _ := db.DeleteRaw(args[1]);
    return Bulk(value.value);
  }

  /** GETEX with an expiry, once the value is known to be a string. */
  method GetExUntil(db: Database, k: key, option: Arg, amount: Arg, value: bytes, ghost oe: Option<Entry>)
      returns (r: Resp)
    requires WellFormed(db.engine.data) && P.Ok(At(db.engine.data, k)) && db.now >= 0
    requires oe == P.Look(At(db.engine.data, k), db.now) && StringOf(oe) == Found(value)
    modifies db.engine
    ensures Effect(old(db.engine.data), db.engine.data, k, db.now, GetExpiring(oe, option, amount, value, db.now).entry)
    ensures r == GetExpiring(oe, option, amount, value, db.now).reply
  {
    hide At, WellFormed, P.Ok, P.Look, P.SetExpiry, ExpireIn, Deadline.FromCommand;
    hide Upper, Ascii, UnitOf, IsAbsolute, IsUnitName, Decimal.ParseInt64, Plain;
    var n := Decimal.ParseInt64(amount);
    if n.None? { return BadGetExExpiry(); }
    var name := Upper(option);
    if (name == Ascii("EX") || name == Ascii("PX")) && n.value <= 0 { return BadGetExExpiry(); }
    if !IsUnitName(name) { return SyntaxError(); }
    var deadline := Deadline.FromCommand(db.now, UnitOf(name), IsAbsolute(name), n.value);
    if deadline.None? { return BadGetExExpiry(); }
    M.SetExpiryMeans(At(db.engine.data, k), deadline.value, db.now);
    var _ := db.SetExpiry(k, deadline.value);
    return Bulk(value);
  }

  method GetEx(db: Database, args: seq<Arg>) returns (r: Resp)
    requires Inv(db.engine.data) && db.now >= 0
    modifies db.engine
    ensures Performed(old(db.engine.data), db.engine.data, args, db.now,
                      S.GetEx(Before(old(db.engine.data), args, db.now), args, db.now), r)
  {
    hide At, WellFormed, Inv, P.Ok, P.Look, P.Persist, M.StringOnly, GetExpiring, PersistIn;
    Untouched(db.engine.data, args, db.now, SyntaxError());
    if |args| < 2 { return SyntaxError(); }
    InvAt(db.engine.data, args[1]);
    var value := OldString(db, args[1]);
    if value.WrongType? { return WrongTypeError(); }
    if value.Missing? { return NullBulk; }
    if |args| == 2 { return Bulk(value.value); }
    if |args| == 3 && Upper(args[2]) == Ascii("PERSIST") {
      M.PersistMeans(At(db.engine.data, args[1]), db.now);
      var _ := db.Persist(args[1]);
      return Bulk(value.value);
    }
    if |args| != 4 { return SyntaxError(); }
    r := GetExUntil(db, args[1], args[2], args[3], value.value, P.Look(At(db.engine.data, args[1]), db.now));
  }

  method Append(db: Database, args: seq<Arg>) returns (r: Resp)
    requires Inv(db.engine.data) && db.now >= 0
    modifies db.engine
    ensures Performed(old(db.engine.data), db.engine.data, args, db.now,
                      S.Append(Before(old(db.engine.data), args, db.now), args, db.now), r)
  {
    hide At, WellFormed, Inv, P.Ok, P.Look, M.StringOnly;
    Untouched(db.engine.data, args, db.now, SyntaxError());
    if |args| != 3 { return SyntaxError(); }
    InvAt(db.engine.data, args[1]);
    var value := OldString(db, args[1]);
    if value.WrongType? { return WrongTypeError(); }
    var expiresAt := OldExpiry(db, args[1]);
    var appended := (if value.Found? then value.value else []) + args[2];
    PutString(db, args[1], appended, expiresAt);
    assert [] + args[2] == args[2];
    return Integer(|appended|);
  }

  /** redisIncrementBig. */
  method IncrementKey(db: Database, k: key, delta: int) returns (r: Resp)
    requires Inv(db.engine.data) && db.now >= 0
    modifies db.engine
    ensures var oe := P.Look(At(old(db.engine.data), k), db.now);
            && Effect(old(db.engine.data), db.engine.data, k, db.now, IncrementBy(oe, delta, db.now).entry)
            && r == IncrementBy(oe, delta, db.now).reply
  {
    hide At, WellFormed, Inv, P.Ok, P.Look, M.StringOnly, Plain, Decimal.Parse, Decimal.Format, Ascii;
    InvAt(db.engine.data, k);
    var value := OldString(db, k);
    if value.WrongType? { return WrongTypeError(); }
    var current := 0;
    if value.Found? {
      var parsed := Decimal.Parse(value.value);
      if parsed.None? { return NotAnInteger(); }
      current := parsed.value;
    }
    current := current + delta;
    if !Deadline.Fits(current) { return Overflow(); }
    var expiresAt := OldExpiry(db, k);
    PutString(db, k, Decimal.Format(current), expiresAt);
    return Integer(current);
  }

  method Increment(db: Database, args: seq<Arg>, delta: int) returns (r: Resp)
    requires Inv(db.engine.data) && db.now >= 0
    modifies db.engine
    ensures Performed(old(db.engine.data), db.engine.data, args, db.now,
                      S.Increment(Before(old(db.engine.data), args, db.now), args, delta, db.now), r)
  {
    hide At, WellFormed, Inv, P.Ok, P.Look, IncrementBy;
    Untouched(db.engine.data, args, db.now, SyntaxError());
    if |args| != 2 { return SyntaxError(); }
    r := IncrementKey(db, args[1], delta);
  }

  method IncrementArg(db: Database, args: seq<Arg>, decrement: bool) returns (r: Resp)
    requires Inv(db.engine.data) && db.now >= 0
    modifies db.engine
    ensures Performed(old(db.engine.data), db.engine.data, args, db.now,
                      S.IncrementArg(Before(old(db.engine.data), args, db.now), args, decrement, db.now), r)
  {
    hide At, WellFormed, Inv, P.Ok, P.Look, IncrementBy;
    Untouched(db.engine.data, args, db.now, SyntaxError());
    if |args| != 3 { return SyntaxError(); }
    var n := Decimal.ParseInt64(args[2]);
    if n.None? {
      Untouched(db.engine.data, args, db.now, NotAnInteger());
      return NotAnInteger();
    }
    var delta: int := n.value;
    r := IncrementKey(db, args[1], if decrement then -delta else delta);
  }
}
