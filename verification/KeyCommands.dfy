/** Deadline and type commands of redis_commands.go. */
module KeyCommands {
  import opened Bytes
  import opened Layout
  import opened Keyspace
  import opened Resp
  import opened RedisStorage
  import opened Effects
  import opened S = CommandSpec
  import Decimal
  import Deadline
  import P = Probe
  import M = Meaning

  method Expire(db: Database, args: seq<Arg>, name: bytes) returns (r: Resp)
    requires Inv(db.engine.data) && db.now >= 0
    modifies db.engine
    ensures Performed(old(db.engine.data), db.engine.data, args, db.now,
                      S.Expire(Before(old(db.engine.data), args, db.now), args, name, db.now), r)
  {
    hide At, WellFormed, Inv, P.Ok, P.Look, P.SetExpiry, ExpireIn, Deadline.FromCommand;
    Untouched(db.engine.data, args, db.now, SyntaxError());
    if |args| != 3 { return SyntaxError(); }
    InvAt(db.engine.data, args[1]);
    var amount := Decimal.ParseInt64(args[2]);
    if amount.None? { return NotAnInteger(); }
    var deadline := Deadline.FromCommand(db.now, UnitOf(name), IsAbsolute(name), amount.value);
    if deadline.None? { return BadExpiry(); }
    M.SetExpiryMeans(At(db.engine.data, args[1]), deadline.value, db.now);
    var ok := db.SetExpiry(args[1], deadline.value);
    return Flag(ok);
  }

  method Ttl(db: Database, args: seq<Arg>, milliseconds: bool) returns (r: Resp)
    requires Inv(db.engine.data) && db.now >= 0
    modifies db.engine
    ensures Performed(old(db.engine.data), db.engine.data, args, db.now,
                      S.Ttl(Before(old(db.engine.data), args, db.now), args, milliseconds, db.now), r)
  {
    hide At, WellFormed, Inv, P.Ok, P.Look, P.Expiry, P.Type;
    Untouched(db.engine.data, args, db.now, SyntaxError());
    if |args| != 2 { return SyntaxError(); }
    InvAt(db.engine.data, args[1]);
    ghost var b := At(db.engine.data, args[1]);
    M.ExpiryMeans(b, db.now);
    M.LiveDeadline(b, db.now);
    var expiresAt := db.Expiry(args[1]);
    if expiresAt.None? {
      M.PrunedIsKept(At(db.engine.data, args[1]), db.now);
      var kind := db.Type(args[1]);
      return Integer(if kind == NoKind then -2 else -1);
    }
    var remaining := expiresAt.value - db.now;
    var divisor := if milliseconds then Deadline.MILLISECOND else Deadline.SECOND;
    var value := if remaining / divisor < 1 then 1 else remaining / divisor;
    return Integer(if remaining <= 0 then -2 else value);
  }

  method Persist(db: Database, args: seq<Arg>) returns (r: Resp)
    requires Inv(db.engine.data) && db.now >= 0
    modifies db.engine
    ensures Performed(old(db.engine.data), db.engine.data, args, db.now,
                      S.Persist(Before(old(db.engine.data), args, db.now), args), r)
  {
    hide At, WellFormed, Inv, P.Ok, P.Look, P.Persist, PersistIn;
    Untouched(db.engine.data, args, db.now, SyntaxError());
    if |args| != 2 { return SyntaxError(); }
    InvAt(db.engine.data, args[1]);
    M.PersistMeans(At(db.engine.data, args[1]), db.now);
    var ok := db.Persist(args[1]);
    return Flag(ok);
  }

  method TypeName(db: Database, args: seq<Arg>) returns (r: Resp)
    requires Inv(db.engine.data) && db.now >= 0
    modifies db.engine
    ensures Performed(old(db.engine.data), db.engine.data, args, db.now,
                      S.TypeName(Before(old(db.engine.data), args, db.now), args), r)
  {
    hide At, WellFormed, Inv, P.Ok, P.Look, P.Type, KindName;
    Untouched(db.engine.data, args, db.now, SyntaxError());
    if |args| != 2 { return SyntaxError(); }
    InvAt(db.engine.data, args[1]);
    M.PrunedIsKept(At(db.engine.data, args[1]), db.now);
    var kind := db.Type(args[1]);
    return Simple(KindName(kind));
  }

  /** EXPIRE k s and then TTL k at the same instant, or their millisecond forms: the replies are
      1 and s exactly when the deadline fits 64 bits, and otherwise EXPIRE refuses and changes
      nothing. */
  lemma ExpireThenTtl(e: Entry, expire: seq<Arg>, ttl: seq<Arg>, name: bytes, amount: int64, milliseconds: bool,
      now: int64)
    requires |expire| == 3 && |ttl| == 2 && Decimal.ParseInt64(expire[2]) == Some(amount) && amount > 0
    requires !IsAbsolute(name) && UnitOf(name) == if milliseconds then Deadline.MILLISECOND else Deadline.SECOND
    ensures var out, sum := S.Expire(Some(e), expire, name, now), now + amount * UnitOf(name);
            if Deadline.Fits(amount * UnitOf(name)) && Deadline.Fits(sum) then
              && out == Out(Some(e.(deadline := Some(sum))), Integer(1))
              && S.Ttl(out.entry, ttl, milliseconds, now) == Out(out.entry, Integer(amount))
            else out == Out(Some(e), BadExpiry())
  {
    hide Decimal.ParseInt64, IsAbsolute;
    var unit := UnitOf(name);
    Deadline.FromCommandIsExact(now, unit, false, amount);
    hide Deadline.FromCommand, UnitOf;
    assert amount * unit > 0 && (amount * unit) / unit == amount;
  }
}
