/** Hash commands of redis_commands.go. */
module HashCommands {
  import opened Bytes
  import opened Keys
  import opened Envelope
  import opened Layout
  import opened Keyspace
  import opened Resp
  import opened LogicalKeys
  import opened RedisStorage
  import opened Effects
  import opened Sorting
  import opened S = CommandSpec
  import Decimal
  import Deadline
  import P = Probe
  import M = Meaning

  /** The records of a hash whose fields are all live, or of nothing at all. */
  function HashBundle(fields: map<bytes, Env>, ttl: Option<int64>): Bundle {
    EMPTY.(fields := fields, ttl := ttl)
  }

  lemma HashLooks(fields: map<bytes, Env>, ttl: Option<int64>, now: int)
    requires P.LiveEnvs(fields, now) == fields && !Passed(ttl, now) && (fields == map[] ==> ttl.None?)
    ensures var b := HashBundle(fields, ttl);
            P.Ok(b) && P.Look(b, now) == HashUntil(P.FieldsOf(fields), ttl)
  {
    P.FieldsOfEmpty(fields);
  }

  lemma StoreField(fields: map<bytes, Env>, f: bytes, payload: bytes, now: int)
    requires P.LiveEnvs(fields, now) == fields
    ensures var after := fields[f := Env(0, P.BYTES_CODEC, payload)];
            P.LiveEnvs(after, now) == after && P.FieldsOf(after) == P.FieldsOf(fields)[f := Field(payload, None)]
  {
    var after := fields[f := Env(0, P.BYTES_CODEC, payload)];
    forall g <- after ensures !Expired(after[g], now) {
      if g != f { assert g in P.LiveEnvs(fields, now); }
    }
  }

  ghost predicate Opened(b: Bundle, fields: map<bytes, Env>, ttl: Option<int64>, oe: Option<Entry>, now: int) {
    && b == HashBundle(fields, ttl)
    && P.FieldsOf(fields) == FieldsIn(oe) && P.LiveEnvs(fields, now) == fields
    && (fields == map[] <==> oe.None?)
    && ttl == DeadlineIn(oe) && !Passed(ttl, now) && (oe.None? ==> ttl.None?)
  }

  /** After its type is known to be hash or none, a key holds live fields under a live deadline. */
  method OpenHash(db: Database, k: key, ghost oe: Option<Entry>)
      returns (kind: Kind, ghost fields: map<bytes, Env>, ghost ttl: Option<int64>)
    requires Inv(db.engine.data) && oe == P.Look(At(db.engine.data, k), db.now)
    modifies db.engine
    ensures WellFormed(db.engine.data) && Frame(old(db.engine.data), db.engine.data, k)
    ensures kind == KindOf(oe)
    ensures Effect(old(db.engine.data), db.engine.data, k, db.now, oe)
    ensures !HashOf(oe).WrongType? ==> Opened(At(db.engine.data, k), fields, ttl, oe, db.now)
  {
    hide At, WellFormed, Inv, P.Ok, P.Look, P.Type;
    InvAt(db.engine.data, k);
    ghost var b := At(db.engine.data, k);
    M.PrunedIsKept(b, db.now);
    if KindOf(oe) == HashKind { M.LiveFieldsMean(b, db.now); FutureDeadline(b, db.now); }
    P.FieldsOfEmpty(map[]);
    kind := db.Type(k);
    ghost var b1 := At(db.engine.data, k);
    fields, ttl := b1.fields, b1.ttl;
  }

  lemma FutureDeadline(b: Bundle, now: int)
    requires P.Ok(b)
    ensures !Passed(DeadlineIn(P.Look(b, now)), now)
  {
  }

  /** One HSET pair at a time. */
  method StoreFields(db: Database, k: key, args: seq<Arg>, ghost fields: map<bytes, Env>, ghost ttl: Option<int64>)
    returns (added: nat, ghost after: map<bytes, Env>)
    requires WellFormed(db.engine.data) && At(db.engine.data, k) == HashBundle(fields, ttl)
    requires P.LiveEnvs(fields, db.now) == fields && |args| >= 2 && |args| % 2 == 0
    modifies db.engine
    ensures WellFormed(db.engine.data) && Frame(old(db.engine.data), db.engine.data, k)
    ensures At(db.engine.data, k) == HashBundle(after, ttl) && P.LiveEnvs(after, db.now) == after
    ensures StorePairs(P.FieldsOf(fields), args, 2) == (P.FieldsOf(after), added)
  {
    hide At, WellFormed, P.FieldsOf, P.LiveEnvs;
    added, after := 0, fields;
    var index := 2;
    while index < |args|
      invariant 2 <= index <= |args| && index % 2 == 0
      invariant WellFormed(db.engine.data) && Frame(old(db.engine.data), db.engine.data, k)
      invariant At(db.engine.data, k) == HashBundle(after, ttl) && P.LiveEnvs(after, db.now) == after
      invariant var rest := StorePairs(P.FieldsOf(after), args, index);
                StorePairs(P.FieldsOf(fields), args, 2) == (rest.0, added + rest.1)
    {
      FieldsOfKeys(after);
      StoreField(after, args[index], args[index + 1], db.now);
      var found := db.GetField(k, args[index]);
      if found.None? { added := added + 1; }
      db.PutField(k, args[index], args[index + 1]);
      after := after[args[index] := Env(0, P.BYTES_CODEC, args[index + 1])];
      index := index + 2;
    }
  }

  lemma FieldsOfKeys(fields: map<bytes, Env>)
    ensures P.FieldsOf(fields).Keys == fields.Keys
  {
  }

  method HSet(db: Database, args: seq<Arg>) returns (r: Resp)
    requires Inv(db.engine.data) && db.now >= 0
    modifies db.engine
    ensures Performed(old(db.engine.data), db.engine.data, args, db.now,
                      S.HSet(Before(old(db.engine.data), args, db.now), args), r)
  {
    hide At, WellFormed, Inv, P.Ok, P.Look, StorePairs, P.FieldsOf, P.LiveEnvs;
    Untouched(db.engine.data, args, db.now, SyntaxError());
    if |args| < 4 || |args| % 2 != 0 { return SyntaxError(); }
    ghost var oe := P.Look(At(db.engine.data, args[1]), db.now);
    var kind, fields, ttl := OpenHash(db, args[1], oe);
    if kind != NoKind && kind != HashKind { return WrongTypeError(); }
    if kind == NoKind { db.DeleteTtl(args[1]); }
    var added, after := StoreFields(db, args[1], args, fields, ttl);
    SomethingIsStored(P.FieldsOf(fields), args);
    P.FieldsOfEmpty(after);
    HashLooks(after, ttl, db.now);
    return Integer(added);
  }

  lemma {:induction false} StoringKeepsFields(fields: map<bytes, Field>, args: seq<Arg>, i: nat)
    ensures fields.Keys <= StorePairs(fields, args, i).0.Keys
    decreases |args| - i
  {
    if i + 1 < |args| {
      StoringKeepsFields(fields[args[i] := Field(args[i + 1], None)], args, i + 2);
    }
  }

  lemma SomethingIsStored(fields: map<bytes, Field>, args: seq<Arg>)
    requires |args| >= 4
    ensures args[2] in StorePairs(fields, args, 2).0
  {
    StoringKeepsFields(fields[args[2] := Field(args[3], None)], args, 4);
  }

  method OldField(db: Database, k: key, f: bytes) returns (r: Lookup<bytes>)
    requires WellFormed(db.engine.data) && P.Ok(At(db.engine.data, k))
    modifies db.engine
    ensures WellFormed(db.engine.data) && Frame(old(db.engine.data), db.engine.data, k)
    ensures M.Kept(At(old(db.engine.data), k), At(db.engine.data, k), db.now)
    ensures var oe := P.Look(At(old(db.engine.data), k), db.now);
            && (r.WrongType? <==> HashOf(oe).WrongType?)
            && (r.Found? <==> f in FieldsIn(oe)) && (r.Found? ==> r.value == FieldsIn(oe)[f].value)
  {
    hide At, WellFormed, P.Ok, P.Look, P.HashField, FieldsIn, HashOf;
    M.HashFieldMeans(At(db.engine.data, k), f, db.now);
    r := db.HashField(k, f);
  }

  method HGet(db: Database, args: seq<Arg>) returns (r: Resp)
    requires Inv(db.engine.data) && db.now >= 0
    modifies db.engine
    ensures Performed(old(db.engine.data), db.engine.data, args, db.now,
                      S.HGet(Before(old(db.engine.data), args, db.now), args), r)
  {
    hide At, WellFormed, Inv, P.Ok, P.Look, FieldsIn, HashOf;
    Untouched(db.engine.data, args, db.now, SyntaxError());
    if |args| != 3 { return SyntaxError(); }
    InvAt(db.engine.data, args[1]);
    var field := OldField(db, args[1], args[2]);
    match field
    case WrongType => return WrongTypeError();
    case Missing => return NullBulk;
    case Found(v) => return Bulk(v);
  }

  method HExists(db: Database, args: seq<Arg>) returns (r: Resp)
    requires Inv(db.engine.data) && db.now >= 0
    modifies db.engine
    ensures Performed(old(db.engine.data), db.engine.data, args, db.now,
                      S.HExists(Before(old(db.engine.data), args, db.now), args), r)
  {
    hide At, WellFormed, Inv, P.Ok, P.Look, FieldsIn, HashOf;
    Untouched(db.engine.data, args, db.now, SyntaxError());
    if |args| != 3 { return SyntaxError(); }
    InvAt(db.engine.data, args[1]);
    var field := OldField(db, args[1], args[2]);
    if field.WrongType? { return WrongTypeError(); }
    return Flag(field.Found?);
  }

  method HMGet(db: Database, args: seq<Arg>) returns (r: Resp)
    requires Inv(db.engine.data) && db.now >= 0
    modifies db.engine
    ensures Performed(old(db.engine.data), db.engine.data, args, db.now,
                      S.HMGet(Before(old(db.engine.data), args, db.now), args), r)
  {
    hide At, WellFormed, Inv, P.Ok, P.Look, FieldsIn, HashOf;
    Untouched(db.engine.data, args, db.now, SyntaxError());
    if |args| < 3 { return SyntaxError(); }
    InvAt(db.engine.data, args[1]);
    ghost var oe := P.Look(At(db.engine.data, args[1]), db.now);
    var fields := args[2..];
    var items: seq<Resp> := [];
    for i := 0 to |fields|
      invariant Effect(old(db.engine.data), db.engine.data, args[1], db.now, oe)
      invariant HashOf(oe).WrongType? ==> i == 0
      invariant |items| == i && forall j :: 0 <= j < i ==> items[j] == FieldReply(oe, fields[j])
    {
      var field := OldField(db, args[1], fields[i]);
      if field.WrongType? { return WrongTypeError(); }
      items := items + [if field.Found? then Bulk(field.value) else NullBulk];
    }
    assert items == FieldReplies(oe, fields);
    return Array(items);
  }

  /** HDEL's loop on the stored envelopes: an expired field goes without being counted. */
  function DropEnvs(fields: map<bytes, Env>, args: seq<Arg>, i: nat, now: int): (map<bytes, Env>, nat)
    decreases |args| - i
  {
    if i >= |args| then (fields, 0)
    else
      var (after, removed) := DropEnvs(fields - {args[i]}, args, i + 1, now);
      (after, removed + if args[i] in fields && !Expired(fields[args[i]], now) then 1 else 0)
  }

  method DropListed(db: Database, k: key, args: seq<Arg>) returns (removed: nat)
    requires WellFormed(db.engine.data) && |args| >= 2
    modifies db.engine
    ensures var b := At(old(db.engine.data), k);
            var (after, count) := DropEnvs(b.fields, args, 2, db.now);
            Stepped(old(db.engine.data), db.engine.data, k, b.(fields := after)) && removed == count
  {
    hide At, WellFormed;
    ghost var b := At(db.engine.data, k);
    ghost var fields := b.fields;
    removed := 0;
    for i := 2 to |args|
      invariant Stepped(old(db.engine.data), db.engine.data, k, b.(fields := fields))
      invariant var rest := DropEnvs(fields, args, i, db.now);
                DropEnvs(b.fields, args, 2, db.now) == (rest.0, removed + rest.1)
    {
      var field := db.GetField(k, args[i]);
      assert args[i] !in fields ==> fields - {args[i]} == fields;
      if field.Some? {
        db.DeleteField(k, args[i]);
        if !Expired(field.value, db.now) { removed := removed + 1; }
      }
      fields := fields - {args[i]};
    }
  }

  lemma {:induction false} DroppingMeans(fields: map<bytes, Env>, args: seq<Arg>, i: nat, now: int)
    requires P.LiveEnvs(fields, now) == fields
    ensures var (after, removed) := DropEnvs(fields, args, i, now);
            P.LiveEnvs(after, now) == after && DropFields(P.FieldsOf(fields), args, i) == (P.FieldsOf(after), removed)
    decreases |args| - i
  {
    if i < |args| {
      var less := fields - {args[i]};
      StillLive(fields, args[i], now);
      DroppingMeans(less, args, i + 1, now);
    }
  }

  lemma StillLive(fields: map<bytes, Env>, f: bytes, now: int)
    requires P.LiveEnvs(fields, now) == fields
    ensures P.LiveEnvs(fields - {f}, now) == fields - {f} && P.FieldsOf(fields - {f}) == P.FieldsOf(fields) - {f}
    ensures f in P.FieldsOf(fields) <==> f in fields
    ensures f in fields ==> !Expired(fields[f], now)
  {
    forall g <- fields ensures !Expired(fields[g], now) {
      assert g in P.LiveEnvs(fields, now);
    }
  }

  lemma EntriesAfterDrop(fields: map<bytes, Env>, ttl: Option<int64>, now: int)
    requires P.LiveEnvs(fields, now) == fields && !Passed(ttl, now)
    ensures P.HashEntries(HashBundle(fields, ttl), now) ==
        (if fields == map[] then Missing else Found(fields), HashBundle(fields, ttl))
  {
  }

  method HDel(db: Database, args: seq<Arg>) returns (r: Resp)
    requires Inv(db.engine.data) && db.now >= 0
    modifies db.engine
    ensures Performed(old(db.engine.data), db.engine.data, args, db.now,
                      S.HDel(Before(old(db.engine.data), args, db.now), args), r)
  {
    hide At, WellFormed, Inv, P.Ok, P.Look, P.HashEntries, P.FieldsOf, P.LiveEnvs, DropFields, DropEnvs, Plain, Ascii;
    Untouched(db.engine.data, args, db.now, SyntaxError());
    if |args| < 3 { return SyntaxError(); }
    ghost var oe := P.Look(At(db.engine.data, args[1]), db.now);
    var kind, fields, ttl := OpenHash(db, args[1], oe);
    if kind == NoKind { return Integer(0); }
    if kind != HashKind { return WrongTypeError(); }
    DroppingMeans(fields, args, 2, db.now);
    ghost var after := DropEnvs(fields, args, 2, db.now).0;
    EntriesAfterDrop(after, ttl, db.now);
    P.FieldsOfEmpty(after);
    HashLooks(after, if after == map[] then None else ttl, db.now);
    var removed := DropListed(db, args[1], args);
    var entries := db.HashEntries(args[1]);
    if !entries.Found? {
      var _ := db.DeleteRaw(args[1]);
    }
    return Integer(removed);
  }

  /** What HINCRBY does to the records of one key, whatever they are. */
  function IncrementRecords(b: Bundle, f: bytes, delta: int64, now: int): (Resp, Bundle) {
    var (kind, b1) := P.Type(b, now);
    if kind != NoKind && kind != HashKind then (WrongTypeError(), b1)
    else
      var (value, b2) := P.HashField(b1, f, now);
      match if value.Found? then Decimal.Parse(value.value) else Some(0)
      case None => (HashNotAnInteger(), b2)
      case Some(current) =>
        if !Deadline.Fits(current + delta) then (Overflow(), b2)
        else (Integer(current + delta),
            b2.(fields := b2.fields[f := Env(0, P.BYTES_CODEC, Decimal.Format(current + delta))]))
  }

  /** redisHIncrBy once its arguments are read. */
  method HIncrement(db: Database, k: key, f: Arg, delta: int64) returns (r: Resp)
    requires WellFormed(db.engine.data)
    modifies db.engine
    ensures var (reply, b) := IncrementRecords(At(old(db.engine.data), k), f, delta, db.now);
            r == reply && Stepped(old(db.engine.data), db.engine.data, k, b)
  {
    hide At, WellFormed, Plain, P.Type, P.HashField, Decimal.Parse, Decimal.Format, Deadline.Fits;
    var kind := db.Type(k);
    if kind != NoKind && kind != HashKind { return WrongTypeError(); }
    var value := db.HashField(k, f);
    var current := 0;
    if value.Found? {
      var parsed := Decimal.Parse(value.value);
      if parsed.None? { return HashNotAnInteger(); }
      current := parsed.value;
    }
    current := current + delta;
    if !Deadline.Fits(current) { return Overflow(); }
    db.PutField(k, f, Decimal.Format(current));
    return Integer(current);
  }

  lemma OpenedMeans(b: Bundle, oe: Option<Entry>, now: int)
    requires P.Ok(b) && oe == P.Look(b, now) && !HashOf(oe).WrongType?
    ensures var (kind, b1) := P.Type(b, now);
            (kind == NoKind || kind == HashKind) && Opened(b1, b1.fields, b1.ttl, oe, now)
  {
    hide P.Look, P.Type, P.Ok;
    M.PrunedIsKept(b, now);
    if KindOf(oe) == HashKind { M.LiveFieldsMean(b, now); FutureDeadline(b, now); }
    P.FieldsOfEmpty(map[]);
  }

  lemma IncrementOpened(b: Bundle, fields: map<bytes, Env>, ttl: Option<int64>, oe: Option<Entry>, f: bytes,
      payload: bytes, now: int)
    requires Opened(b, fields, ttl, oe, now)
    ensures var b' := b.(fields := b.fields[f := Env(0, P.BYTES_CODEC, payload)]);
            P.Ok(b') && P.Look(b', now) == HashUntil(FieldsIn(oe)[f := Field(payload, None)], DeadlineIn(oe))
  {
    hide P.Ok, P.Look, P.FieldsOf, P.LiveEnvs, HashUntil, FieldsIn;
    StoreField(fields, f, payload, now);
    HashLooks(fields[f := Env(0, P.BYTES_CODEC, payload)], ttl, now);
  }

  /** On the records of a reachable store, HINCRBY means what it says. */
  lemma IncrementMeans(b: Bundle, f: Arg, delta: int64, now: int)
    requires P.Ok(b)
    ensures var (reply, b') := IncrementRecords(b, f, delta, now);
            var out := HashIncrement(P.Look(b, now), f, delta);
            reply == out.reply && P.Ok(b') && P.Look(b', now) == out.entry
  {
    hide P.Ok, P.Look, P.Type, P.FieldsOf, P.LiveEnvs, P.HashField, HashUntil, Decimal.Parse, Decimal.Format;
    hide Deadline.Fits;
    var oe := P.Look(b, now);
    M.PrunedIsKept(b, now);
    if !HashOf(oe).WrongType? {
      OpenedMeans(b, oe, now);
      var b1 := P.Type(b, now).1;
      FieldAgain(b1.fields, b1.ttl, f, now);
      FieldsOfKeys(b1.fields);
      var current := if f in FieldsIn(oe) then Decimal.Parse(FieldsIn(oe)[f].value) else Some(0);
      if current.Some? {
        IncrementOpened(b1, b1.fields, b1.ttl, oe, f, Decimal.Format(current.value + delta), now);
      }
    }
  }

  method HIncrBy(db: Database, args: seq<Arg>) returns (r: Resp)
    requires Inv(db.engine.data) && db.now >= 0
    modifies db.engine
    ensures Performed(old(db.engine.data), db.engine.data, args, db.now,
                      S.HIncrBy(Before(old(db.engine.data), args, db.now), args), r)
  {
    hide At, WellFormed, Inv, P.Ok, P.Look, IncrementRecords, HashIncrement, Plain;
    Untouched(db.engine.data, args, db.now, SyntaxError());
    if |args| != 4 { return SyntaxError(); }
    var delta := Decimal.ParseInt64(args[3]);
    if delta.None? {
      Untouched(db.engine.data, args, db.now, NotAnInteger());
      return NotAnInteger();
    }
    InvAt(db.engine.data, args[1]);
    IncrementMeans(At(db.engine.data, args[1]), args[2], delta.value, db.now);
    r := HIncrement(db, args[1], args[2], delta.value);
  }

  lemma FieldAgain(fields: map<bytes, Env>, ttl: Option<int64>, f: bytes, now: int)
    requires P.LiveEnvs(fields, now) == fields && !Passed(ttl, now) && (fields == map[] ==> ttl.None?)
    ensures P.HashField(HashBundle(fields, ttl), f, now) ==
            (if f in P.FieldsOf(fields) then Found(P.FieldsOf(fields)[f].value) else Missing, HashBundle(fields, ttl))
  {
    StillLive(fields, f, now);
  }

  /** The replies HGETALL, HKEYS and HVALS build from the sorted entries. */
  method ShowEntries(live: map<bytes, Env>, part: Part) returns (items: seq<Resp>)
    ensures P.FieldsOf(live).Keys == live.Keys
    ensures forall f <- Listing(live.Keys) :: f in live
    ensures items == Show(P.FieldsOf(live), Listing(live.Keys), part)
  {
    FieldsOfKeys(live);
    ListingMembers(live.Keys);
    var names := ListSet(live.Keys);
    items := [];
    ShowNone(P.FieldsOf(live), names, part);
    hide Show, Listing;
    for i := 0 to |names|
      invariant items == Show(P.FieldsOf(live), names[..i], part)
    {
      ShowOneMore(P.FieldsOf(live), names, i, part);
      var f, v := names[i], live[names[i]].payload;
      items := items + match part case Both => [Bulk(f), Bulk(v)] case Names => [Bulk(f)] case Values => [Bulk(v)];
    }
    assert names[..|names|] == names;
  }

  lemma ShowNone(fields: map<bytes, Field>, names: seq<bytes>, part: Part)
    ensures Show(fields, names[..0], part) == []
  {
  }

  lemma ShowOneMore(fields: map<bytes, Field>, names: seq<bytes>, i: nat, part: Part)
    requires i < |names| && forall f <- names :: f in fields
    ensures var f, shown := names[i], Show(fields, names[..i], part);
            Show(fields, names[..i + 1], part) == shown +
              match part
              case Both => [Bulk(f), Bulk(fields[f].value)]
              case Names => [Bulk(f)]
              case Values => [Bulk(fields[f].value)]
  {
    assert names[..i + 1][..i] == names[..i];
  }

  method OldEntries(db: Database, k: key) returns (r: Lookup<map<bytes, Env>>)
    requires WellFormed(db.engine.data) && P.Ok(At(db.engine.data, k))
    modifies db.engine
    ensures var oe := P.Look(At(old(db.engine.data), k), db.now);
            && Effect(old(db.engine.data), db.engine.data, k, db.now, oe)
            && (r.WrongType? <==> HashOf(oe).WrongType?)
            && (r.Missing? ==> FieldsIn(oe) == map[]) && (r.Found? ==> P.FieldsOf(r.value) == FieldsIn(oe))
  {
    hide At, WellFormed, P.Ok, P.Look, P.HashEntries;
    M.HashEntriesMeans(At(db.engine.data, k), db.now);
    r := db.HashEntries(k);
  }

  method HList(db: Database, args: seq<Arg>, part: Part) returns (r: Resp)
    requires Inv(db.engine.data) && db.now >= 0
    modifies db.engine
    ensures Performed(old(db.engine.data), db.engine.data, args, db.now,
                      S.HList(Before(old(db.engine.data), args, db.now), args, part), r)
  {
    hide At, WellFormed, Inv, P.Ok, P.Look, FieldsIn, HashOf, P.FieldsOf;
    Untouched(db.engine.data, args, db.now, SyntaxError());
    if |args| != 2 { return SyntaxError(); }
    InvAt(db.engine.data, args[1]);
    var entries := OldEntries(db, args[1]);
    if entries.WrongType? { return WrongTypeError(); }
    if entries.Missing? {
      assert Listing({}) == [];
      return Array([]);
    }
    var items := ShowEntries(entries.value, part);
    return Array(items);
  }

  method HLen(db: Database, args: seq<Arg>) returns (r: Resp)
    requires Inv(db.engine.data) && db.now >= 0
    modifies db.engine
    ensures Performed(old(db.engine.data), db.engine.data, args, db.now,
                      S.HLen(Before(old(db.engine.data), args, db.now), args), r)
  {
    hide At, WellFormed, Inv, P.Ok, P.Look, FieldsIn, HashOf, P.FieldsOf;
    Untouched(db.engine.data, args, db.now, SyntaxError());
    if |args| != 2 { return SyntaxError(); }
    InvAt(db.engine.data, args[1]);
    var entries := OldEntries(db, args[1]);
    if entries.WrongType? { return WrongTypeError(); }
    if entries.Missing? { return Integer(0); }
    FieldsOfKeys(entries.value);
    SameSize(P.FieldsOf(entries.value), entries.value);
    return Integer(|entries.value|);
  }

  lemma SameSize(a: map<bytes, Field>, b: map<bytes, Env>)
    requires a.Keys == b.Keys
    ensures |a| == |b|
  {
    assert |a| == |a.Keys| && |b| == |b.Keys|;
  }
}
