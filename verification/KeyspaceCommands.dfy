/** Commands over several keys, and key discovery (redis_commands.go). Their contracts speak
    of the whole store as a typed keyspace. */
module KeyspaceCommands {
  import opened Bytes
  import opened Keys
  import opened Layout
  import opened Keyspace
  import opened Resp
  import opened Sorting
  import opened LogicalKeys
  import opened RedisStorage
  import opened Effects
  import opened View
  import opened S = CommandSpec
  import I = Interpreter
  import StringCommands
  import Deadline
  import Decimal
  import Engine
  import Envelope
  import P = Probe
  import M = Meaning

  /** The store still stands for the same keyspace. */
  ghost predicate Same(d: Store, d': Store, now: int) {
    Keeps(d, d') && View.View(d', now) == View.View(d, now)
  }

  lemma AssignBack(ks: Keyspace, k: key)
    ensures Assign(ks, k, Find(ks, k)) == ks
  {
  }

  lemma LookedAt(d: Store, d': Store, k: key, now: int)
    requires Inv(d) && Effect(d, d', k, now, P.Look(At(d, k), now))
    ensures Same(d, d', now)
  {
    hide At, WellFormed, Inv, Plain, P.Ok, P.Look, View.View;
    EffectKeepsInv(d, d', k, now, P.Look(At(d, k), now));
    ViewFind(d, now, k);
    ViewEffect(d, d', k, now, P.Look(At(d, k), now));
    AssignBack(View.View(d, now), k);
  }

  method LookString(db: Database, k: key) returns (r: Lookup<bytes>)
    requires Inv(db.engine.data)
    modifies db.engine
    ensures Same(old(db.engine.data), db.engine.data, db.now)
    ensures r == StringOf(Find(View.View(old(db.engine.data), db.now), k))
  {
    hide At, WellFormed, Inv, Plain, P.Ok, P.Look, View.View;
    InvAt(db.engine.data, k);
    ViewFind(db.engine.data, db.now, k);
    r := StringCommands.OldString(db, k);
    LookedAt(old(db.engine.data), db.engine.data, k, db.now);
  }

  method LookType(db: Database, k: key) returns (kind: Kind)
    requires Inv(db.engine.data)
    modifies db.engine
    ensures Same(old(db.engine.data), db.engine.data, db.now)
    ensures kind == KindOf(Find(View.View(old(db.engine.data), db.now), k))
    ensures kind == NoKind ==> At(db.engine.data, k) == EMPTY
    ensures Frame(old(db.engine.data), db.engine.data, k)
  {
    hide At, WellFormed, Inv, Plain, P.Ok, P.Look, P.Type, View.View;
    InvAt(db.engine.data, k);
    ViewFind(db.engine.data, db.now, k);
    M.PrunedIsKept(At(db.engine.data, k), db.now);
    kind := db.Type(k);
    LookedAt(old(db.engine.data), db.engine.data, k, db.now);
  }

  method MGet(db: Database, args: seq<Arg>) returns (r: Resp)
    requires Inv(db.engine.data)
    modifies db.engine
    ensures Same(old(db.engine.data), db.engine.data, db.now)
    ensures r == I.MGetReply(View.View(old(db.engine.data), db.now), args)
  {
    hide Inv, Plain, View.View;
    if |args| < 2 { return SyntaxError(); }
    ghost var ks := View.View(db.engine.data, db.now);
    var items: seq<Resp> := [];
    for i := 1 to |args|
      invariant Same(old(db.engine.data), db.engine.data, db.now)
      invariant forall j :: 1 <= j < i ==> !StringOf(Find(ks, args[j])).WrongType?
      invariant |items| == i - 1 && forall j :: 0 <= j < i - 1 ==> items[j] == I.StringReply(ks, args[j + 1])
    {
      var value := LookString(db, args[i]);
      if value.WrongType? { return WrongTypeError(); }
      items := items + [if value.Found? then Bulk(value.value) else NullBulk];
    }
    assert items == I.StringReplies(ks, args[1..]);
    return Array(items);
  }

  method AssignString(db: Database, k: key, value: Arg)
    requires Inv(db.engine.data) && db.now >= 0
    modifies db.engine
    ensures Keeps(old(db.engine.data), db.engine.data)
    ensures View.View(db.engine.data, db.now) ==
        Assign(View.View(old(db.engine.data), db.now), k, StringUntil(value, None, db.now))
  {
    hide At, WellFormed, Inv, Plain, P.Ok, P.Look, View.View;
    InvAt(db.engine.data, k);
    StringCommands.ReplaceString(db, k, value, 0);
    EffectKeepsInv(old(db.engine.data), db.engine.data, k, db.now, StringUntil(value, None, db.now));
    ViewEffect(old(db.engine.data), db.engine.data, k, db.now, StringUntil(value, None, db.now));
  }

  method MSet(db: Database, args: seq<Arg>) returns (r: Resp)
    requires Inv(db.engine.data) && db.now >= 0
    modifies db.engine
    ensures Keeps(old(db.engine.data), db.engine.data)
    ensures (View.View(db.engine.data, db.now), r) ==
            if |args| < 3 || |args| % 2 != 1 then (View.View(old(db.engine.data), db.now), SyntaxError())
            else (I.AssignPairs(View.View(old(db.engine.data), db.now), args, 1, db.now), OkReply())
  {
    hide Inv, Plain, View.View, Assign, StringUntil;
    if |args| < 3 || |args| % 2 != 1 { return SyntaxError(); }
    var index := 1;
    while index < |args|
      invariant 1 <= index <= |args| && index % 2 == 1 && Keeps(old(db.engine.data), db.engine.data)
      invariant I.AssignPairs(View.View(db.engine.data, db.now), args, index, db.now)
             == I.AssignPairs(View.View(old(db.engine.data), db.now), args, 1, db.now)
    {
      AssignString(db, args[index], args[index + 1]);
      index := index + 2;
    }
    return OkReply();
  }

  /** Keys that are gone, or hold a string already, take a string without being deleted first. */
  ghost predicate TakesString(d: Store, args: seq<Arg>) {
    forall i :: 1 <= i < |args| && i % 2 == 1 ==> M.StringOnly(At(d, args[i]))
  }

  method MSetNX(db: Database, args: seq<Arg>) returns (r: Resp)
    requires Inv(db.engine.data) && db.now >= 0
    modifies db.engine
    ensures Keeps(old(db.engine.data), db.engine.data)
    ensures var ks := View.View(old(db.engine.data), db.now);
            (View.View(db.engine.data, db.now), r) ==
            if |args| < 3 || |args| % 2 != 1 then (ks, SyntaxError())
            else if I.AnyNamed(ks, args, 1) then (ks, Integer(0))
            else (I.AssignPairs(ks, args, 1, db.now), Integer(1))
  {
    hide Inv, Plain, View.View, At, Assign, StringUntil;
    if |args| < 3 || |args| % 2 != 1 { return SyntaxError(); }
    var present := AnyExists(db, args);
    if present { return Integer(0); }
    StorePairs(db, args);
    return Integer(1);
  }

  method AnyExists(db: Database, args: seq<Arg>) returns (found: bool)
    requires Inv(db.engine.data) && |args| % 2 == 1
    modifies db.engine
    ensures Same(old(db.engine.data), db.engine.data, db.now)
    ensures found == I.AnyNamed(View.View(old(db.engine.data), db.now), args, 1)
    ensures !found ==> TakesString(db.engine.data, args)
  {
    hide Inv, Plain, View.View, At;
    ghost var ks := View.View(db.engine.data, db.now);
    var index := 1;
    while index < |args|
      invariant 1 <= index <= |args| && index % 2 == 1
      invariant Same(old(db.engine.data), db.engine.data, db.now)
      invariant I.AnyNamed(ks, args, index) == I.AnyNamed(ks, args, 1)
      invariant TakesString(db.engine.data, args[..index])
    {
      ghost var d := db.engine.data;
      var kind := LookType(db, args[index]);
      if kind != NoKind { return true; }
      forall i | 1 <= i < index + 2 && i < |args| && i % 2 == 1 ensures M.StringOnly(At(db.engine.data, args[i])) {
        if args[i] != args[index] { assert M.StringOnly(At(d, args[..index][i])); }
      }
      index := index + 2;
    }
    assert args[..|args|] == args;
    return false;
  }

  method StorePairs(db: Database, args: seq<Arg>)
    requires Inv(db.engine.data) && db.now >= 0 && |args| % 2 == 1 && TakesString(db.engine.data, args)
    modifies db.engine
    ensures Keeps(old(db.engine.data), db.engine.data)
    ensures View.View(db.engine.data, db.now) == I.AssignPairs(View.View(old(db.engine.data), db.now), args, 1, db.now)
  {
    hide Inv, Plain, View.View, At, Assign, StringUntil;
    var index := 1;
    while index < |args|
      invariant 1 <= index <= |args| && index % 2 == 1
      invariant Keeps(old(db.engine.data), db.engine.data) && TakesString(db.engine.data, args)
      invariant I.AssignPairs(View.View(db.engine.data, db.now), args, index, db.now)
             == I.AssignPairs(View.View(old(db.engine.data), db.now), args, 1, db.now)
    {
      ghost var d := db.engine.data;
      PutFresh(db, args[index], args[index + 1]);
      forall i | 1 <= i < |args| && i % 2 == 1 ensures M.StringOnly(At(db.engine.data, args[i])) {
        if args[i] != args[index] { assert M.StringOnly(At(d, args[i])); }
      }
      index := index + 2;
    }
  }

  method PutFresh(db: Database, k: key, value: Arg)
    requires Inv(db.engine.data) && db.now >= 0 && M.StringOnly(At(db.engine.data, k))
    modifies db.engine
    ensures Keeps(old(db.engine.data), db.engine.data) && Frame(old(db.engine.data), db.engine.data, k)
        && M.StringOnly(At(db.engine.data, k))
    ensures View.View(db.engine.data, db.now) ==
        Assign(View.View(old(db.engine.data), db.now), k, StringUntil(value, None, db.now))
  {
    hide At, WellFormed, Inv, Plain, P.Ok, P.Look, View.View, P.WriteString, M.StringOnly;
    InvAt(db.engine.data, k);
    M.WriteStringMeans(At(db.engine.data, k), P.BYTES_CODEC, value, 0, db.now);
    db.WriteString(k, P.BYTES_CODEC, value, 0);
    EffectKeepsInv(old(db.engine.data), db.engine.data, k, db.now, StringUntil(value, None, db.now));
    ViewEffect(old(db.engine.data), db.engine.data, k, db.now, StringUntil(value, None, db.now));
  }

  method Exists(db: Database, args: seq<Arg>) returns (r: Resp)
    requires Inv(db.engine.data)
    modifies db.engine
    ensures Same(old(db.engine.data), db.engine.data, db.now)
    ensures r == if |args| < 2 then SyntaxError()
        else Integer(I.CountNamed(View.View(old(db.engine.data), db.now), args, 1))
  {
    hide Inv, Plain, View.View, At;
    if |args| < 2 { return SyntaxError(); }
    ghost var ks := View.View(db.engine.data, db.now);
    var count := 0;
    for i := 1 to |args|
      invariant Same(old(db.engine.data), db.engine.data, db.now)
      invariant count + I.CountNamed(ks, args, i) == I.CountNamed(ks, args, 1)
    {
      var kind := LookType(db, args[i]);
      if kind != NoKind { count := count + 1; }
    }
    return Integer(count);
  }

  // ---------------------------------------------------------------- DEL and UNLINK

  /** DEL counts the first mention of every key that still owns a record, dead or alive. */
  ghost function CountStored(d: Store, args: seq<Arg>, i: nat): nat
    requires 1 <= i
    decreases |args| - i
  {
    if i >= |args| then 0
    else CountStored(d, args, i + 1) + if args[i] !in args[1..i] && At(d, args[i]) != EMPTY then 1 else 0
  }

  method Delete(db: Database, args: seq<Arg>) returns (r: Resp)
    requires Inv(db.engine.data)
    modifies db.engine
    ensures Keeps(old(db.engine.data), db.engine.data)
    ensures |args| < 2 ==>
              View.View(db.engine.data, db.now) == View.View(old(db.engine.data), db.now) && r == SyntaxError()
    ensures |args| >= 2 ==>
              && View.View(db.engine.data, db.now) == I.RemoveNamed(View.View(old(db.engine.data), db.now), args, 1)
              && r == Integer(CountStored(old(db.engine.data), args, 1))
  {
    hide Inv, Plain, View.View, At;
    if |args| < 2 { return SyntaxError(); }
    ghost var d := db.engine.data;
    var count := 0;
    for i := 1 to |args|
      invariant Keeps(old(db.engine.data), db.engine.data)
      invariant forall k: key :: At(db.engine.data, k) == if k in args[1..i] then EMPTY else At(d, k)
      invariant I.RemoveNamed(View.View(db.engine.data, db.now), args, i) ==
          I.RemoveNamed(View.View(d, db.now), args, 1)
      invariant count + CountStored(d, args, i) == CountStored(d, args, 1)
    {
      assert args[1..i + 1] == args[1..i] + [args[i]];
      var deleted := DeleteOne(db, args[i]);
      if deleted { count := count + 1; }
    }
    return Integer(count);
  }

  method DeleteOne(db: Database, k: key) returns (existed: bool)
    requires Inv(db.engine.data)
    modifies db.engine
    ensures Keeps(old(db.engine.data), db.engine.data) && At(db.engine.data, k) == EMPTY
        && Frame(old(db.engine.data), db.engine.data, k)
    ensures View.View(db.engine.data, db.now) == View.View(old(db.engine.data), db.now) - {k}
    ensures existed <==> At(old(db.engine.data), k) != EMPTY
  {
    hide At, WellFormed, Inv, Plain, P.Ok, P.Look, View.View;
    InvAt(db.engine.data, k);
    NothingLeft(db.now);
    existed := db.DeleteRaw(k);
    EffectKeepsInv(old(db.engine.data), db.engine.data, k, db.now, None);
    ViewEffect(old(db.engine.data), db.engine.data, k, db.now, None);
  }

  /** The keys DEL names that are alive, first mentions only. */
  ghost function CountLive(ks: Keyspace, args: seq<Arg>, i: nat): nat
    requires 1 <= i
    decreases |args| - i
  {
    if i >= |args| then 0
    else CountLive(ks, args, i + 1) + if args[i] !in args[1..i] && args[i] in ks then 1 else 0
  }

  ghost function Without(ks: Keyspace, args: seq<Arg>, i: nat): Keyspace
    requires 1 <= i <= |args|
  {
    map k <- ks | k !in args[1..i] :: ks[k]
  }

  lemma {:induction false} RemovedAreLive(ks: Keyspace, args: seq<Arg>, i: nat)
    requires 1 <= i <= |args|
    ensures I.CountRemoved(Without(ks, args, i), args, i) == CountLive(ks, args, i)
    decreases |args| - i
  {
    if i < |args| {
      assert args[1..i + 1] == args[1..i] + [args[i]];
      assert Without(ks, args, i) - {args[i]} == Without(ks, args, i + 1);
      RemovedAreLive(ks, args, i + 1);
    }
  }

  /** A key that passed its deadline but still owns records. */
  ghost predicate Lingers(d: Store, k: key, now: int) {
    At(d, k) != EMPTY && P.Look(At(d, k), now).None?
  }

  lemma {:induction false} StoredOrLive(d: Store, now: int, args: seq<Arg>, i: nat)
    requires 1 <= i <= |args|
    ensures CountLive(View.View(d, now), args, i) <= CountStored(d, args, i) <= |args| - i
    ensures CountLive(View.View(d, now), args, i) == CountStored(d, args, i) <==>
            forall j :: i <= j < |args| && args[j] !in args[1..j] ==> !Lingers(d, args[j], now)
    decreases |args| - i
  {
    hide View.View, At, P.Look;
    if i < |args| {
      StoredOrLive(d, now, args, i + 1);
      ViewFind(d, now, args[i]);
      NothingIsThere(d, args[i], now);
    }
  }

  lemma NothingIsThere(d: Store, k: key, now: int)
    ensures At(d, k) == EMPTY ==> P.Look(At(d, k), now).None?
  {
  }

  /** The DEL/UNLINK reply: never less than the number of live keys removed, never more than
      the keys named, and exact if and only if no key it names has expired without being purged. */
  lemma DeleteCountsLingering(d: Store, now: int, args: seq<Arg>)
    requires |args| >= 1
    ensures I.CountRemoved(View.View(d, now), args, 1) <= CountStored(d, args, 1) <= |args| - 1
    ensures I.CountRemoved(View.View(d, now), args, 1) == CountStored(d, args, 1) <==>
            forall k <- args[1..] :: !Lingers(d, k, now)
  {
    hide View.View, Lingers;
    RemovedAreLive(View.View(d, now), args, 1);
    assert Without(View.View(d, now), args, 1) == View.View(d, now);
    StoredOrLive(d, now, args, 1);
    FirstMentions(d, now, args);
  }

  /** DEL of one key that has expired and not been purged: nothing live is removed, and it says 1. */
  lemma DeadKeyIsCounted(d: Store, now: int, name: Arg, k: Arg)
    requires Lingers(d, k, now)
    ensures I.CountRemoved(View.View(d, now), [name, k], 1) == 0 && CountStored(d, [name, k], 1) == 1
  {
    ViewFind(d, now, k);
    hide View.View, At;
    var args := [name, k];
    assert args[1..1] == [] && I.CountRemoved(View.View(d, now) - {k}, args, 2) == 0 && CountStored(d, args, 2) == 0;
  }

  /** Such a store: one string that expired at 5, at 10. */
  lemma DeadKeyIsPossible() returns (d: Store, k: Arg, now: int)
    ensures Inv(d) && Lingers(d, k, now)
  {
    k, now := [1], 10;
    var e := Envelope.Env(5, [], []);
    d := map[][ValueKey(k) := Envelope.Marshal(e).value];
    StringAlone(k, e);
    hide At, WellFormed, Envelope.Marshal;
  }

  lemma StringAlone(k: key, e: Envelope.Env)
    requires |e.codec| <= 65535
    ensures var d := map[][ValueKey(k) := Envelope.Marshal(e).value];
            && WellFormed(d) && At(d, k) == EMPTY.(value := Some(e))
            && forall k2: key :: k2 != k ==> At(d, k2) == EMPTY
  {
    var none: Store := map[];
    Envelope.MarshalRoundTrip(e);
    PutValue(none, k, Envelope.Marshal(e).value);
    hide At;
    forall k2: key ensures At(none, k2) == EMPTY { EmptyIffNoRecord(none, k2); }
  }

  lemma FirstMentions(d: Store, now: int, args: seq<Arg>)
    requires |args| >= 1
    ensures (forall j :: 1 <= j < |args| && args[j] !in args[1..j] ==> !Lingers(d, args[j], now)) <==>
            (forall k <- args[1..] :: !Lingers(d, k, now))
  {
    hide Lingers;
    if forall j :: 1 <= j < |args| && args[j] !in args[1..j] ==> !Lingers(d, args[j], now) {
      forall j | 1 <= j < |args| ensures !Lingers(d, args[j], now) {
        var i := FirstMention(args, j);
        assert args[i] !in args[1..i];
      }
    }
    if forall k <- args[1..] :: !Lingers(d, k, now) {
      forall j | 1 <= j < |args| ensures !Lingers(d, args[j], now) {
        assert args[1..][j - 1] == args[j];
      }
    }
  }

  lemma {:induction false} FirstMention(args: seq<Arg>, j: nat) returns (i: nat)
    requires 1 <= j < |args|
    ensures 1 <= i <= j && args[i] == args[j] && args[i] !in args[1..i]
    decreases j
  {
    i := j;
    if args[j] in args[1..j] {
      var m :| 0 <= m < j - 1 && args[1..j][m] == args[j];
      i := FirstMention(args, m + 1);
    }
  }

  // ---------------------------------------------------------------- KEYS, DBSIZE, SCAN, FLUSHDB

  /** redisLogicalKeys gathers the logical keys of all records ... */
  method Candidates(db: Database) returns (names: set<key>)
    requires WellFormed(db.engine.data)
    ensures names == StoredKeys(db.engine.data)
  {
    hide StoredKeys, WellFormed;
    var storageKeys := KeysOfScan(db.engine, []);
    names := {};
    for i := 0 to |storageKeys|
      invariant names <= StoredKeys(db.engine.data)
      invariant forall j :: 0 <= j < i && LogicalKey(storageKeys[j]).Some? ==> LogicalKey(storageKeys[j]).value in names
    {
      var name := LogicalKey(storageKeys[i]);
      if name.Some? {
        NamedByRecord(db.engine.data, storageKeys[i]);
        names := names + {name.value};
      }
    }
    forall k <- StoredKeys(db.engine.data) ensures k in names {
      var sk := RecordOfName(db.engine.data, k);
      assert [] <= sk;
    }
  }

  lemma NamedByRecord(d: Store, sk: bytes)
    requires WellFormed(d) && sk in d && LogicalKey(sk).Some?
    ensures LogicalKey(sk).value in StoredKeys(d)
  {
    assert RecordOk(sk, d[sk]);
  }

  lemma RecordOfName(d: Store, k: key) returns (sk: bytes)
    requires k in StoredKeys(d)
    ensures sk in d && LogicalKey(sk) == Some(k)
  {
    sk :| sk in d && LogicalKey(sk) == Some(k);
  }

  /** ... probes each in an arbitrary order, and sorts those that have a type. */
  method AllKeys(db: Database) returns (keys: seq<bytes>)
    requires Inv(db.engine.data)
    modifies db.engine
    ensures Same(old(db.engine.data), db.engine.data, db.now)
    ensures keys == I.KeyNames(View.View(old(db.engine.data), db.now))
  {
    hide Inv, Plain, View.View, At, StoredKeys, KindOf;
    InvAt(db.engine.data, []);
    ghost var d, ks := db.engine.data, View.View(db.engine.data, db.now);
    var rest := Candidates(db);
    ViewIsNamed(d, db.now);
    var live: set<bytes> := {};
    while rest != {}
      invariant Same(d, db.engine.data, db.now)
      invariant forall k <- live :: k in ks.Keys
      invariant forall k <- ks.Keys :: k in live || k in rest
      decreases |rest|
    {
      var k: key :| k in rest;
      KindTells(Find(ks, k));
      var kind := LookType(db, k);
      if kind != NoKind { live := live + {k}; }
      rest := rest - {k};
    }
    assert live == set k: bytes | k in ks.Keys;
    keys := ListSet(live);
  }

  lemma KindTells(oe: Option<Entry>)
    ensures KindOf(oe) == NoKind <==> oe.None?
  {
  }

  lemma ViewIsNamed(d: Store, now: int)
    ensures View.View(d, now).Keys <= StoredKeys(d)
  {
  }

  method FilterKeys(db: Database, pattern: bytes, keys: seq<bytes>) returns (r: seq<bytes>)
    ensures r == I.Matching(db.matcher, pattern, keys)
  {
    r := [];
    for i := 0 to |keys|
      invariant r == I.Matching(db.matcher, pattern, keys[..i])
    {
      assert keys[..i + 1][..i] == keys[..i];
      if db.matcher(pattern, keys[i]) { r := r + [keys[i]]; }
    }
    assert keys[..|keys|] == keys;
  }

  method KeysMatching(db: Database, args: seq<Arg>) returns (r: Resp)
    requires Inv(db.engine.data)
    modifies db.engine
    ensures Same(old(db.engine.data), db.engine.data, db.now)
    ensures r == if |args| != 2 then SyntaxError()
                 else Array(Bulks(I.Matching(db.matcher, args[1], I.KeyNames(View.View(old(db.engine.data), db.now)))))
  {
    hide Inv, Plain, View.View, I.KeyNames, I.Matching;
    if |args| != 2 { return SyntaxError(); }
    var keys := AllKeys(db);
    var matching := FilterKeys(db, args[1], keys);
    return Array(Bulks(matching));
  }

  lemma NamesAreCounted(ks: Keyspace)
    ensures |I.KeyNames(ks)| == |ks|
  {
    assert ks.Keys == set k: bytes | k in ks.Keys;
  }

  method DbSize(db: Database, args: seq<Arg>) returns (r: Resp)
    requires Inv(db.engine.data)
    modifies db.engine
    ensures Same(old(db.engine.data), db.engine.data, db.now)
    ensures r == if |args| != 1 then SyntaxError() else Integer(|View.View(old(db.engine.data), db.now)|)
  {
    hide Inv, Plain, View.View, I.KeyNames;
    if |args| != 1 { return SyntaxError(); }
    var keys := AllKeys(db);
    NamesAreCounted(View.View(old(db.engine.data), db.now));
    return Integer(|keys|);
  }

  method ScanOptionsOf(args: seq<Arg>) returns (r: Parsed<I.ScanOptions>)
    requires |args| >= 2
    ensures r == I.ParseScan(args, 2, I.SCAN_DEFAULTS)
  {
    var options, index := I.SCAN_DEFAULTS, 2;
    while index < |args|
      invariant I.ParseScan(args, index, options) == I.ParseScan(args, 2, I.SCAN_DEFAULTS)
    {
      var name := Upper(args[index]);
      if name != Ascii("MATCH") && name != Ascii("COUNT") && name != Ascii("TYPE") { return Bad(SyntaxError()); }
      if index + 1 >= |args| { return Bad(SyntaxError()); }
      if name == Ascii("MATCH") {
        options := options.(pattern := args[index + 1]);
      } else if name == Ascii("COUNT") {
        var count := I.ParseNonNegative(args[index + 1]);
        if count.None? { return Bad(NotAnInteger()); }
        options := options.(count := if count.value == 0 then 10 else count.value);
      }
      index := index + 2;
    }
    return Good(options);
  }

  /** redisScan's page. The sum of cursor and count is not checked: when it wraps below the
      cursor, the slice has no bounds and the command does not answer. */
  method Page(names: seq<bytes>, cursor: nat, count: nat) returns (r: Option<Resp>)
    requires cursor <= MAX_INT64 && count <= MAX_INT64
    ensures r == if I.PageFits(|names|, cursor, count) then Some(I.ScanPage(names, cursor, count)) else None
  {
    if cursor >= |names| { return Some(Array([Bulk(Ascii("0")), Array([])])); }
    WrapsOver(cursor + count);
    var end: int := Deadline.Wrap(cursor + count);
    if end > |names| { end := |names|; }
    var next := if end < |names| then end else 0;
    if end < cursor { return None; }
    return Some(Array([Bulk(Decimal.Format(next)), Array(Bulks(names[cursor..end]))]));
  }

  lemma WrapsOver(sum: int)
    requires 0 <= sum <= 2 * MAX_INT64
    ensures Deadline.Wrap(sum) == if sum <= MAX_INT64 then sum else sum - TWO64
  {
    if sum > MAX_INT64 {
      assert (sum + TWO63) % TWO64 == sum + TWO63 - TWO64;
    }
  }

  /** SCAN answers if and only if the cursor is past the matching keys or the sum fits 64 bits. */
  method Scan(db: Database, args: seq<Arg>) returns (r: Option<Resp>)
    requires Inv(db.engine.data)
    modifies db.engine
    ensures Same(old(db.engine.data), db.engine.data, db.now)
    ensures var ks := View.View(old(db.engine.data), db.now);
            r == if I.ScanFits(ks, args, db.matcher) then Some(I.ScanReply(ks, args, db.matcher)) else None
  {
    hide Inv, Plain, View.View, I.KeyNames, I.Matching, I.ParseScan, I.ScanPage, I.ParseNonNegative, I.PageFits;
    if |args| < 2 { return Some(SyntaxError()); }
    var cursor := I.ParseNonNegative(args[1]);
    if cursor.None? { return Some(NotAnInteger()); }
    var options := ScanOptionsOf(args);
    if options.Bad? { return Some(options.reply); }
    var keys := AllKeys(db);
    var names := FilterKeys(db, options.value.pattern, keys);
    r := Page(names, cursor.value, options.value.count);
  }

  method Flush(db: Database, args: seq<Arg>) returns (r: Resp)
    requires Inv(db.engine.data)
    modifies db.engine
    ensures Keeps(old(db.engine.data), db.engine.data)
    ensures (View.View(db.engine.data, db.now), r) ==
            if |args| > 2 then (View.View(old(db.engine.data), db.now), SyntaxError()) else (map[], OkReply())
  {
    if |args| > 2 { return SyntaxError(); }
    var items := db.engine.ScanPrefix([]);
    Engine.ScanIsExact(db.engine.data, []);
    DeleteAll(db, items);
    EmptyStore(db.now);
    return OkReply();
  }

  method DeleteAll(db: Database, items: seq<(bytes, bytes)>)
    requires forall sk <- db.engine.data :: [] <= sk ==>
        exists i :: 0 <= i < |items| && items[i] == (sk, db.engine.data[sk])
    modifies db.engine
    ensures db.engine.data == map[]
  {
    for i := 0 to |items|
      invariant forall sk <- db.engine.data :: sk in old(db.engine.data)
      invariant forall j :: 0 <= j < i ==> items[j].0 !in db.engine.data
    {
      db.engine.Delete(items[i].0);
    }
    forall sk <- old(db.engine.data) ensures sk !in db.engine.data {
      assert [] <= sk;
      var i :| 0 <= i < |items| && items[i] == (sk, old(db.engine.data)[sk]);
    }
  }

  lemma EmptyStore(now: int)
    ensures Inv(map[]) && Plain(map[]) && View.View(map[], now) == map[]
  {
    forall k: key ensures At(map[], k) == EMPTY {
      EmptyIffNoRecord(map[], k);
    }
    NothingLeft(now);
  }
}
