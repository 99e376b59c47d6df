/** The record-level helpers of redis_storage.go. Every method states what it does to the
    bundle of its key, and that no other key's bundle changes. */
module RedisStorage {
  import opened Bytes
  import opened Keys
  import opened Envelope
  import opened Layout
  import opened Keyspace
  import opened Engine
  import opened LogicalKeys
  import opened Sorting
  import ListCodec
  import Deadline
  import P = Probe

  lemma EnvFits(data: bytes)
    requires Unmarshal(data).Some?
    ensures |ToEnv(data).codec| <= 65535
  {
    Widths();
  }

  lemma FieldsAt(d: Store, k: key)
    ensures At(d, k).fields == FieldMap(d, HashPrefix(k)) && At(d, k).members == Suffixes(d, SetPrefix(k))
  {
  }

  lemma FieldsBelow(d: Store, k: key, f: bytes)
    ensures f in At(d, k).fields <==> HashKey(k, f) in d
    ensures f in At(d, k).fields ==> At(d, k).fields[f] == ToEnv(d[HashKey(k, f)])
    ensures f in At(d, k).members <==> SetKey(k, f) in d
  {
  }

  /** A record of the scan below `prefix`, seen as what follows the prefix. */
  lemma ScanSuffix(d: Store, prefix: bytes, i: nat)
    requires i < |Scan(d, prefix)|
    ensures var item := Scan(d, prefix)[i];
            && prefix <= item.0 && item.0[|prefix|..] in FieldMap(d, prefix)
            && FieldMap(d, prefix)[item.0[|prefix|..]] == ToEnv(item.1)
  {
    ScanIsExact(d, prefix);
    var item := Scan(d, prefix)[i];
    assert prefix + item.0[|prefix|..] == item.0;
  }

  lemma SuffixScanned(d: Store, prefix: bytes, f: bytes)
    requires f in FieldMap(d, prefix)
    ensures exists i :: 0 <= i < |Scan(d, prefix)| && Scan(d, prefix)[i].0 == prefix + f
  {
    ScanIsExact(d, prefix);
    assert prefix <= prefix + f;
    var r := Scan(d, prefix);
    var i :| 0 <= i < |r| && r[i] == (prefix + f, d[prefix + f]);
  }

  predicate Sorted(sk: bytes, prefix: bytes, live: map<bytes, Env>, expired: seq<bytes>) {
    |prefix| <= |sk| && (sk[|prefix|..] in live || sk[|prefix|..] in expired)
  }

  lemma DropOneMore(fields: map<bytes, Env>, dropped: seq<bytes>, i: nat)
    requires i < |dropped|
    ensures fields - Elements(dropped[..i]) - {dropped[i]} == fields - Elements(dropped[..i + 1])
  {
    assert dropped[..i + 1] == dropped[..i] + [dropped[i]];
  }

  class Database {
    const engine: MemoryEngine
    const matcher: (bytes, bytes) -> bool
    var now: int64

    constructor (engine: MemoryEngine, matcher: (bytes, bytes) -> bool, now: int64)
      ensures this.engine == engine && this.matcher == matcher && this.now == now
    {
      this.engine, this.matcher, this.now := engine, matcher, now;
    }

    method PutPayload(sk: bytes, codec: bytes, payload: bytes, ttl: int64)
      requires |codec| <= 65535
      modifies engine
      ensures exists data :: engine.data == old(engine.data)[sk := data]
                          && Unmarshal(data) == Some(Env(if ttl > 0 then Deadline.Wrap(now + ttl)
                              else 0, codec, payload))
    {
      var e := Env(if ttl > 0 then Deadline.Wrap(now + ttl) else 0, codec, payload);
      MarshalRoundTrip(e);
      engine.Put(sk, Marshal(e).value);
    }

    method DeleteRaw(k: key) returns (existed: bool)
      requires WellFormed(engine.data)
      modifies engine
      ensures Stepped(old(engine.data), engine.data, k, EMPTY)
      ensures existed <==> At(old(engine.data), k) != EMPTY
    {
      WithoutLeavesNothing(engine.data, k);
      existed := DeleteLogicalKey(engine, k);
    }

    /** Sort the envelopes below a prefix into live and expired, by what follows it. */
    method ScanEnvelopes(prefix: bytes) returns (live: map<bytes, Env>, expired: seq<bytes>)
      ensures live == P.LiveEnvs(FieldMap(engine.data, prefix), now)
      ensures forall f :: f in expired <==>
          f in FieldMap(engine.data, prefix) && Expired(FieldMap(engine.data, prefix)[f], now)
    {
      hide FieldMap, Scan, Expired;
      var items := engine.ScanPrefix(prefix);
      ghost var fields := FieldMap(engine.data, prefix);
      live, expired := map[], [];
      for i := 0 to |items|
        invariant forall f <- live :: f in fields && live[f] == fields[f] && !Expired(fields[f], now)
        invariant forall j :: 0 <= j < |expired| ==> expired[j] in fields && Expired(fields[expired[j]], now)
        invariant forall j :: 0 <= j < i ==> Sorted(items[j].0, prefix, live, expired)
      {
        ScanSuffix(engine.data, prefix, i);
        var f, e := items[i].0[|prefix|..], ToEnv(items[i].1);
        if Expired(e, now) {
          expired := expired + [f];
        } else {
          live := live[f := e];
        }
      }
      forall f <- fields ensures f in live || f in expired {
        SuffixScanned(engine.data, prefix, f);
        var i :| 0 <= i < |items| && items[i].0 == prefix + f;
        assert Sorted(items[i].0, prefix, live, expired);
        assert (prefix + f)[|prefix|..] == f;
      }
    }

    method DeleteFields(k: key, fields: seq<bytes>)
      requires WellFormed(engine.data)
      modifies engine
      ensures Stepped(old(engine.data), engine.data, k,
                      At(old(engine.data), k).(fields := At(old(engine.data), k).fields - Elements(fields)))
    {
      hide At, Frame, WellFormed;
      ghost var b := At(engine.data, k);
      SteppedNot(engine.data, k);
      assert b.fields - Elements(fields[..0]) == b.fields;
      for i := 0 to |fields|
        invariant Stepped(old(engine.data), engine.data, k, b.(fields := b.fields - Elements(fields[..i])))
      {
        ghost var d := engine.data;
        Layout.DeleteField(d, k, fields[i]);
        engine.Delete(HashKey(k, fields[i]));
        DropOneMore(b.fields, fields, i);
        SteppedTwice(old(engine.data), d, engine.data, k, At(d, k), At(engine.data, k));
      }
      assert fields[..|fields|] == fields;
    }

    /** The hash scan redisType and redisHashEntries share. */
    method PruneHash(k: key) returns (live: map<bytes, Env>)
      requires WellFormed(engine.data)
      modifies engine
      ensures live == P.PruneHash(At(old(engine.data), k), now).0
      ensures Stepped(old(engine.data), engine.data, k, P.PruneHash(At(old(engine.data), k), now).1)
    {
      hide At, Frame, WellFormed;
      ghost var b := At(engine.data, k);
      FieldsAt(engine.data, k);
      var expired: seq<bytes>;
      live, expired := ScanEnvelopes(HashPrefix(k));
      DeleteFields(k, expired);
      assert b.fields - Elements(expired) == live;
      if live == map[] && expired != [] {
        ghost var d1 := engine.data;
        var _ := DeleteRaw(k);
        SteppedTwice(old(engine.data), d1, engine.data, k, b.(fields := live), EMPTY);
        assert expired[0] in b.fields;
      } else {
        if live == map[] {
          forall f <- b.fields ensures f in live { assert f !in expired; }
        }
      }
    }

    // -------------------------------------------------------------- one record at a time

    method GetValue(k: key) returns (r: Option<Env>)
      requires WellFormed(engine.data)
      ensures r == At(engine.data, k).value
      ensures r.Some? ==> |r.value.codec| <= 65535
    {
      var data := engine.Get(ValueKey(k));
      if data.None? { return None; }
      assert RecordOk(ValueKey(k), data.value);
      EnvFits(data.value);
      return Some(ToEnv(data.value));
    }

    method PutValue(k: key, codec: bytes, payload: bytes, ttl: int64)
      requires WellFormed(engine.data) && |codec| <= 65535
      modifies engine
      ensures Stepped(old(engine.data), engine.data, k, At(old(engine.data), k).(value :=
                Some(Env(if ttl > 0 then Deadline.Wrap(now + ttl) else 0, codec, payload))))
    {
      hide At, Frame, WellFormed;
      ghost var d := engine.data;
      PutPayload(ValueKey(k), codec, payload, ttl);
      ghost var data :| engine.data == d[ValueKey(k) := data]
        && Unmarshal(data) == Some(Env(if ttl > 0 then Deadline.Wrap(now + ttl) else 0, codec, payload));
      Layout.PutValue(d, k, data);
    }

    method DeleteValue(k: key)
      requires WellFormed(engine.data)
      modifies engine
      ensures Stepped(old(engine.data), engine.data, k, At(old(engine.data), k).(value := None))
    {
      hide At, Frame, WellFormed;
      Layout.DeleteValue(engine.data, k);
      engine.Delete(ValueKey(k));
    }

    method MetadataExpiry(k: key) returns (r: Option<int64>)
      requires WellFormed(engine.data)
      ensures r == At(engine.data, k).ttl
    {
      var data := engine.Get(TtlKey(k));
      if data.None? { return None; }
      assert RecordOk(TtlKey(k), data.value);
      return Some(FromWord64(data.value));
    }

    method PutTtl(k: key, expiresAt: int64)
      requires WellFormed(engine.data)
      modifies engine
      ensures Stepped(old(engine.data), engine.data, k, At(old(engine.data), k).(ttl := Some(expiresAt)))
    {
      hide At, Frame, WellFormed;
      Word64RoundTrip(expiresAt);
      Layout.PutTtl(engine.data, k, Word64(expiresAt));
      engine.Put(TtlKey(k), Word64(expiresAt));
    }

    method DeleteTtl(k: key)
      modifies engine
      ensures engine.data == old(engine.data) - {TtlKey(k)}
      ensures WellFormed(old(engine.data)) ==>
                Stepped(old(engine.data), engine.data, k, At(old(engine.data), k).(ttl := None))
    {
      hide At, Frame, WellFormed;
      if WellFormed(engine.data) { Layout.DeleteTtl(engine.data, k); }
      engine.Delete(TtlKey(k));
    }

    method GetField(k: key, f: bytes) returns (r: Option<Env>)
      requires WellFormed(engine.data)
      ensures r.Some? <==> f in At(engine.data, k).fields
      ensures r.Some? ==> r.value == At(engine.data, k).fields[f]
    {
      hide At;
      FieldsBelow(engine.data, k, f);
      var data := engine.Get(HashKey(k, f));
      if data.None? { return None; }
      return Some(ToEnv(data.value));
    }

    method PutField(k: key, f: bytes, payload: bytes)
      requires WellFormed(engine.data)
      modifies engine
      ensures Stepped(old(engine.data), engine.data, k, At(old(engine.data), k).(fields :=
                At(old(engine.data), k).fields[f := Env(0, P.BYTES_CODEC, payload)]))
    {
      hide At, Frame, WellFormed;
      ghost var d := engine.data;
      PutPayload(HashKey(k, f), P.BYTES_CODEC, payload, 0);
      ghost var data :| engine.data == d[HashKey(k, f) := data]
          && Unmarshal(data) == Some(Env(0, P.BYTES_CODEC, payload));
      Layout.PutField(d, k, f, data);
    }

    method DeleteField(k: key, f: bytes)
      requires WellFormed(engine.data)
      modifies engine
      ensures Stepped(old(engine.data), engine.data, k,
          At(old(engine.data), k).(fields := At(old(engine.data), k).fields - {f}))
    {
      hide At, Frame, WellFormed;
      Layout.DeleteField(engine.data, k, f);
      engine.Delete(HashKey(k, f));
    }

    method HasMember(k: key, m: bytes) returns (found: bool)
      ensures found <==> m in At(engine.data, k).members
    {
      FieldsBelow(engine.data, k, m);
      var data := engine.Get(SetKey(k, m));
      return data.Some?;
    }

    method PutMember(k: key, m: bytes)
      requires WellFormed(engine.data)
      modifies engine
      ensures Stepped(old(engine.data), engine.data, k,
          At(old(engine.data), k).(members := At(old(engine.data), k).members + {m}))
    {
      hide At, Frame, WellFormed;
      Layout.PutMember(engine.data, k, m, [1]);
      engine.Put(SetKey(k, m), [1]);
    }

    method DeleteMember(k: key, m: bytes)
      requires WellFormed(engine.data)
      modifies engine
      ensures Stepped(old(engine.data), engine.data, k,
          At(old(engine.data), k).(members := At(old(engine.data), k).members - {m}))
    {
      hide At, Frame, WellFormed;
      Layout.DeleteMember(engine.data, k, m);
      engine.Delete(SetKey(k, m));
    }

    method GetList(k: key) returns (r: Option<seq<bytes>>)
      requires WellFormed(engine.data)
      ensures r == At(engine.data, k).items
      ensures r.Some? ==> ListCodec.Encodable(r.value)
    {
      var data := engine.Get(ListKey(k));
      if data.None? { return None; }
      assert RecordOk(ListKey(k), data.value);
      var items := ListCodec.ScanList(data.value);
      return Some(items.value);
    }

    method PutList(k: key, items: seq<bytes>)
      requires WellFormed(engine.data)
      modifies engine
      ensures engine.data == old(engine.data)[ListKey(k) := ListCodec.EncodeList(items)]
      ensures ListCodec.Encodable(items) ==>
                Stepped(old(engine.data), engine.data, k, At(old(engine.data), k).(items := Some(items)))
    {
      hide At, Frame, WellFormed;
      ListCodec.ListRoundTrip(items);
      if ListCodec.Encodable(items) { Layout.PutList(engine.data, k, ListCodec.EncodeList(items)); }
      engine.Put(ListKey(k), ListCodec.EncodeList(items));
    }

    method GetMembers(k: key) returns (members: set<bytes>)
      ensures members == At(engine.data, k).members
    {
      hide At;
      FieldsAt(engine.data, k);
      var prefix := SetPrefix(k);
      var items := engine.ScanPrefix(prefix);
      members := {};
      for i := 0 to |items|
        invariant members <= Suffixes(engine.data, prefix)
        invariant forall j :: 0 <= j < i ==> |prefix| <= |items[j].0| && items[j].0[|prefix|..] in members
      {
        ScanSuffix(engine.data, prefix, i);
        members := members + {items[i].0[|prefix|..]};
      }
      forall m <- Suffixes(engine.data, prefix) ensures m in members {
        SuffixScanned(engine.data, prefix, m);
        var i :| 0 <= i < |items| && items[i].0 == prefix + m;
        assert (prefix + m)[|prefix|..] == m;
      }
    }

    // -------------------------------------------------------------- redis_storage.go

    /** redisKeyExpired: a key past its collection deadline loses every record. */
    method KeyExpired(k: key) returns (expired: bool)
      requires WellFormed(engine.data)
      modifies engine
      ensures var b := At(old(engine.data), k);
              && expired == (b.ttl.Some? && now >= b.ttl.value)
              && Stepped(old(engine.data), engine.data, k, if expired then EMPTY else b)
    {
      hide At, WellFormed;
      var expiresAt := MetadataExpiry(k);
      if expiresAt.None? || now < expiresAt.value { return false; }
      var _ := DeleteRaw(k);
      return true;
    }

    method TypeOfList(k: key) returns (kind: Kind)
      requires WellFormed(engine.data)
      modifies engine
      ensures var b := At(old(engine.data), k);
              && kind == (if b.items.Some? && b.items.value != [] then ListKind else NoKind)
              && Stepped(old(engine.data), engine.data, k, if b.items == Some([]) then EMPTY else b)
    {
      hide At, WellFormed;
      var items := GetList(k);
      if items.None? { return NoKind; }
      if items.value != [] { return ListKind; }
      var _ := DeleteRaw(k);
      return NoKind;
    }

    /** redisType probes the record families in turn and purges what it finds expired. */
    method Type(k: key) returns (kind: Kind)
      requires WellFormed(engine.data)
      modifies engine
      ensures kind == P.Type(At(old(engine.data), k), now).0
      ensures Stepped(old(engine.data), engine.data, k, P.Type(At(old(engine.data), k), now).1)
    {
      hide At, WellFormed;
      var expired := KeyExpired(k);
      if expired { return NoKind; }
      var value := GetValue(k);
      if value.Some? {
        if !Expired(value.value, now) { return StringKind; }
        DeleteValue(k);
      }
      var live := PruneHash(k);
      if live != map[] { return HashKind; }
      var members := GetMembers(k);
      if members != {} { return SetKind; }
      kind := TypeOfList(k);
    }

    method ReadString(k: key) returns (r: Lookup<Env>)
      requires WellFormed(engine.data)
      modifies engine
      ensures r == P.ReadString(At(old(engine.data), k), now).0
      ensures Stepped(old(engine.data), engine.data, k, P.ReadString(At(old(engine.data), k), now).1)
    {
      hide At, WellFormed;
      var value := GetValue(k);
      if value.None? { return Missing; }
      if Expired(value.value, now) {
        var _ := DeleteRaw(k);
        return Missing;
      }
      return Found(value.value);
    }

    method String(k: key) returns (r: Lookup<Env>)
      requires WellFormed(engine.data)
      modifies engine
      ensures r == P.String(At(old(engine.data), k), now).0
      ensures Stepped(old(engine.data), engine.data, k, P.String(At(old(engine.data), k), now).1)
    {
      hide At, WellFormed, P.Type, P.ReadString;
      var kind := Type(k);
      if kind == NoKind { return Missing; }
      if kind != StringKind { return WrongType; }
      r := ReadString(k);
    }

    /** redisWriteString, and redisWriteStringWithCodec when the codec is another. */
    method WriteString(k: key, codec: bytes, payload: bytes, expiresAt: int64)
      requires WellFormed(engine.data) && |codec| <= 65535
      modifies engine
      ensures Stepped(old(engine.data), engine.data, k,
          P.WriteString(At(old(engine.data), k), codec, payload, expiresAt, now))
    {
      hide At, WellFormed;
      if expiresAt <= 0 {
        PutValue(k, codec, payload, 0);
        DeleteTtl(k);
        return;
      }
      var duration := Deadline.Sub(expiresAt, now);
      if duration <= 0 {
        var _ := DeleteRaw(k);
        return;
      }
      PutValue(k, codec, payload, duration);
    }

    method Expiry(k: key) returns (r: Option<int64>)
      requires WellFormed(engine.data)
      modifies engine
      ensures r == P.Expiry(At(old(engine.data), k), now).0
      ensures Stepped(old(engine.data), engine.data, k, P.Expiry(At(old(engine.data), k), now).1)
    {
      hide At, WellFormed, P.Type;
      var kind := Type(k);
      if kind == NoKind { return None; }
      if kind == StringKind {
        var value := GetValue(k);
        if value.Some? && value.value.expiresAt > 0 { return Some(value.value.expiresAt); }
        return None;
      }
      r := MetadataExpiry(k);
    }

    method ExpireString(k: key, expiresAt: int64) returns (ok: bool)
      requires WellFormed(engine.data)
      modifies engine
      ensures ok == P.ExpireString(At(old(engine.data), k), expiresAt, now).0
      ensures Stepped(old(engine.data), engine.data, k, P.ExpireString(At(old(engine.data), k), expiresAt, now).1)
    {
      hide At, WellFormed, P.WriteString;
      var value := GetValue(k);
      if value.None? { return false; }
      WriteString(k, value.value.codec, value.value.payload, expiresAt);
      DeleteTtl(k);
      return true;
    }

    method SetExpiry(k: key, expiresAt: int64) returns (ok: bool)
      requires WellFormed(engine.data)
      modifies engine
      ensures ok == P.SetExpiry(At(old(engine.data), k), expiresAt, now).0
      ensures Stepped(old(engine.data), engine.data, k, P.SetExpiry(At(old(engine.data), k), expiresAt, now).1)
    {
      hide At, WellFormed, P.Type, P.ExpireString;
      var kind := Type(k);
      if kind == NoKind { return false; }
      if expiresAt <= now {
        var _ := DeleteRaw(k);
        return true;
      }
      if kind == StringKind {
        ok := ExpireString(k, expiresAt);
        return;
      }
      PutTtl(k, expiresAt);
      return true;
    }

    method PersistString(k: key) returns (ok: bool)
      requires WellFormed(engine.data)
      modifies engine
      ensures ok == P.PersistString(At(old(engine.data), k)).0
      ensures Stepped(old(engine.data), engine.data, k, P.PersistString(At(old(engine.data), k)).1)
    {
      hide At, WellFormed;
      var value := GetValue(k);
      if value.None? { return false; }
      PutValue(k, value.value.codec, value.value.payload, 0);
      return true;
    }

    method Persist(k: key) returns (ok: bool)
      requires WellFormed(engine.data)
      modifies engine
      ensures ok == P.Persist(At(old(engine.data), k), now).0
      ensures Stepped(old(engine.data), engine.data, k, P.Persist(At(old(engine.data), k), now).1)
    {
      hide At, WellFormed, P.Type, P.Expiry, P.PersistString;
      var kind := Type(k);
      if kind == NoKind { return false; }
      var deadline := Expiry(k);
      if deadline.None? { return false; }
      if kind == StringKind {
        ok := PersistString(k);
        return;
      }
      DeleteTtl(k);
      return true;
    }

    method ReadField(k: key, f: bytes) returns (r: Lookup<bytes>)
      requires WellFormed(engine.data)
      modifies engine
      ensures r == P.ReadField(At(old(engine.data), k), f, now).0
      ensures Stepped(old(engine.data), engine.data, k, P.ReadField(At(old(engine.data), k), f, now).1)
    {
      hide At, WellFormed;
      var field := GetField(k, f);
      if field.None? { return Missing; }
      if Expired(field.value, now) {
        DeleteField(k, f);
        return Missing;
      }
      return Found(field.value.payload);
    }

    method HashField(k: key, f: bytes) returns (r: Lookup<bytes>)
      requires WellFormed(engine.data)
      modifies engine
      ensures r == P.HashField(At(old(engine.data), k), f, now).0
      ensures Stepped(old(engine.data), engine.data, k, P.HashField(At(old(engine.data), k), f, now).1)
    {
      hide At, WellFormed, P.Type, P.ReadField;
      var kind := Type(k);
      if kind == NoKind { return Missing; }
      if kind != HashKind { return WrongType; }
      r := ReadField(k, f);
    }

    method HashEntries(k: key) returns (r: Lookup<map<bytes, Env>>)
      requires WellFormed(engine.data)
      modifies engine
      ensures r == P.HashEntries(At(old(engine.data), k), now).0
      ensures Stepped(old(engine.data), engine.data, k, P.HashEntries(At(old(engine.data), k), now).1)
    {
      hide At, WellFormed, P.Type, P.PruneHash;
      var kind := Type(k);
      if kind == NoKind { return Missing; }
      if kind != HashKind { return WrongType; }
      var live := PruneHash(k);
      if live == map[] { return Missing; }
      return Found(live);
    }

    method ReadMembers(k: key) returns (r: Lookup<set<bytes>>)
      requires WellFormed(engine.data)
      modifies engine
      ensures r == P.ReadMembers(At(old(engine.data), k)).0
      ensures Stepped(old(engine.data), engine.data, k, P.ReadMembers(At(old(engine.data), k)).1)
    {
      hide At, WellFormed;
      var members := GetMembers(k);
      if members == {} {
        var _ := DeleteRaw(k);
        return Missing;
      }
      return Found(members);
    }

    method SetMembers(k: key) returns (r: Lookup<set<bytes>>)
      requires WellFormed(engine.data)
      modifies engine
      ensures r == P.SetMembers(At(old(engine.data), k), now).0
      ensures Stepped(old(engine.data), engine.data, k, P.SetMembers(At(old(engine.data), k), now).1)
    {
      hide At, WellFormed, P.Type, P.ReadMembers;
      var kind := Type(k);
      if kind == NoKind { return Missing; }
      if kind != SetKind { return WrongType; }
      r := ReadMembers(k);
    }

    method List(k: key) returns (r: Lookup<seq<bytes>>)
      requires WellFormed(engine.data)
      modifies engine
      ensures r == P.List(At(old(engine.data), k), now).0
      ensures Stepped(old(engine.data), engine.data, k, P.List(At(old(engine.data), k), now).1)
      ensures r.Found? ==> ListCodec.Encodable(r.value)
    {
      hide At, WellFormed, P.Type, ListCodec.Encodable;
      var kind := Type(k);
      if kind == NoKind { return Missing; }
      if kind != ListKind { return WrongType; }
      var items := GetList(k);
      if items.None? { return Missing; }
      return Found(items.value);
    }

    /** redisWriteList. A list past its 32-bit counts is written all the same. */
    method WriteList(k: key, items: seq<bytes>)
      requires WellFormed(engine.data)
      modifies engine
      ensures items != [] ==> engine.data == old(engine.data)[ListKey(k) := ListCodec.EncodeList(items)]
      ensures ListCodec.Encodable(items) || items == [] ==>
                Stepped(old(engine.data), engine.data, k, P.WriteList(At(old(engine.data), k), items))
    {
      hide At, WellFormed, ListCodec.Encodable;
      if items == [] {
        var _ := DeleteRaw(k);
        return;
      }
      PutList(k, items);
    }

    method DropExpired(items: seq<bytes>) returns (live: seq<bytes>, changed: bool)
      ensures live == P.LiveItems(items, now) && (changed <==> live != items)
    {
      live, changed := [], false;
      for i := 0 to |items|
        invariant live == P.LiveItems(items[..i], now)
        invariant changed <==> live != items[..i]
      {
        LiveOneMore(items, i, now);
        if Expired(ToEnv(items[i]), now) {
          changed := true;
        } else {
          live := live + [items[i]];
        }
      }
      assert items[..|items|] == items;
    }

    /** redisListValues drops expired items and writes the list back when some were. */
    method ListValues(k: key) returns (r: Lookup<seq<bytes>>)
      requires WellFormed(engine.data)
      modifies engine
      ensures r == P.ListValues(At(old(engine.data), k), now).0
      ensures Stepped(old(engine.data), engine.data, k, P.ListValues(At(old(engine.data), k), now).1)
    {
      hide At, WellFormed, P.List, P.WriteList, P.LiveItems, ListCodec.Encodable;
      r := List(k);
      if !r.Found? { return; }
      var live, changed := DropExpired(r.value);
      if changed {
        LiveFits(r.value, now);
        WriteList(k, live);
      }
      if live == [] { return Missing; }
      return Found(live);
    }
  }

  lemma LiveOneMore(items: seq<bytes>, i: nat, now: int)
    requires i < |items|
    ensures var live := P.LiveItems(items[..i], now);
            && P.LiveItems(items[..i + 1], now) == (if Expired(ToEnv(items[i]), now) then live else live + [items[i]])
            && (P.LiveItems(items[..i + 1], now) == items[..i + 1] <==>
                live == items[..i] && !Expired(ToEnv(items[i]), now))
  {
    assert items[..i + 1][..i] == items[..i];
    assert items[..i + 1] == items[..i] + [items[i]];
    var live := P.LiveItems(items[..i], now);
    if live + [items[i]] == items[..i + 1] {
      assert live == (live + [items[i]])[..i];
    }
  }

  lemma LiveFits(items: seq<bytes>, now: int)
    requires ListCodec.Encodable(items)
    ensures ListCodec.Encodable(P.LiveItems(items, now))
  {
  }
}
