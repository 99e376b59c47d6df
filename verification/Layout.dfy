/** Reading the flat store one logical key at a time: `At(d, k)` gathers every record of `k`
    into a bundle, and the lemmas say how one engine write or delete changes bundles. */
module Layout {
  import opened Bytes
  import opened Keys
  import opened Envelope
  import ListCodec

  type Store = map<bytes, bytes>

  datatype Bundle = Bundle(
    value: Option<Env>,
    fields: map<bytes, Env>,
    members: set<bytes>,
    items: Option<seq<bytes>>,
    ttl: Option<int64>)

  const EMPTY: Bundle := Bundle(None, map[], {}, None, None)

  /** Records every decoder accepts; the fallbacks below are never taken on them. */
  predicate RecordOk(sk: bytes, data: bytes) {
    match LogicalKey(sk)
    case None => true
    case Some(k) =>
      && |k| < TWO32
      && (sk[0] == KIND_VALUE || sk[0] == KIND_HASH ==> Unmarshal(data).Some?)
      && (sk[0] == KIND_LIST ==> ListCodec.DecodeList(data).Some?)
      && (sk[0] == KIND_TTL ==> |data| == 8)
  }

  predicate WellFormed(d: Store) {
    forall sk <- d :: RecordOk(sk, d[sk])
  }

  function ToEnv(data: bytes): Env {
    match Unmarshal(data) case Some(e) => e case None => Env(0, [], [])
  }

  function ToItems(data: bytes): seq<bytes> {
    match ListCodec.DecodeList(data) case Some(items) => items case None => []
  }

  function ToDeadline(data: bytes): int64 {
    if |data| == 8 then FromWord64(data) else 0
  }

  /** What follows `prefix` in the keys that start with it. */
  function Suffixes(d: Store, prefix: bytes): (s: set<bytes>)
    ensures forall x :: x in s <==> prefix + x in d
  {
    var s := set sk | sk in d && prefix <= sk :: sk[|prefix|..];
    assert forall x :: prefix + x in d ==> prefix <= prefix + x && (prefix + x)[|prefix|..] == x;
    assert forall sk | sk in d && prefix <= sk :: prefix + sk[|prefix|..] == sk;
    s
  }

  /** The envelopes below `prefix`, by what follows it. */
  function FieldMap(d: Store, prefix: bytes): map<bytes, Env> {
    map f <- Suffixes(d, prefix) :: ToEnv(d[prefix + f])
  }

  function At(d: Store, k: key): Bundle {
    Bundle(
      if ValueKey(k) in d then Some(ToEnv(d[ValueKey(k)])) else None,
      FieldMap(d, HashPrefix(k)),
      Suffixes(d, SetPrefix(k)),
      if ListKey(k) in d then Some(ToItems(d[ListKey(k)])) else None,
      if TtlKey(k) in d then Some(ToDeadline(d[TtlKey(k)])) else None)
  }

  /** What the commands write and nothing else does: a hash field has no deadline of its own,
      and a set member is too short a record to pass for an envelope. */
  predicate PlainRecord(sk: bytes, data: bytes) {
    |sk| > 0 ==> (sk[0] == KIND_HASH ==> ToEnv(data).expiresAt <= 0) && (sk[0] == KIND_SET ==> |data| < HEADER_SIZE)
  }

  ghost predicate Plain(d: Store) {
    forall sk <- d :: PlainRecord(sk, d[sk])
  }

  /** Only records of `k` may differ, and a plain store stays plain. */
  ghost predicate Frame(d: Store, d': Store, k: key) {
    && (forall k2: key :: k2 != k ==> At(d', k2) == At(d, k2))
    && (Plain(d) ==> Plain(d'))
  }

  /** Two stores hold the same record, or none, under `sk`. */
  predicate Agree(d: Store, d': Store, sk: bytes) {
    (sk in d <==> sk in d') && (sk in d ==> d[sk] == d'[sk])
  }

  lemma SamePrefixRecords(d: Store, d': Store, prefix: bytes)
    requires forall f :: Agree(d, d', prefix + f)
    ensures Suffixes(d, prefix) == Suffixes(d', prefix) && FieldMap(d, prefix) == FieldMap(d', prefix)
  {
    assert forall f :: f in Suffixes(d, prefix) <==> f in Suffixes(d', prefix) by {
      assert forall f :: Agree(d, d', prefix + f);
    }
  }

  lemma PutBelowPrefix(d: Store, prefix: bytes, f: bytes, data: bytes)
    ensures var d' := d[prefix + f := data];
            && Suffixes(d', prefix) == Suffixes(d, prefix) + {f}
            && FieldMap(d', prefix) == FieldMap(d, prefix)[f := ToEnv(data)]
  {
    SameSuffix(prefix, f);
    assert Suffixes(d[prefix + f := data], prefix) == Suffixes(d, prefix) + {f};
  }

  lemma DeleteBelowPrefix(d: Store, prefix: bytes, f: bytes)
    ensures var d' := d - {prefix + f};
            && Suffixes(d', prefix) == Suffixes(d, prefix) - {f}
            && FieldMap(d', prefix) == FieldMap(d, prefix) - {f}
  {
    SameSuffix(prefix, f);
    assert Suffixes(d - {prefix + f}, prefix) == Suffixes(d, prefix) - {f};
  }

  /** Agreeing on every record of `k` means equal bundles. */
  lemma AtDependsOnOwned(d: Store, d': Store, k: key)
    requires forall sk :: Owns(k, sk) ==> Agree(d, d', sk)
    ensures At(d, k) == At(d', k)
  {
    var hash, members := HashPrefix(k), SetPrefix(k);
    forall f ensures Agree(d, d', hash + f) && Agree(d, d', members + f) {
      assert Owns(k, hash + f) && Owns(k, members + f);
    }
    SamePrefixRecords(d, d', hash);
    SamePrefixRecords(d, d', members);
    assert Owns(k, ValueKey(k)) && Owns(k, ListKey(k)) && Owns(k, TtlKey(k));
  }

  /** Agreeing on every record that is not `k`'s means only `k`'s bundle can differ. */
  lemma FrameByRecords(d: Store, d': Store, k: key)
    requires forall sk :: !Owns(k, sk) ==> Agree(d, d', sk)
    requires Plain(d) ==> Plain(d')
    ensures Frame(d, d', k)
  {
    hide Plain;
    forall k2: key | k2 != k
      ensures At(d', k2) == At(d, k2)
    {
      forall sk | Owns(k2, sk)
        ensures !Owns(k, sk)
      {
        if Owns(k, sk) { OwnersAreDisjoint(k, k2, sk); }
      }
      AtDependsOnOwned(d, d', k2);
    }
  }

  lemma PutKeepsPlain(d: Store, sk: bytes, data: bytes)
    requires PlainRecord(sk, data)
    ensures Plain(d) ==> Plain(d[sk := data])
  {
  }

  lemma DeleteKeepsPlain(d: Store, sk: bytes)
    ensures Plain(d) ==> Plain(d - {sk})
  {
  }

  lemma PutValue(d: Store, k: key, data: bytes)
    requires WellFormed(d) && Unmarshal(data).Some?
    ensures var d' := d[ValueKey(k) := data];
            && WellFormed(d') && Frame(d, d', k)
            && At(d', k) == At(d, k).(value := Some(ToEnv(data)))
  {
    var d' := d[ValueKey(k) := data];
    PutKeepsPlain(d, ValueKey(k), data);
    FrameByRecords(d, d', k);
    Others(d, d', k, ValueKey(k));
  }

  lemma DeleteValue(d: Store, k: key)
    requires WellFormed(d)
    ensures var d' := d - {ValueKey(k)};
            && WellFormed(d') && Frame(d, d', k) && At(d', k) == At(d, k).(value := None)
  {
    var d' := d - {ValueKey(k)};
    DeleteKeepsPlain(d, ValueKey(k));
    FrameByRecords(d, d', k);
    Others(d, d', k, ValueKey(k));
  }

  lemma PutList(d: Store, k: key, data: bytes)
    requires WellFormed(d) && ListCodec.DecodeList(data).Some?
    ensures var d' := d[ListKey(k) := data];
            && WellFormed(d') && Frame(d, d', k)
            && At(d', k) == At(d, k).(items := Some(ToItems(data)))
  {
    var d' := d[ListKey(k) := data];
    PutKeepsPlain(d, ListKey(k), data);
    FrameByRecords(d, d', k);
    Others(d, d', k, ListKey(k));
  }

  lemma PutTtl(d: Store, k: key, data: bytes)
    requires WellFormed(d) && |data| == 8
    ensures var d' := d[TtlKey(k) := data];
            && WellFormed(d') && Frame(d, d', k)
            && At(d', k) == At(d, k).(ttl := Some(FromWord64(data)))
  {
    var d' := d[TtlKey(k) := data];
    PutKeepsPlain(d, TtlKey(k), data);
    FrameByRecords(d, d', k);
    Others(d, d', k, TtlKey(k));
  }

  lemma DeleteTtl(d: Store, k: key)
    requires WellFormed(d)
    ensures var d' := d - {TtlKey(k)};
            && WellFormed(d') && Frame(d, d', k) && At(d', k) == At(d, k).(ttl := None)
  {
    var d' := d - {TtlKey(k)};
    DeleteKeepsPlain(d, TtlKey(k));
    FrameByRecords(d, d', k);
    Others(d, d', k, TtlKey(k));
  }

  lemma PutField(d: Store, k: key, f: bytes, data: bytes)
    requires WellFormed(d) && Unmarshal(data).Some? && Unmarshal(data).value.expiresAt <= 0
    ensures var d' := d[HashKey(k, f) := data];
            && WellFormed(d') && Frame(d, d', k)
            && At(d', k) == At(d, k).(fields := At(d, k).fields[f := ToEnv(data)])
  {
    var d' := d[HashKey(k, f) := data];
    NamespacedLogicalKey(KIND_HASH, k, f);
    PutKeepsPlain(d, HashKey(k, f), data);
    FrameByRecords(d, d', k);
    Others(d, d', k, HashKey(k, f));
    PutBelowPrefix(d, HashPrefix(k), f, data);
  }

  lemma DeleteField(d: Store, k: key, f: bytes)
    requires WellFormed(d)
    ensures var d' := d - {HashKey(k, f)};
            && WellFormed(d') && Frame(d, d', k)
            && At(d', k) == At(d, k).(fields := At(d, k).fields - {f})
  {
    var d' := d - {HashKey(k, f)};
    DeleteKeepsPlain(d, HashKey(k, f));
    FrameByRecords(d, d', k);
    Others(d, d', k, HashKey(k, f));
    DeleteBelowPrefix(d, HashPrefix(k), f);
  }

  lemma PutMember(d: Store, k: key, m: bytes, data: bytes)
    requires WellFormed(d) && |data| < HEADER_SIZE
    ensures var d' := d[SetKey(k, m) := data];
            && WellFormed(d') && Frame(d, d', k)
            && At(d', k) == At(d, k).(members := At(d, k).members + {m})
  {
    var d' := d[SetKey(k, m) := data];
    assert WellFormed(d') by { NamespacedLogicalKey(KIND_SET, k, m); }
    PutKeepsPlain(d, SetKey(k, m), data);
    FrameByRecords(d, d', k);
    Others(d, d', k, SetKey(k, m));
    PutBelowPrefix(d, SetPrefix(k), m, data);
  }

  lemma DeleteMember(d: Store, k: key, m: bytes)
    requires WellFormed(d)
    ensures var d' := d - {SetKey(k, m)};
            && WellFormed(d') && Frame(d, d', k)
            && At(d', k) == At(d, k).(members := At(d, k).members - {m})
  {
    var d' := d - {SetKey(k, m)};
    DeleteKeepsPlain(d, SetKey(k, m));
    FrameByRecords(d, d', k);
    Others(d, d', k, SetKey(k, m));
    DeleteBelowPrefix(d, SetPrefix(k), m);
  }

  lemma SameSuffix(prefix: bytes, x: bytes)
    ensures forall y {:trigger prefix + y} :: prefix + y == prefix + x ==> y == x
  {
    forall y | prefix + y == prefix + x ensures y == x {
      assert (prefix + y)[|prefix|..] == y && (prefix + x)[|prefix|..] == x;
    }
  }

  /** Changing one record leaves the other record families of its key alone. */
  lemma Others(d: Store, d': Store, k: key, changed: bytes)
    requires |changed| > 0
    requires forall sk :: sk != changed ==> Agree(d, d', sk)
    ensures changed[0] != KIND_VALUE ==> At(d', k).value == At(d, k).value
    ensures changed[0] != KIND_LIST ==> At(d', k).items == At(d, k).items
    ensures changed[0] != KIND_TTL ==> At(d', k).ttl == At(d, k).ttl
    ensures changed[0] != KIND_HASH ==> At(d', k).fields == At(d, k).fields
    ensures changed[0] != KIND_SET ==> At(d', k).members == At(d, k).members
  {
    OtherPrefix(d, d', HashPrefix(k), changed);
    OtherPrefix(d, d', SetPrefix(k), changed);
    if changed[0] != KIND_VALUE { assert Agree(d, d', ValueKey(k)); }
    if changed[0] != KIND_LIST { assert Agree(d, d', ListKey(k)); }
    if changed[0] != KIND_TTL { assert Agree(d, d', TtlKey(k)); }
  }

  lemma OtherPrefix(d: Store, d': Store, prefix: bytes, changed: bytes)
    requires |prefix| > 0 && |changed| > 0
    requires forall sk :: sk != changed ==> Agree(d, d', sk)
    ensures prefix[0] != changed[0] ==>
        Suffixes(d, prefix) == Suffixes(d', prefix) && FieldMap(d, prefix) == FieldMap(d', prefix)
  {
    if prefix[0] != changed[0] {
      forall f ensures Agree(d, d', prefix + f) {
        assert (prefix + f)[0] == prefix[0];
      }
      SamePrefixRecords(d, d', prefix);
    }
  }

  lemma NothingBelowPrefix(d: Store, prefix: bytes)
    ensures Suffixes(d, prefix) == {} <==> forall sk :: prefix <= sk ==> sk !in d
    ensures FieldMap(d, prefix) == map[] <==> Suffixes(d, prefix) == {}
  {
    if Suffixes(d, prefix) == {} {
      forall sk | prefix <= sk ensures sk !in d {
        assert prefix + sk[|prefix|..] == sk;
        assert sk[|prefix|..] !in Suffixes(d, prefix);
      }
    } else {
      var f :| f in Suffixes(d, prefix);
      assert prefix <= prefix + f;
      assert f in FieldMap(d, prefix);
    }
  }

  /** A key has an empty bundle exactly when it owns no record. */
  lemma EmptyIffNoRecord(d: Store, k: key)
    ensures At(d, k) == EMPTY <==> forall sk :: Owns(k, sk) ==> sk !in d
  {
    NothingBelowPrefix(d, HashPrefix(k));
    NothingBelowPrefix(d, SetPrefix(k));
    assert Owns(k, ValueKey(k)) && Owns(k, ListKey(k)) && Owns(k, TtlKey(k));
    assert forall sk :: HashPrefix(k) <= sk || SetPrefix(k) <= sk ==> Owns(k, sk);
  }
}
