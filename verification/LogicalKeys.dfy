/** deleteLogicalKey (logical_key.go): remove every record of one logical key, and nothing else. */
module LogicalKeys {
  import opened Bytes
  import opened Keys
  import opened Layout
  import opened Engine

  function Without(d: Store, k: bytes): Store {
    map sk <- d | !Owns(k, sk) :: d[sk]
  }

  /** The records of one engine step that concern `k` alone. */
  ghost predicate Stepped(d: Store, d': Store, k: key, b: Bundle) {
    WellFormed(d') && Frame(d, d', k) && At(d', k) == b
  }

  lemma SteppedTwice(d: Store, d1: Store, d2: Store, k: key, b1: Bundle, b2: Bundle)
    requires Stepped(d, d1, k, b1) && Stepped(d1, d2, k, b2)
    ensures Stepped(d, d2, k, b2)
  {
    hide At, WellFormed;
  }

  lemma SteppedNot(d: Store, k: key)
    requires WellFormed(d)
    ensures Stepped(d, d, k, At(d, k))
  {
  }

  lemma WithoutLeavesNothing(d: Store, k: key)
    requires WellFormed(d)
    ensures Stepped(d, Without(d, k), k, EMPTY)
    ensures At(d, k) != EMPTY <==> exists sk <- d :: Owns(k, sk)
  {
    assert Plain(d) ==> Plain(Without(d, k));
    FrameByRecords(d, Without(d, k), k);
    EmptyIffNoRecord(Without(d, k), k);
    EmptyIffNoRecord(d, k);
  }

  /** The records deleteLogicalKey collects: three exact lookups, then two prefix scans. */
  method CollectOwned(engine: MemoryEngine, k: bytes) returns (keys: seq<bytes>)
    ensures forall i :: 0 <= i < |keys| ==> keys[i] in engine.data && Owns(k, keys[i])
    ensures forall sk <- engine.data :: Owns(k, sk) ==> sk in keys
  {
    keys := [];
    var exact := [ValueKey(k), ListKey(k), TtlKey(k)];
    for i := 0 to 3
      invariant forall j :: 0 <= j < |keys| ==> keys[j] in engine.data && Owns(k, keys[j])
      invariant forall j :: 0 <= j < i && exact[j] in engine.data ==> exact[j] in keys
    {
      var found := engine.Get(exact[i]);
      if found.Some? { keys := keys + [exact[i]]; }
    }
    assert exact[0] == ValueKey(k) && exact[1] == ListKey(k) && exact[2] == TtlKey(k);
    var hash := KeysOfScan(engine, HashPrefix(k));
    var members := KeysOfScan(engine, SetPrefix(k));
    keys := keys + hash + members;
  }

  method KeysOfScan(engine: MemoryEngine, prefix: bytes) returns (keys: seq<bytes>)
    ensures forall i :: 0 <= i < |keys| ==> keys[i] in engine.data && prefix <= keys[i]
    ensures forall sk <- engine.data :: prefix <= sk ==> sk in keys
  {
    var items := engine.ScanPrefix(prefix);
    ScanIsExact(engine.data, prefix);
    keys := [];
    for i := 0 to |items|
      invariant |keys| == i && forall j :: 0 <= j < i ==> keys[j] == items[j].0
    {
      keys := keys + [items[i].0];
    }
    forall sk <- engine.data | prefix <= sk ensures sk in keys {
      var i :| 0 <= i < |items| && items[i] == (sk, engine.data[sk]);
      assert keys[i] == sk;
    }
  }

  /** Exactly the records that `k` owns disappear; the result says whether there was one. */
  method DeleteLogicalKey(engine: MemoryEngine, k: bytes) returns (existed: bool)
    modifies engine
    ensures engine.data == Without(old(engine.data), k)
    ensures existed <==> exists sk <- old(engine.data) :: Owns(k, sk)
  {
    var keys := CollectOwned(engine, k);
    for i := 0 to |keys|
      invariant forall sk <- engine.data ::
                  sk in old(engine.data) && engine.data[sk] == old(engine.data)[sk] && sk !in keys[..i]
      invariant forall sk <- old(engine.data) :: sk in engine.data || sk in keys[..i]
    {
      engine.Delete(keys[i]);
      assert keys[..i + 1] == keys[..i] + [keys[i]];
    }
    assert keys[..|keys|] == keys;
    if keys != [] { assert Owns(k, keys[0]); }
    return keys != [];
  }

  /** In terms of logical keys, for keys under 2^32 bytes: the footprint is exact. */
  lemma FootprintIsExact(d: Store, k: key)
    ensures forall sk <- d :: sk in Without(d, k) <==> LogicalKey(sk) != Some(k)
    ensures forall sk <- Without(d, k) :: sk in d && Without(d, k)[sk] == d[sk]
  {
    forall sk <- d ensures sk in Without(d, k) <==> LogicalKey(sk) != Some(k) {
      OwnsIffLogicalKey(k, sk);
    }
  }
}
