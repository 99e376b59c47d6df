/** Storage-key layout (keys.go): one logical key owns a value record, a list record, a
    collection-TTL record, and every record below its hash and set namespace prefixes. */
module Keys {
  import opened Bytes

  const KIND_VALUE: byte := 1
  const KIND_HASH: byte := 2
  const KIND_SET: byte := 3
  const KIND_LIST: byte := 4
  const KIND_TTL: byte := 5

  /** Logical keys whose length survives the uint32 conversion in a namespace prefix. */
  type key = b: bytes | |b| < TWO32 witness []

  function ValueKey(k: bytes): bytes { [KIND_VALUE] + k }
  function ListKey(k: bytes): bytes { [KIND_LIST] + k }
  function TtlKey(k: bytes): bytes { [KIND_TTL] + k }

  function NamespacePrefix(kind: byte, ns: bytes): (p: bytes)
    ensures |p| == 5 + |ns| && p[0] == kind
  {
    [kind] + Word32(|ns|) + ns
  }

  function HashPrefix(k: bytes): bytes { NamespacePrefix(KIND_HASH, k) }
  function SetPrefix(k: bytes): bytes { NamespacePrefix(KIND_SET, k) }
  function HashKey(k: bytes, field: bytes): bytes { HashPrefix(k) + field }
  function SetKey(k: bytes, member: bytes): bytes { SetPrefix(k) + member }

  function LogicalKey(sk: bytes): Option<bytes> {
    if |sk| == 0 then None
    else if sk[0] == KIND_VALUE || sk[0] == KIND_LIST || sk[0] == KIND_TTL then Some(sk[1..])
    else if sk[0] == KIND_HASH || sk[0] == KIND_SET then
      if |sk| < 5 then None
      else
        var length := FromWord32(sk[1..5]);
        if |sk| < 5 + length then None else Some(sk[5..5 + length])
    else None
  }

  /** The records deleteLogicalKey looks for: three exact keys and two prefixes. */
  predicate Owns(k: bytes, sk: bytes) {
    || sk == ValueKey(k) || sk == ListKey(k) || sk == TtlKey(k)
    || HashPrefix(k) <= sk || SetPrefix(k) <= sk
  }

  /** namespacePrefix writes its result into a fresh buffer, region by region. */
  method FillNamespacePrefix(kind: byte, ns: bytes) returns (result: array<byte>)
    ensures fresh(result) && result[..] == NamespacePrefix(kind, ns)
  {
    result := new byte[5 + |ns|];
    result[0] := kind;
    var length := Word32(|ns|);
    forall i | 0 <= i < 4 { result[1 + i] := length[i]; }
    forall i | 0 <= i < |ns| { result[5 + i] := ns[i]; }
  }

  lemma PrefixParts(kind: byte, ns: bytes, tail: bytes)
    ensures (NamespacePrefix(kind, ns) + tail)[0] == kind
    ensures (NamespacePrefix(kind, ns) + tail)[1..5] == Word32(|ns|)
    ensures (NamespacePrefix(kind, ns) + tail)[5..5 + |ns|] == ns
  {
  }

  /** A namespaced record names its namespace exactly when the length fits 32 bits. */
  lemma NamespacedLogicalKey(kind: byte, ns: bytes, member: bytes)
    requires kind == KIND_HASH || kind == KIND_SET
    ensures LogicalKey(NamespacePrefix(kind, ns) + member) == Some(ns) <==> |ns| < TWO32
  {
    PrefixParts(kind, ns, member);
    if |ns| < TWO32 { Word32RoundTrip(|ns|); }
  }

  /** A key of 2^32 bytes: its hash fields name another logical key. */
  lemma LongKeyIsLost(f: bytes)
    ensures var k := seq(TWO32, _ => 0 as byte); LogicalKey(HashKey(k, f)) != Some(k)
  {
    NamespacedLogicalKey(KIND_HASH, seq(TWO32, _ => 0 as byte), f);
  }

  /** Exact footprint: below 2^32 bytes the lookups of deleteLogicalKey cover exactly the
      records whose logical key is `k`; sibling keys that extend `k` are not covered. */
  lemma OwnsIffLogicalKey(k: key, sk: bytes)
    ensures Owns(k, sk) <==> LogicalKey(sk) == Some(k)
  {
    if HashPrefix(k) <= sk {
      NamespacedLogicalKey(KIND_HASH, k, sk[|HashPrefix(k)|..]);
      assert HashPrefix(k) + sk[|HashPrefix(k)|..] == sk;
    } else if SetPrefix(k) <= sk {
      NamespacedLogicalKey(KIND_SET, k, sk[|SetPrefix(k)|..]);
      assert SetPrefix(k) + sk[|SetPrefix(k)|..] == sk;
    }
    if LogicalKey(sk) == Some(k) && (sk[0] == KIND_HASH || sk[0] == KIND_SET) {
      FromWord32RoundTrip(sk[1..5]);
      assert sk[..5 + |k|] == [sk[0]] + sk[1..5] + sk[5..5 + |k|] == NamespacePrefix(sk[0], k);
    }
  }

  /** Distinct logical keys own disjoint records. */
  lemma OwnersAreDisjoint(k: key, k2: key, sk: bytes)
    requires Owns(k, sk) && Owns(k2, sk)
    ensures k == k2
  {
    OwnsIffLogicalKey(k, sk);
    OwnsIffLogicalKey(k2, sk);
  }

  /** The five record families of one key never meet. */
  lemma FamiliesAreDisjoint(k: key, sk: bytes)
    ensures HashPrefix(k) <= sk ==> |sk| > 0 && sk[0] == KIND_HASH
    ensures SetPrefix(k) <= sk ==> |sk| > 0 && sk[0] == KIND_SET
    ensures ValueKey(k)[0] == KIND_VALUE && ListKey(k)[0] == KIND_LIST && TtlKey(k)[0] == KIND_TTL
  {
    assert HashPrefix(k)[0] == KIND_HASH;
    assert SetPrefix(k)[0] == KIND_SET;
  }
}
