/** The storage contract as the built-in memory driver implements it (memdriver.go). */
module Engine {
  import opened Bytes
  import opened Layout
  import opened Sorting

  type Record = (bytes, bytes)

  function KeysBelow(d: Store, prefix: bytes): set<bytes> {
    set sk <- d | prefix <= sk
  }

  ghost function RecordsOf(d: Store, keys: seq<bytes>): (r: seq<Record>)
    requires forall sk <- keys :: sk in d
    ensures |r| == |keys| && forall i :: 0 <= i < |r| ==> r[i] == (keys[i], d[keys[i]])
  {
    seq(|keys|, i requires 0 <= i < |keys| => (keys[i], d[keys[i]]))
  }

  /** The snapshot a prefix scan replays: every record below the prefix, once, in key order. */
  ghost function Scan(d: Store, prefix: bytes): (r: seq<Record>)
    ensures |r| == |KeysBelow(d, prefix)|
  {
    var keys := Listing(KeysBelow(d, prefix));
    ListingMembers(KeysBelow(d, prefix));
    RecordsOf(d, keys)
  }

  /** A scan visits exactly the records below the prefix, each once, in the byte order of keys. */
  lemma ScanIsExact(d: Store, prefix: bytes)
    ensures var r := Scan(d, prefix);
            && (forall i :: 0 <= i < |r| ==> prefix <= r[i].0 && r[i].0 in d && r[i].1 == d[r[i].0])
            && (forall sk <- d :: prefix <= sk ==> exists i :: 0 <= i < |r| && r[i] == (sk, d[sk]))
            && (forall i, j :: 0 <= i < j < |r| ==> r[i].0 != r[j].0 && Less(r[i].0, r[j].0))
  {
    var keys := Listing(KeysBelow(d, prefix));
    ListingMembers(KeysBelow(d, prefix));
    var r := Scan(d, prefix);
    forall sk <- d | prefix <= sk ensures exists i :: 0 <= i < |r| && r[i] == (sk, d[sk]) {
      assert sk in keys;
      var i :| 0 <= i < |keys| && keys[i] == sk;
      assert r[i] == (sk, d[sk]);
    }
  }

  class MemoryEngine {
    var data: Store

    constructor ()
      ensures data == map[]
    {
      data := map[];
    }

    method Get(sk: bytes) returns (r: Option<bytes>)
      ensures r == if sk in data then Some(data[sk]) else None
    {
      if sk in data { return Some(data[sk]); }
      return None;
    }

    method Put(sk: bytes, value: bytes)
      modifies this
      ensures data == old(data)[sk := value]
    {
      data := data[sk := value];
    }

    method Delete(sk: bytes)
      modifies this
      ensures data == old(data) - {sk}
    {
      data := data - {sk};
    }

    method ScanPrefix(prefix: bytes) returns (items: seq<Record>)
      ensures items == Scan(data, prefix)
    {
      var keys := ListSet(KeysBelow(data, prefix));
      ListingMembers(KeysBelow(data, prefix));
      items := [];
      for i := 0 to |keys|
        invariant |items| == i && forall j :: 0 <= j < i ==> items[j] == (keys[j], data[keys[j]])
      {
        items := items + [(keys[i], data[keys[i]])];
      }
      assert items == RecordsOf(data, keys);
    }
  }
}
