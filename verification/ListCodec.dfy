/** The list record codec of collections.go; extensions/http/http.go carries a second copy. */
module ListCodec {
  import opened Bytes

  function EncodeItems(items: seq<bytes>): bytes {
    if items == [] then [] else Word32(|items[0]|) + items[0] + EncodeItems(items[1..])
  }

  function EncodeList(items: seq<bytes>): bytes {
    Word32(|items|) + EncodeItems(items)
  }

  /** The decoding loop: `count` length-prefixed items and then the end of the data. */
  function DecodeItems(data: bytes, count: nat): (r: Option<seq<bytes>>)
    ensures r.Some? ==> |r.value| == count && forall i :: 0 <= i < count ==> |r.value[i]| < TWO32
    decreases count
  {
    if count == 0 then if data == [] then Some([]) else None
    else if |data| < 4 then None
    else
      var length := FromWord32(data[..4]);
      if |data| < 4 + length then None
      else match DecodeItems(data[4 + length..], count - 1)
        case None => None
        case Some(rest) => Some([data[4..4 + length]] + rest)
  }

  /** decodeList without its early count check. */
  function DecodeListPlain(data: bytes): Option<seq<bytes>> {
    if |data| < 4 then None else DecodeItems(data[4..], FromWord32(data[..4]))
  }

  function DecodeList(data: bytes): Option<seq<bytes>> {
    if |data| < 4 then None
    else
      var count := FromWord32(data[..4]);
      if count > (|data| - 4) / 4 then None else DecodeItems(data[4..], count)
  }

  predicate Encodable(items: seq<bytes>) {
    |items| < TWO32 && forall i :: 0 <= i < |items| ==> |items[i]| < TWO32
  }

  lemma {:induction false} DecodeNeedsFourBytesEach(data: bytes, count: nat)
    requires DecodeItems(data, count).Some?
    ensures |data| >= 4 * count
    decreases count
  {
    if count > 0 {
      DecodeNeedsFourBytesEach(data[4 + FromWord32(data[..4])..], count - 1);
    }
  }

  /** The early count check rejects nothing the loop would accept. */
  lemma EarlyCountCheckIsHarmless(data: bytes)
    ensures DecodeList(data) == DecodeListPlain(data)
  {
    if DecodeListPlain(data).Some? {
      DecodeNeedsFourBytesEach(data[4..], FromWord32(data[..4]));
    }
  }

  lemma {:induction false} DecodeItemsInverts(items: seq<bytes>)
    requires Encodable(items)
    ensures DecodeItems(EncodeItems(items), |items|) == Some(items)
    decreases |items|
  {
    if items != [] {
      var data, n := EncodeItems(items), |items[0]|;
      Word32RoundTrip(n);
      assert data[..4] == Word32(n);
      assert data[4..4 + n] == items[0];
      assert data[4 + n..] == EncodeItems(items[1..]);
      DecodeItemsInverts(items[1..]);
      assert items == [items[0]] + items[1..];
    }
  }

  /** Exactly the lists whose count and item lengths fit 32 bits survive the round trip;
      past that the stored prefixes are truncated and the list does not come back. */
  lemma ListRoundTrip(items: seq<bytes>)
    ensures DecodeList(EncodeList(items)) == Some(items) <==> Encodable(items)
  {
    var data := EncodeList(items);
    EarlyCountCheckIsHarmless(data);
    assert data[..4] == Word32(|items|) && data[4..] == EncodeItems(items);
    if Encodable(items) {
      Word32RoundTrip(|items|);
      DecodeItemsInverts(items);
    }
  }

  lemma {:induction false} EncodeItemsInverts(data: bytes, count: nat)
    requires DecodeItems(data, count).Some?
    ensures EncodeItems(DecodeItems(data, count).value) == data
    decreases count
  {
    if count > 0 {
      var length := FromWord32(data[..4]);
      var rest := DecodeItems(data[4 + length..], count - 1).value;
      EncodeItemsInverts(data[4 + length..], count - 1);
      FromWord32RoundTrip(data[..4]);
      assert DecodeItems(data, count).value[1..] == rest;
      assert data == data[..4] + data[4..4 + length] + data[4 + length..];
    }
  }

  /** A list one item too long, of the shortest items there are. */
  lemma LongListIsLost()
    ensures var items: seq<bytes> := seq(TWO32, _ => []); DecodeList(EncodeList(items)) != Some(items)
  {
    var items: seq<bytes> := seq(TWO32, _ => []);
    ListRoundTrip(items);
  }

  /** Every accepted list record is the encoding of the list it decodes to. */
  lemma DecodeListRoundTrip(data: bytes)
    requires DecodeList(data).Some?
    ensures EncodeList(DecodeList(data).value) == data
  {
    EncodeItemsInverts(data[4..], FromWord32(data[..4]));
    FromWord32RoundTrip(data[..4]);
    assert data == data[..4] + data[4..];
  }

  lemma {:induction false} EncodeItemsAppend(items: seq<bytes>, item: bytes)
    ensures EncodeItems(items + [item]) == EncodeItems(items) + Word32(|item|) + item
    decreases |items|
  {
    if items == [] {
      assert items + [item] == [item];
      assert EncodeItems([item]) == Word32(|item|) + item + EncodeItems([]);
    } else {
      EncodeItemsAppend(items[1..], item);
      assert (items + [item])[1..] == items[1..] + [item];
    }
  }

  method EncodedSize(items: seq<bytes>) returns (size: nat)
    ensures size == |EncodeList(items)|
  {
    size := 4;
    for i := 0 to |items|
      invariant size == 4 + |EncodeItems(items[..i])|
    {
      EncodeItemsAppend(items[..i], items[i]);
      assert items[..i + 1] == items[..i] + [items[i]];
      size := size + 4 + |items[i]|;
    }
    assert items[..|items|] == items;
  }

  /** `copy(result[offset:], part)` */
  method CopyAt(result: array<byte>, offset: nat, part: bytes)
    requires offset + |part| <= result.Length
    modifies result
    ensures result[..offset + |part|] == old(result[..offset]) + part
  {
    forall i | 0 <= i < |part| { result[offset + i] := part[i]; }
  }

  lemma Reassociate(a: bytes, b: bytes, c: bytes)
    ensures a + (b + c) == a + b + c
  {
  }

  lemma {:induction false} EncodeItemsSplit(left: seq<bytes>, right: seq<bytes>)
    ensures EncodeItems(left + right) == EncodeItems(left) + EncodeItems(right)
    decreases |left|
  {
    if left == [] {
      assert left + right == right;
    } else {
      EncodeItemsSplit(left[1..], right);
      var head, l, r := Word32(|left[0]|) + left[0], EncodeItems(left[1..]), EncodeItems(right);
      assert (left + right)[1..] == left[1..] + right;
      assert EncodeItems(left + right) == head + EncodeItems(left[1..] + right);
      Reassociate(head, l, r);
    }
  }

  /** PutUint32(result[lo:hi], n): the first four bytes of the slice, however long it is. */
  method PutUint32(result: array<byte>, lo: nat, hi: nat, n: nat)
    requires lo + 4 <= hi <= result.Length
    modifies result
    ensures result[..lo + 4] == old(result[..lo]) + Word32(n)
  {
    CopyAt(result, lo, Word32(n));
  }

  /** What the first `i + 1` items take, within what all of them take. */
  lemma OneMoreItem(items: seq<bytes>, i: nat)
    requires i < |items|
    ensures EncodeItems(items[..i + 1]) == EncodeItems(items[..i]) + Word32(|items[i]|) + items[i]
    ensures |EncodeItems(items[..i + 1])| <= |EncodeItems(items)|
  {
    hide EncodeItems;
    EncodeItemsAppend(items[..i], items[i]);
    assert items[..i + 1] == items[..i] + [items[i]];
    EncodeItemsSplit(items[..i + 1], items[i + 1..]);
    assert items[..i + 1] + items[i + 1..] == items;
  }

  lemma AppendItem(header: bytes, front: bytes, length: bytes, item: bytes)
    ensures header + front + length + item == header + (front + length + item)
  {
  }

  /** encodeList sizes one buffer, then fills it by a running offset. */
  method FillList(items: seq<bytes>) returns (result: array<byte>)
    ensures fresh(result) && result[..] == EncodeList(items)
  {
    var size := EncodedSize(items);
    result := new byte[size];
    PutUint32(result, 0, 4, |items|);
    var offset := 4;
    assert result[..4] == Word32(|items|) + EncodeItems(items[..0]);
    hide EncodeItems;
    for i := 0 to |items|
      invariant fresh(result) && result.Length == size == 4 + |EncodeItems(items)|
      invariant offset == 4 + |EncodeItems(items[..i])| <= size
      invariant result[..offset] == Word32(|items|) + EncodeItems(items[..i])
    {
      OneMoreItem(items, i);
      PutUint32(result, offset, offset + 4, |items[i]|);
      CopyAt(result, offset + 4, items[i]);
      AppendItem(Word32(|items|), EncodeItems(items[..i]), Word32(|items[i]|), items[i]);
      offset := offset + 4 + |items[i]|;
    }
    assert items[..|items|] == items;
    assert result[..] == result[..offset];
  }

  /** The copy of encodeList in http.go hands PutUint32 the whole rest of the buffer. */
  method FillListHttp(items: seq<bytes>) returns (result: array<byte>)
    ensures fresh(result) && result[..] == EncodeList(items)
  {
    var size := EncodedSize(items);
    result := new byte[size];
    PutUint32(result, 0, 4, |items|);
    var offset := 4;
    assert result[..4] == Word32(|items|) + EncodeItems(items[..0]);
    hide EncodeItems;
    for i := 0 to |items|
      invariant fresh(result) && result.Length == size == 4 + |EncodeItems(items)|
      invariant offset == 4 + |EncodeItems(items[..i])| <= size
      invariant result[..offset] == Word32(|items|) + EncodeItems(items[..i])
    {
      OneMoreItem(items, i);
      PutUint32(result, offset, size, |items[i]|);
      CopyAt(result, offset + 4, items[i]);
      AppendItem(Word32(|items|), EncodeItems(items[..i]), Word32(|items[i]|), items[i]);
      offset := offset + 4 + |items[i]|;
    }
    assert items[..|items|] == items;
    assert result[..] == result[..offset];
  }

  /** decodeList advances an offset through the data, collecting items. */
  method ScanList(data: bytes) returns (r: Option<seq<bytes>>)
    ensures r == DecodeList(data)
  {
    if |data| < 4 { return None; }
    var count := FromWord32(data[..4]);
    if count > (|data| - 4) / 4 { return None; }
    var items: seq<bytes> := [];
    var offset := 4;
    JoinedNil(DecodeItems(data[4..], count));
    for i := 0 to count
      invariant 4 <= offset <= |data|
      invariant |items| == i
      invariant Joined(items, DecodeItems(data[offset..], count - i)) == DecodeList(data)
    {
      if offset + 4 > |data| { return None; }
      assert data[offset..][..4] == data[offset..offset + 4];
      var length := FromWord32(data[offset..offset + 4]);
      offset := offset + 4;
      if offset + length > |data| { return None; }
      assert data[offset - 4..][4 + length..] == data[offset + length..];
      assert data[offset - 4..][4..4 + length] == data[offset..offset + length];
      JoinedStep(items, data[offset..offset + length], DecodeItems(data[offset + length..], count - i - 1));
      items := items + [data[offset..offset + length]];
      offset := offset + length;
    }
    if offset != |data| { return None; }
    assert items + [] == items;
    return Some(items);
  }

  ghost function Joined(done: seq<bytes>, rest: Option<seq<bytes>>): Option<seq<bytes>> {
    match rest case None => None case Some(items) => Some(done + items)
  }

  lemma JoinedNil(rest: Option<seq<bytes>>)
    ensures Joined([], rest) == rest
  {
    if rest.Some? {
      assert [] + rest.value == rest.value;
    }
  }

  lemma JoinedStep(done: seq<bytes>, item: bytes, rest: Option<seq<bytes>>)
    ensures Joined(done + [item], rest) == Joined(done, Joined([item], rest))
  {
    if rest.Some? {
      assert done + [item] + rest.value == done + ([item] + rest.value);
    }
  }
}
