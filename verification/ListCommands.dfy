/** List commands of redis_commands.go. */
module ListCommands {
  import opened Bytes
  import opened Keys
  import opened Envelope
  import opened Layout
  import opened Keyspace
  import opened Resp
  import opened LogicalKeys
  import opened RedisStorage
  import opened Effects
  import opened S = CommandSpec
  import ListCodec
  import Decimal
  import Deadline
  import P = Probe
  import M = Meaning

  // ---------------------------------------------------------------- index ranges

  /** normalizeRange: the first and last index to keep, and whether there is one. */
  function NormalizeRange(length: int, start: int, stop: int): (int, int, bool) {
    var start1 := if start < 0 then length + start else start;
    var stop1 := if stop < 0 then length + stop else stop;
    var first := if start1 < 0 then 0 else start1;
    var last := if stop1 >= length then length - 1 else stop1;
    (first, last, length > 0 && first < length && last >= first)
  }

  /** For all 64-bit bounds the sums stay within 64 bits. */
  lemma NormalizeNeverOverflows(length: int64, start: int64, stop: int64)
    requires length >= 0
    ensures start < 0 ==> Deadline.Fits(length + start)
    ensures stop < 0 ==> Deadline.Fits(length + stop)
    ensures var (first, last, _) := NormalizeRange(length, start, stop); Deadline.Fits(first) && Deadline.Fits(last)
  {
  }

  lemma {:induction false} KeepPrefix(items: seq<bytes>, n: nat, start: int, stop: int)
    requires n <= |items|
    ensures var (first, last, ok) := NormalizeRange(|items|, start, stop);
            KeepRange(items, n, start, stop) ==
            if ok && first < n then items[first..if last + 1 < n then last + 1 else n] else []
  {
    var (first, last, ok) := NormalizeRange(|items|, start, stop);
    if n > 0 {
      KeepPrefix(items, n - 1, start, stop);
      assert InRange(n - 1, |items|, start, stop) <==> ok && first <= n - 1 <= last;
      if ok && first < n - 1 < last + 1 {
        assert items[first..n - 1] + [items[n - 1]] == items[first..n];
      }
    }
  }

  /** The normalized range keeps exactly the indices between the bounds. */
  lemma RangeIsExact(items: seq<bytes>, start: int, stop: int)
    ensures var (first, last, ok) := NormalizeRange(|items|, start, stop);
            && (ok ==> 0 <= first <= last < |items|)
            && KeepRange(items, |items|, start, stop) == if ok then items[first..last + 1] else []
  {
    KeepPrefix(items, |items|, start, stop);
  }

  // ---------------------------------------------------------------- items

  lemma PayloadsJoin(a: seq<bytes>, b: seq<bytes>)
    ensures P.Payloads(a + b) == P.Payloads(a) + P.Payloads(b)
  {
  }

  lemma PayloadsSlice(items: seq<bytes>, lo: nat, hi: nat)
    requires lo <= hi <= |items|
    ensures P.Payloads(items[lo..hi]) == P.Payloads(items)[lo..hi]
  {
  }

  lemma ItemsOkSlice(items: seq<bytes>, lo: nat, hi: nat)
    requires lo <= hi <= |items| && P.ItemsOk(items)
    ensures P.ItemsOk(items[lo..hi])
  {
  }

  /** Envelopes without deadlines, however many. */
  predicate Envelopes(items: seq<bytes>) {
    forall i :: 0 <= i < |items| ==>
                  |items[i]| < TWO32 && Unmarshal(items[i]).Some? && ToEnv(items[i]).expiresAt <= 0
  }

  lemma EnvelopesFit(items: seq<bytes>)
    ensures P.ItemsOk(items) <==> Envelopes(items) && |items| < TWO32
    ensures Envelopes(items) ==> (ListCodec.Encodable(items) <==> |items| < TWO32)
  {
  }

  lemma EnvelopesJoin(a: seq<bytes>, b: seq<bytes>)
    requires Envelopes(a) && Envelopes(b)
    ensures Envelopes(a + b)
  {
  }

  /** Encode each pushed value as an envelope without deadline. */
  method EncodeValues(values: seq<Arg>) returns (encoded: array<bytes>)
    ensures fresh(encoded) && Envelopes(encoded[..]) && P.Payloads(encoded[..]) == values
  {
    encoded := new bytes[|values|](_ => []);
    hide Encodes;
    for i := 0 to |values|
      invariant fresh(encoded)
      invariant forall j :: 0 <= j < i ==> Encodes(encoded[j], values[j])
    {
      encoded[i] := EncodeValue(values[i]);
    }
    AllEncode(encoded[..], values);
  }

  method EncodeValue(value: Arg) returns (item: bytes)
    ensures Encodes(item, value)
  {
    var e := Env(0, P.BYTES_CODEC, value);
    MarshalRoundTrip(e);
    return Marshal(e).value;
  }

  predicate Encodes(item: bytes, value: bytes) {
    Unmarshal(item) == Some(Env(0, P.BYTES_CODEC, value)) && |item| < TWO32
  }

  lemma AllEncode(items: seq<bytes>, values: seq<Arg>)
    requires |items| == |values| && forall j :: 0 <= j < |items| ==> Encodes(items[j], values[j])
    ensures Envelopes(items) && P.Payloads(items) == values
  {
    assert forall j :: 0 <= j < |items| ==> Encodes(items[j], values[j]);
  }

  /** The swap loop that reverses the encoded values of LPUSH in place. */
  method ReverseValues(encoded: array<bytes>)
    modifies encoded
    ensures encoded[..] == Reversed(old(encoded[..]))
  {
    var n := encoded.Length;
    for index := 0 to n / 2
      invariant forall k :: 0 <= k < index ==>
          encoded[k] == old(encoded[n - 1 - k]) && encoded[n - 1 - k] == old(encoded[k])
      invariant forall k :: index <= k < n - index ==> encoded[k] == old(encoded[k])
    {
      var other := n - index - 1;
      encoded[index], encoded[other] := encoded[other], encoded[index];
    }
  }

  lemma ReversedItems(items: seq<bytes>)
    requires Envelopes(items)
    ensures Envelopes(Reversed(items)) && P.Payloads(Reversed(items)) == Reversed(P.Payloads(items))
  {
  }

  method Encoded(values: seq<Arg>, left: bool) returns (items: seq<bytes>)
    ensures Envelopes(items) && P.Payloads(items) == if left then Reversed(values) else values
  {
    hide Envelopes, P.Payloads;
    var encoded := EncodeValues(values);
    if left {
      ReversedItems(encoded[..]);
      ReverseValues(encoded);
    }
    items := encoded[..];
  }

  // ---------------------------------------------------------------- commands

  function ListBundle(items: Option<seq<bytes>>, ttl: Option<int64>): Bundle {
    EMPTY.(items := items, ttl := ttl)
  }

  ghost predicate Opened(b: Bundle, r: Lookup<seq<bytes>>, oe: Option<Entry>, now: int) {
    && b == ListBundle(if r.Found? then Some(r.value) else None, b.ttl)
    && b.ttl == DeadlineIn(oe) && !Passed(b.ttl, now) && (r.Missing? <==> oe.None?) && (oe.None? ==> b.ttl.None?)
    && (r.Missing? ==> ListOf(oe) == Missing)
    && (r.Found? ==> r.value != [] && P.ItemsOk(r.value) && ListOf(oe) == Found(P.Payloads(r.value)))
  }

  lemma ListMeans(b: Bundle, now: int)
    requires P.Ok(b)
    ensures var (r, b') := P.ListValues(b, now);
            && M.Kept(b, b', now)
            && (r.WrongType? <==> ListOf(P.Look(b, now)).WrongType?)
            && (!r.WrongType? ==> Opened(b', r, P.Look(b, now), now))
  {
    M.ListValuesMeans(b, now);
    M.PrunedIsKept(b, now);
  }

  method OpenList(db: Database, k: key) returns (r: Lookup<seq<bytes>>)
    requires WellFormed(db.engine.data) && P.Ok(At(db.engine.data, k))
    modifies db.engine
    ensures var oe := P.Look(At(old(db.engine.data), k), db.now);
            && Effect(old(db.engine.data), db.engine.data, k, db.now, oe)
            && (r.WrongType? <==> ListOf(oe).WrongType?)
            && (!r.WrongType? ==> Opened(At(db.engine.data, k), r, oe, db.now))
  {
    hide At, WellFormed, P.Ok, P.Look, P.ListValues, Opened, ListOf;
    ListMeans(At(db.engine.data, k), db.now);
    r := db.ListValues(k);
  }

  method StoreList(db: Database, k: key, items: seq<bytes>, ghost r: Lookup<seq<bytes>>, ghost oe: Option<Entry>)
    requires WellFormed(db.engine.data) && !r.WrongType? && Opened(At(db.engine.data, k), r, oe, db.now)
    requires P.ItemsOk(items)
    modifies db.engine
    ensures Effect(old(db.engine.data), db.engine.data, k, db.now, ListUntil(P.Payloads(items), DeadlineIn(oe)))
    ensures oe.None? ==> At(db.engine.data, k).ttl.None?
  {
    hide At, WellFormed, P.Ok, P.Look, P.Payloads, P.ItemsOk, ListCodec.Encodable;
    M.WriteListMeans(At(db.engine.data, k), items, db.now);
    ItemsEncodable(items);
    db.WriteList(k, items);
  }

  lemma ItemsEncodable(items: seq<bytes>)
    requires P.ItemsOk(items)
    ensures ListCodec.Encodable(items)
  {
  }

  /** Whether a push writes a list at all. */
  predicate Stores(oe: Option<Entry>, onlyIfExists: bool) {
    !ListOf(oe).WrongType? && !(onlyIfExists && oe.None?)
  }

  /** The record of `k` was written for a list with these payloads, and does not decode to it. */
  ghost predicate Truncated(d: Store, k: key, payloads: seq<bytes>) {
    ListKey(k) in d && exists items ::
      && P.Payloads(items) == payloads && d[ListKey(k)] == ListCodec.EncodeList(items)
      && ListCodec.DecodeList(d[ListKey(k)]) != Some(items)
  }

  function AfterPush(oe: Option<Entry>, values: seq<bytes>, left: bool): seq<bytes> {
    if left then Reversed(values) + ItemsIn(oe) else ItemsIn(oe) + values
  }

  /** A list of envelopes written over an opened key: the entry if it fits, a truncated record if not. */
  method StoreAny(db: Database, k: key, items: seq<bytes>, ghost r: Lookup<seq<bytes>>, ghost oe: Option<Entry>)
    requires WellFormed(db.engine.data) && !r.WrongType? && Opened(At(db.engine.data, k), r, oe, db.now)
    requires Envelopes(items)
    modifies db.engine
    ensures |items| < TWO32 ==>
              && Effect(old(db.engine.data), db.engine.data, k, db.now, ListUntil(P.Payloads(items), DeadlineIn(oe)))
              && (oe.None? ==> At(db.engine.data, k).ttl.None?)
    ensures |items| >= TWO32 ==> Truncated(db.engine.data, k, P.Payloads(items))
  {
    hide At, WellFormed, P.Ok, P.Look, P.Payloads, P.ItemsOk, ListCodec.Encodable, Envelopes;
    EnvelopesFit(items);
    ListCodec.ListRoundTrip(items);
    if |items| < TWO32 { M.WriteListMeans(At(db.engine.data, k), items, db.now); }
    db.WriteList(k, items);
  }

  /** redisPushValues. The reply is always the new length; the list is stored if and only if it
      fits its 32-bit count, and past that the record does not give it back. */
  method PushValues(db: Database, k: key, values: seq<Arg>, left: bool, onlyIfExists: bool) returns (r: Resp)
    requires Inv(db.engine.data) && db.now >= 0
    modifies db.engine
    ensures var oe := P.Look(At(old(db.engine.data), k), db.now);
            var out, after := Pushed(oe, values, left, onlyIfExists), AfterPush(oe, values, left);
            && r == out.reply
            && if Stores(oe, onlyIfExists) && |after| >= TWO32 then Truncated(db.engine.data, k, after)
               else Effect(old(db.engine.data), db.engine.data, k, db.now, out.entry)
  {
    hide At, WellFormed, Inv, P.Ok, P.Look, P.Payloads, P.ItemsOk, Reversed, Envelopes, Truncated;
    InvAt(db.engine.data, k);
    ghost var oe := P.Look(At(db.engine.data, k), db.now);
    var found := OpenList(db, k);
    if found.WrongType? { return WrongTypeError(); }
    if onlyIfExists && found.Missing? { return Integer(0); }
    var encoded := Encoded(values, left);
    NoItems();
    var items := if found.Found? then found.value else [];
    EnvelopesFit(items);
    EnvelopesJoin(encoded, items);
    EnvelopesJoin(items, encoded);
    PayloadsJoin(encoded, items);
    PayloadsJoin(items, encoded);
    var after := if left then encoded + items else items + encoded;
    StoreAny(db, k, after, found, oe);
    if found.Missing? { DropTtl(db, k, P.Payloads(after)); }
    return Integer(|after|);
  }

  /** A push that created its list deletes the collection deadline, which is not there. */
  method DropTtl(db: Database, k: key, ghost payloads: seq<bytes>)
    modifies db.engine
    ensures Truncated(old(db.engine.data), k, payloads) ==> Truncated(db.engine.data, k, payloads)
    ensures WellFormed(old(db.engine.data)) && At(old(db.engine.data), k).ttl.None? ==>
              Stepped(old(db.engine.data), db.engine.data, k, At(old(db.engine.data), k))
  {
    hide At, WellFormed;
    ghost var b := At(db.engine.data, k);
    assert b.ttl.None? ==> b.(ttl := None) == b;
    db.DeleteTtl(k);
    assert ListKey(k)[0] != TtlKey(k)[0];
  }

  lemma NoItems()
    ensures P.ItemsOk([]) && Envelopes([]) && P.Payloads([]) == []
  {
  }

  method Push(db: Database, args: seq<Arg>, left: bool, onlyIfExists: bool) returns (r: Resp)
    requires Inv(db.engine.data) && db.now >= 0
    modifies db.engine
    ensures var oe := Before(old(db.engine.data), args, db.now);
            var out := S.Push(oe, args, left, onlyIfExists);
            && r == out.reply
            && if |args| >= 3 && Stores(oe, onlyIfExists) && |AfterPush(oe, args[2..], left)| >= TWO32
               then Truncated(db.engine.data, args[1], AfterPush(oe, args[2..], left))
               else Performed(old(db.engine.data), db.engine.data, args, db.now, out, r)
  {
    hide At, WellFormed, Inv, P.Ok, P.Look, ItemsIn, Pushed, AfterPush, Truncated;
    Untouched(db.engine.data, args, db.now, SyntaxError());
    if |args| < 3 { return SyntaxError(); }
    r := PushValues(db, args[1], args[2..], left, onlyIfExists);
  }

  lemma AfterPushSize(oe: Option<Entry>, values: seq<bytes>, left: bool)
    ensures |AfterPush(oe, values, left)| == |ItemsIn(oe)| + |values|
  {
  }

  method LLen(db: Database, args: seq<Arg>) returns (r: Resp)
    requires Inv(db.engine.data) && db.now >= 0
    modifies db.engine
    ensures Performed(old(db.engine.data), db.engine.data, args, db.now,
                      S.LLen(Before(old(db.engine.data), args, db.now), args), r)
  {
    hide At, WellFormed, Inv, P.Ok, P.Look, P.ItemsOk, P.Payloads;
    Untouched(db.engine.data, args, db.now, SyntaxError());
    if |args| != 2 { return SyntaxError(); }
    InvAt(db.engine.data, args[1]);
    var found := OpenList(db, args[1]);
    if found.WrongType? { return WrongTypeError(); }
    return Integer(if found.Found? then |found.value| else 0);
  }

  /** redisListReply skips items that have expired. */
  method ListReply(items: seq<bytes>, now: int64) returns (r: Resp)
    ensures r == Array(Bulks(P.Payloads(P.LiveItems(items, now))))
  {
    var replies: seq<Resp> := [];
    for i := 0 to |items|
      invariant replies == Bulks(P.Payloads(P.LiveItems(items[..i], now)))
    {
      LiveOneMore(items, i, now);
      if !Expired(ToEnv(items[i]), now) {
        PayloadsJoin(P.LiveItems(items[..i], now), [items[i]]);
        replies := replies + [Bulk(ToEnv(items[i]).payload)];
      }
    }
    assert items[..|items|] == items;
    return Array(replies);
  }

  method RangeReply(items: seq<bytes>, start: int64, stop: int64, now: int64) returns (r: Resp)
    requires P.ItemsOk(items)
    ensures r == Array(Bulks(KeepRange(P.Payloads(items), |items|, start, stop)))
  {
    hide P.Payloads, P.ItemsOk, P.LiveItems, KeepRange, NormalizeRange;
    RangeIsExact(P.Payloads(items), start, stop);
    var (first, last, ok) := NormalizeRange(|items|, start, stop);
    if !ok {
      assert Bulks([]) == [];
      return Array([]);
    }
    ItemsOkSlice(items, first, last + 1);
    M.NothingExpires(items[first..last + 1], now);
    PayloadsSlice(items, first, last + 1);
    r := ListReply(items[first..last + 1], now);
  }

  method LRange(db: Database, args: seq<Arg>) returns (r: Resp)
    requires Inv(db.engine.data) && db.now >= 0
    modifies db.engine
    ensures Performed(old(db.engine.data), db.engine.data, args, db.now,
                      S.Range(Before(old(db.engine.data), args, db.now), args, false), r)
  {
    hide At, WellFormed, Inv, P.Ok, P.Look, P.ItemsOk, P.Payloads, KeepRange, Bulks;
    Untouched(db.engine.data, args, db.now, SyntaxError());
    if |args| != 4 { return SyntaxError(); }
    Untouched(db.engine.data, args, db.now, NotAnInteger());
    var start, stop := Decimal.ParseInt64(args[2]), Decimal.ParseInt64(args[3]);
    if start.None? || stop.None? { return NotAnInteger(); }
    InvAt(db.engine.data, args[1]);
    var found := OpenList(db, args[1]);
    if found.WrongType? { return WrongTypeError(); }
    NoItems();
    r := RangeReply(if found.Found? then found.value else [], start.value, stop.value, db.now);
  }

  /** redisLTrim on a list that is there, or is not. */
  method TrimTo(db: Database, k: key, found: Lookup<seq<bytes>>, start: int64, stop: int64, ghost oe: Option<Entry>)
    requires WellFormed(db.engine.data) && !found.WrongType? && Opened(At(db.engine.data, k), found, oe, db.now)
    modifies db.engine
    ensures var items := ItemsIn(oe);
            Effect(old(db.engine.data), db.engine.data, k, db.now,
                ListUntil(KeepRange(items, |items|, start, stop), DeadlineIn(oe)))
  {
    hide At, WellFormed, P.Ok, P.Look, P.ItemsOk, P.Payloads, KeepRange, NormalizeRange;
    NoItems();
    var items := if found.Found? then found.value else [];
    RangeIsExact(P.Payloads(items), start, stop);
    var (first, last, ok) := NormalizeRange(|items|, start, stop);
    if !ok {
      NothingLeft(db.now);
      var _ := db.DeleteRaw(k);
      return;
    }
    ItemsOkSlice(items, first, last + 1);
    PayloadsSlice(items, first, last + 1);
    StoreList(db, k, items[first..last + 1], found, oe);
  }

  method LTrim(db: Database, args: seq<Arg>) returns (r: Resp)
    requires Inv(db.engine.data) && db.now >= 0
    modifies db.engine
    ensures Performed(old(db.engine.data), db.engine.data, args, db.now,
                      S.Range(Before(old(db.engine.data), args, db.now), args, true), r)
  {
    hide At, WellFormed, Inv, P.Ok, P.Look, P.ItemsOk, P.Payloads, KeepRange, Opened;
    Untouched(db.engine.data, args, db.now, SyntaxError());
    if |args| != 4 { return SyntaxError(); }
    Untouched(db.engine.data, args, db.now, NotAnInteger());
    var start, stop := Decimal.ParseInt64(args[2]), Decimal.ParseInt64(args[3]);
    if start.None? || stop.None? { return NotAnInteger(); }
    InvAt(db.engine.data, args[1]);
    ghost var oe := P.Look(At(db.engine.data, args[1]), db.now);
    var found := OpenList(db, args[1]);
    if found.WrongType? { return WrongTypeError(); }
    TrimTo(db, args[1], found, start.value, stop.value, oe);
    return OkReply();
  }

  /** redisPop on a list that is there: split off `count` items, store the rest, show them. */
  method PopFrom(db: Database, k: key, items: seq<bytes>, count: nat, left: bool, ghost oe: Option<Entry>)
      returns (popped: seq<bytes>)
    requires WellFormed(db.engine.data) && Opened(At(db.engine.data, k), Found(items), oe, db.now) && count <= |items|
    modifies db.engine
    ensures var payloads := P.Payloads(items);
            var rest := if left then payloads[count..] else payloads[..|items| - count];
            && Effect(old(db.engine.data), db.engine.data, k, db.now, ListUntil(rest, DeadlineIn(oe)))
            && P.ItemsOk(popped) && |popped| == count
            && P.Payloads(popped) == if left then payloads[..count] else payloads[|items| - count..]
  {
    hide At, WellFormed, P.Ok, P.Look, P.ItemsOk, P.Payloads;
    var cut := if left then count else |items| - count;
    ItemsOkSlice(items, 0, cut);
    ItemsOkSlice(items, cut, |items|);
    PayloadsSlice(items, 0, cut);
    PayloadsSlice(items, cut, |items|);
    var rest: seq<bytes>;
    popped, rest := items[0..cut], items[cut..|items|];
    assert P.Payloads(items)[cut..|items|] == P.Payloads(items)[cut..];
    if !left { popped, rest := rest, popped; }
    StoreList(db, k, rest, Found(items), oe);
  }

  method Pop(db: Database, args: seq<Arg>, left: bool) returns (r: Resp)
    requires Inv(db.engine.data) && db.now >= 0
    modifies db.engine
    ensures Performed(old(db.engine.data), db.engine.data, args, db.now,
                      S.Pop(Before(old(db.engine.data), args, db.now), args, left), r)
  {
    hide At, WellFormed, Inv, P.Ok, P.Look, P.ItemsOk, P.Payloads, Bulks, Popped;
    Untouched(db.engine.data, args, db.now, SyntaxError());
    if |args| != 2 && |args| != 3 { return SyntaxError(); }
    InvAt(db.engine.data, args[1]);
    ghost var oe := P.Look(At(db.engine.data, args[1]), db.now);
    var found := OpenList(db, args[1]);
    if found.WrongType? { return WrongTypeError(); }
    if found.Missing? { return if |args| == 3 then Array([]) else NullBulk; }
    var wanted := if |args| == 3 then Decimal.ParseInt64(args[2]) else Some(1);
    if wanted.None? || wanted.value < 0 { return NotAnInteger(); }
    r := PopCount(db, args[1], found.value, wanted.value, left, |args| == 3, oe);
  }

  method PopCount(db: Database, k: key, items: seq<bytes>, wanted: int64, left: bool, many: bool,
      ghost oe: Option<Entry>) returns (r: Resp)
    requires WellFormed(db.engine.data) && P.Ok(At(db.engine.data, k)) && P.Look(At(db.engine.data, k), db.now) == oe
    requires Opened(At(db.engine.data, k), Found(items), oe, db.now) && wanted >= 0 && (!many ==> wanted == 1)
    modifies db.engine
    ensures var out := Popped(P.Payloads(items), wanted, left, many, DeadlineIn(oe));
            Effect(old(db.engine.data), db.engine.data, k, db.now, out.entry) && r == out.reply
  {
    hide At, WellFormed, P.Ok, P.Look, P.ItemsOk, P.Payloads, P.LiveItems;
    if many && wanted == 0 {
      ghost var payloads := P.Payloads(items);
      assert payloads[0..] == payloads == payloads[..|items|];
      assert Bulks([]) == [] && oe == ListUntil(payloads, DeadlineIn(oe));
      return Array([]);
    }
    var count := if wanted < |items| then wanted else |items|;
    var popped := PopFrom(db, k, items, count, left, oe);
    if many {
      M.NothingExpires(popped, db.now);
      r := ListReply(popped, db.now);
      return;
    }
    PayloadAt(popped, 0);
    return Bulk(ToEnv(popped[0]).payload);
  }

  lemma PayloadAt(items: seq<bytes>, i: nat)
    requires i < |items|
    ensures P.Payloads(items)[i] == ToEnv(items[i]).payload
  {
  }
}
