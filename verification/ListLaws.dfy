/** Lists as a client sees them: which item is where after each command. */
module ListLaws {
  import opened Bytes
  import opened Keyspace
  import opened Resp
  import opened S = CommandSpec
  import opened Client
  import opened Spelling
  import opened StringLaws
  import Decimal
  import I = Interpreter

  predicate NoList(oe: Option<Entry>) { oe.Some? && !oe.value.value.Items? }

  /** The items of a list, none for a missing key. */
  function ItemsOf(oe: Option<Entry>): seq<bytes> {
    match oe case Some(Entry(Items(items), _)) => items case _ => []
  }

  function Lasting(items: seq<bytes>, deadline: Option<int>): Option<Entry> {
    if items == [] then None else Some(Entry(Items(items), deadline))
  }

  // ---------------------------------------------------------------- pushing

  lemma MeantPushes(oe: Option<Entry>, words: seq<Arg>, now: int64)
    ensures Meant("LPUSH", oe, words, now) == Push(oe, words, true, false)
    ensures Meant("RPUSH", oe, words, now) == Push(oe, words, false, false)
    ensures Meant("LPUSHX", oe, words, now) == Push(oe, words, true, true)
    ensures Meant("RPUSHX", oe, words, now) == Push(oe, words, false, true)
  {
    hide I.CommandOf, Ascii, Meant, S.Get, S.Set, SetNX, SetEX, GetSet, GetDel, GetEx, StrLen, Append, Increment,
         IncrementArg, Expire, Ttl, Persist, TypeName, HSet, HGet, HMGet, HList, HDel, HExists, HLen, HIncrBy, SAdd,
         SRem, SIsMember, SMIsMember, SMembers, SCard, Push, Range, LLen, Pop;
    ListNames();
    MeantIs("LPUSH", I.Push(true, false), oe, words, now);
    MeantIs("RPUSH", I.Push(false, false), oe, words, now);
    MeantIs("LPUSHX", I.Push(true, true), oe, words, now);
    MeantIs("RPUSHX", I.Push(false, true), oe, words, now);
  }

  /** RPUSH puts its values behind the items, in order. */
  lemma RPushLaw(oe: Option<Entry>, words: seq<Arg>, now: int64)
    requires |words| >= 3 && !NoList(oe)
    ensures var after := ItemsOf(oe) + words[2..];
            Meant("RPUSH", oe, words, now) == Out(Some(Entry(Items(after), Until(oe))), Integer(|after|))
  {
    hide Meant, Ascii;
    MeantPushes(oe, words, now);
  }

  /** LPUSH puts each value in front of what is there, so the last is first. */
  lemma LPushLaw(oe: Option<Entry>, words: seq<Arg>, now: int64)
    requires |words| >= 3 && !NoList(oe)
    ensures var out := Meant("LPUSH", oe, words, now);
            var before, after := ItemsOf(oe), ItemsOf(out.entry);
            && out == Out(Some(Entry(Items(after), Until(oe))), Integer(|after|))
            && |after| == |words| - 2 + |before|
            && (forall i :: 0 <= i < |words| - 2 ==> after[i] == words[|words| - 1 - i])
            && after[|words| - 2..] == before
  {
    hide Meant, Ascii, Reversed;
    MeantPushes(oe, words, now);
    ReversedWords(words);
    var after := Reversed(words[2..]) + ItemsOf(oe);
    assert after[|words| - 2..] == ItemsOf(oe);
  }

  lemma ReversedWords(words: seq<Arg>)
    requires |words| >= 2
    ensures forall i :: 0 <= i < |words| - 2 ==> Reversed(words[2..])[i] == words[|words| - 1 - i]
  {
  }

  /** The X forms push only onto a list that is there. */
  lemma PushXLaw(oe: Option<Entry>, words: seq<Arg>, now: int64)
    requires |words| >= 3
    ensures Meant("LPUSHX", oe, words, now) ==
            if oe.None? then Out(None, Integer(0)) else Meant("LPUSH", oe, words, now)
    ensures Meant("RPUSHX", oe, words, now) ==
            if oe.None? then Out(None, Integer(0)) else Meant("RPUSH", oe, words, now)
  {
    hide Meant, Ascii, Reversed;
    MeantPushes(oe, words, now);
  }

  lemma PushRefusals(oe: Option<Entry>, words: seq<Arg>, now: int64)
    ensures |words| < 3 ==> Meant("LPUSH", oe, words, now) == Meant("RPUSH", oe, words, now) == Out(oe, SYNTAX)
    ensures |words| < 3 ==> Meant("LPUSHX", oe, words, now) == Meant("RPUSHX", oe, words, now) == Out(oe, SYNTAX)
    ensures |words| >= 3 && NoList(oe) ==>
              Meant("LPUSH", oe, words, now) == Meant("RPUSH", oe, words, now) == Out(oe, WRONG_TYPE)
  {
    hide Meant, Ascii;
    Texts();
    MeantPushes(oe, words, now);
  }

  // ---------------------------------------------------------------- ranges

  /** An index counts from the end when it is negative. */
  function Index(i: int, length: int): int { if i < 0 then length + i else i }

  /** The items from index `start` to index `stop`, both included, as far as there are any. */
  function Between(items: seq<bytes>, start: int, stop: int): seq<bytes> {
    var lo := if Index(start, |items|) < 0 then 0 else Index(start, |items|);
    var hi := if Index(stop, |items|) >= |items| then |items| - 1 else Index(stop, |items|);
    if lo <= hi then items[lo..hi + 1] else []
  }

  /** The first n items that are kept. */
  lemma {:induction false} KeptSoFar(items: seq<bytes>, n: nat, start: int, stop: int, lo: nat, hi: int)
    requires n <= |items|
    requires forall i :: 0 <= i < |items| ==> (InRange(i, |items|, start, stop) <==> lo <= i <= hi)
    ensures KeepRange(items, n, start, stop) ==
            if lo < n && lo <= hi then items[lo..if hi < n then hi + 1 else n] else []
  {
    hide InRange;
    if n > 0 {
      KeptSoFar(items, n - 1, start, stop, lo, hi);
      if lo <= n - 1 <= hi { assert items[lo..n] == items[lo..n - 1] + [items[n - 1]]; }
    }
  }

  lemma KeptIsBetween(items: seq<bytes>, start: int, stop: int)
    ensures KeepRange(items, |items|, start, stop) == Between(items, start, stop)
  {
    hide KeepRange;
    var lo := if Index(start, |items|) < 0 then 0 else Index(start, |items|);
    var hi := if Index(stop, |items|) >= |items| then |items| - 1 else Index(stop, |items|);
    KeptSoFar(items, |items|, start, stop, lo, hi);
  }

  lemma MeantRanges(oe: Option<Entry>, words: seq<Arg>, now: int64)
    ensures Meant("LRANGE", oe, words, now) == Range(oe, words, false)
    ensures Meant("LTRIM", oe, words, now) == Range(oe, words, true)
    ensures Meant("LLEN", oe, words, now) == LLen(oe, words)
    ensures Meant("LPOP", oe, words, now) == Pop(oe, words, true)
    ensures Meant("RPOP", oe, words, now) == Pop(oe, words, false)
  {
    hide I.CommandOf, Ascii, Meant, S.Get, S.Set, SetNX, SetEX, GetSet, GetDel, GetEx, StrLen, Append, Increment,
         IncrementArg, Expire, Ttl, Persist, TypeName, HSet, HGet, HMGet, HList, HDel, HExists, HLen, HIncrBy, SAdd,
         SRem, SIsMember, SMIsMember, SMembers, SCard, Push, Range, LLen, Pop;
    ListNames();
    MeantIs("LRANGE", I.Range(false), oe, words, now);
    MeantIs("LTRIM", I.Range(true), oe, words, now);
    MeantIs("LLEN", I.LLen, oe, words, now);
    MeantIs("LPOP", I.Pop(true), oe, words, now);
    MeantIs("RPOP", I.Pop(false), oe, words, now);
  }

  /** LRANGE replies with the items between its bounds, LTRIM keeps them. */
  lemma RangeLaw(oe: Option<Entry>, words: seq<Arg>, now: int64, start: int64, stop: int64)
    requires |words| == 4 && !NoList(oe)
    requires Decimal.ParseInt64(words[2]) == Some(start) && Decimal.ParseInt64(words[3]) == Some(stop)
    ensures Meant("LRANGE", oe, words, now) == Out(oe, Array(Bulks(Between(ItemsOf(oe), start, stop))))
    ensures Meant("LTRIM", oe, words, now) == Out(Lasting(Between(ItemsOf(oe), start, stop), Until(oe)), OK)
  {
    hide Meant, Ascii, Pop, LLen, KeepRange, Between, Decimal.ParseInt64;
    Texts();
    KeptIsBetween(ItemsOf(oe), start, stop);
    MeantRanges(oe, words, now);
  }

  lemma RangeRefusals(oe: Option<Entry>, words: seq<Arg>, now: int64, name: string)
    requires name == "LRANGE" || name == "LTRIM"
    ensures |words| != 4 ==> Meant(name, oe, words, now) == Out(oe, SYNTAX)
    ensures |words| == 4 && (Decimal.ParseInt64(words[2]).None? || Decimal.ParseInt64(words[3]).None?) ==>
              Meant(name, oe, words, now) == Out(oe, NOT_INTEGER)
    ensures |words| == 4 && Decimal.ParseInt64(words[2]).Some? && Decimal.ParseInt64(words[3]).Some? && NoList(oe) ==>
              Meant(name, oe, words, now) == Out(oe, WRONG_TYPE)
  {
    hide Meant, Ascii, Pop, LLen, KeepRange, Decimal.ParseInt64;
    Texts();
    MeantRanges(oe, words, now);
  }

  lemma LLenLaw(oe: Option<Entry>, words: seq<Arg>, now: int64)
    ensures Meant("LLEN", oe, words, now) ==
            Out(oe, if |words| != 2 then SYNTAX else if NoList(oe) then WRONG_TYPE else Integer(|ItemsOf(oe)|))
  {
    hide Meant, Ascii, Range, Pop;
    Texts();
    MeantRanges(oe, words, now);
  }

  // ---------------------------------------------------------------- popping

  /** LPOP takes the first item and RPOP the last; with a count, that many in list order. */
  lemma PopLaw(items: seq<bytes>, deadline: Option<int>, words: seq<Arg>, now: int64)
    requires |words| == 2 && items != []
    ensures var oe := Some(Entry(Items(items), deadline));
            && Meant("LPOP", oe, words, now) == Out(Lasting(items[1..], deadline), Bulk(items[0]))
            && Meant("RPOP", oe, words, now) ==
               Out(Lasting(items[..|items| - 1], deadline), Bulk(items[|items| - 1]))
  {
    hide Meant, Ascii, Range, LLen;
    MeantRanges(Some(Entry(Items(items), deadline)), words, now);
  }

  lemma PopManyLaw(items: seq<bytes>, deadline: Option<int>, words: seq<Arg>, now: int64, n: int64)
    requires |words| == 3 && Decimal.ParseInt64(words[2]) == Some(n)
    ensures var oe := Some(Entry(Items(items), deadline));
            var m := if n < |items| then n else |items|;
            if n < 0 then
              Meant("LPOP", oe, words, now) == Meant("RPOP", oe, words, now) == Out(oe, NOT_INTEGER)
            else
              && Meant("LPOP", oe, words, now) == Out(Lasting(items[m..], deadline), Array(Bulks(items[..m])))
              && Meant("RPOP", oe, words, now) ==
                 Out(Lasting(items[..|items| - m], deadline), Array(Bulks(items[|items| - m..])))
  {
    hide Meant, Ascii, Range, LLen, Decimal.ParseInt64;
    Texts();
    MeantRanges(Some(Entry(Items(items), deadline)), words, now);
  }

  lemma PopRefusals(oe: Option<Entry>, words: seq<Arg>, now: int64)
    ensures |words| != 2 && |words| != 3 ==>
              Meant("LPOP", oe, words, now) == Meant("RPOP", oe, words, now) == Out(oe, SYNTAX)
    ensures 2 <= |words| <= 3 && NoList(oe) ==>
              Meant("LPOP", oe, words, now) == Meant("RPOP", oe, words, now) == Out(oe, WRONG_TYPE)
    ensures oe.None? && |words| == 2 ==>
              Meant("LPOP", oe, words, now) == Meant("RPOP", oe, words, now) == Out(oe, NullBulk)
    ensures oe.None? && |words| == 3 ==>
              Meant("LPOP", oe, words, now) == Meant("RPOP", oe, words, now) == Out(oe, Array([]))
  {
    hide Meant, Ascii, Range, LLen, Decimal.ParseInt64;
    Texts();
    MeantRanges(oe, words, now);
  }

  // ---------------------------------------------------------------- together

  lemma WholeRange(items: seq<bytes>)
    ensures Between(items, 0, -1) == items
  {
  }

  lemma Bounds()
    ensures Decimal.ParseInt64(Ascii("0")) == Some(0) && Decimal.ParseInt64(Ascii("-1")) == Some(-1)
  {
    assert Ascii("0") == [48] && Ascii("-1") == [45, 49];
    Decimal.ParseInvertsFormat(0);
    Decimal.ParseInvertsFormat(-1);
  }

  /** Onto a missing key, LPUSH a b leaves b, a and RPUSH a b leaves a, b, as LRANGE 0 -1 tells. */
  lemma PushThenRange(name: Arg, k: Arg, a: Arg, b: Arg, now: int64)
    ensures var words, ask := [name, k, a, b], [name, k, Ascii("0"), Ascii("-1")];
            && Meant("LRANGE", Meant("LPUSH", None, words, now).entry, ask, now).reply == Array([Bulk(b), Bulk(a)])
            && Meant("LRANGE", Meant("RPUSH", None, words, now).entry, ask, now).reply == Array([Bulk(a), Bulk(b)])
  {
    var words: seq<Arg>, ask: seq<Arg> := [name, k, a, b], [name, k, Ascii("0"), Ascii("-1")];
    hide Meant, Ascii, Decimal.ParseInt64, Between;
    Bounds();
    LPushLaw(None, words, now);
    RPushLaw(None, words, now);
    var left, right := Meant("LPUSH", None, words, now).entry, Meant("RPUSH", None, words, now).entry;
    RangeLaw(left, ask, now, 0, -1);
    RangeLaw(right, ask, now, 0, -1);
    assert ItemsOf(left) == [b, a];
    assert ItemsOf(right) == [a, b];
    WholeRange([b, a]);
    WholeRange([a, b]);
    assert Bulks([b, a]) == [Bulk(b), Bulk(a)] && Bulks([a, b]) == [Bulk(a), Bulk(b)];
  }
}
