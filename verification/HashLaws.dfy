/** Hashes as a client sees them: which value each field holds after each command. */
module HashLaws {
  import opened Bytes
  import opened Keyspace
  import opened Resp
  import opened Sorting
  import opened S = CommandSpec
  import opened Client
  import opened Spelling
  import opened StringLaws
  import Decimal
  import Laws
  import I = Interpreter

  predicate NoHash(oe: Option<Entry>) { oe.Some? && !oe.value.value.Hash? }

  /** The fields of a hash, none for a missing key. */
  function Fields(oe: Option<Entry>): map<bytes, Field> {
    match oe case Some(Entry(Hash(fields), _)) => fields case _ => map[]
  }

  /** The hash with a deadline; without fields there is no key. */
  function Held(fields: map<bytes, Field>, deadline: Option<int>): Option<Entry> {
    if fields == map[] then None else Some(Entry(Hash(fields), deadline))
  }

  predicate SameField(before: map<bytes, Field>, after: map<bytes, Field>, f: bytes) {
    if f in before then f in after && after[f] == before[f] else f !in after
  }

  // ---------------------------------------------------------------- storing

  /** The last of the pairs from argument `from` on that names `f` is at `at`. */
  predicate LastNaming(words: seq<Arg>, from: nat, at: nat, f: bytes) {
    && from <= at && (at - from) % 2 == 0 && at + 1 < |words| && words[at] == f
    && forall j :: at < j < |words| && (j - from) % 2 == 0 ==> words[j] != f
  }

  predicate NoneNaming(words: seq<Arg>, from: nat, f: bytes) {
    forall j :: from <= j < |words| && (j - from) % 2 == 0 ==> words[j] != f
  }

  lemma {:induction false} UnnamedIsKept(fields: map<bytes, Field>, words: seq<Arg>, i: nat, f: bytes)
    requires NoneNaming(words, i, f)
    ensures SameField(fields, StorePairs(fields, words, i).0, f)
    decreases |words| - i
  {
    if i + 1 < |words| {
      assert words[i] != f;
      UnnamedIsKept(fields[words[i] := Field(words[i + 1], None)], words, i + 2, f);
    }
  }

  lemma {:induction false} LastIsStored(fields: map<bytes, Field>, words: seq<Arg>, i: nat, at: nat, f: bytes)
    requires LastNaming(words, i, at, f)
    ensures var after := StorePairs(fields, words, i).0;
            f in after && after[f] == Field(words[at + 1], None)
    decreases |words| - i
  {
    var next := fields[words[i] := Field(words[i + 1], None)];
    if at == i {
      UnnamedIsKept(next, words, i + 2, f);
    } else {
      LastIsStored(next, words, i + 2, at, f);
    }
  }

  lemma MeantHSet(oe: Option<Entry>, words: seq<Arg>, now: int64)
    ensures Meant("HSET", oe, words, now) == Meant("HMSET", oe, words, now) == HSet(oe, words)
  {
    hide I.CommandOf, Ascii, Meant, S.Get, S.Set, SetNX, SetEX, GetSet, GetDel, GetEx, StrLen, Append, Increment,
         IncrementArg, Expire, Ttl, Persist, TypeName, HSet, HGet, HMGet, HList, HDel, HExists, HLen, HIncrBy, SAdd,
         SRem, SIsMember, SMIsMember, SMembers, SCard, Push, Range, LLen, Pop;
    HashNames();
    MeantIs("HSET", I.HSet, oe, words, now);
    MeantIs("HMSET", I.HSet, oe, words, now);
  }

  /** HSET and HMSET: each field named holds the value of the last pair that names it, every other
      field is as it was, the key keeps its deadline, and the reply counts the new fields. */
  lemma HSetLaw(oe: Option<Entry>, words: seq<Arg>, now: int64)
    requires |words| >= 4 && |words| % 2 == 0 && !NoHash(oe)
    ensures var out := Meant("HSET", oe, words, now);
            var after := Fields(out.entry);
            && Meant("HMSET", oe, words, now) == out
            && out == Out(Some(Entry(Hash(after), Until(oe))), Integer(|after| - |Fields(oe)|))
            && (forall f, at :: LastNaming(words, 2, at, f) ==> f in after && after[f] == Field(words[at + 1], None))
            && (forall f :: NoneNaming(words, 2, f) ==> SameField(Fields(oe), after, f))
  {
    hide Ascii, Meant, StorePairs, NoneNaming, SameField;
    var after := StorePairs(Fields(oe), words, 2).0;
    forall f, at | LastNaming(words, 2, at, f) ensures f in after && after[f] == Field(words[at + 1], None) {
      LastIsStored(Fields(oe), words, 2, at, f);
    }
    forall f | NoneNaming(words, 2, f) ensures SameField(Fields(oe), after, f) {
      UnnamedIsKept(Fields(oe), words, 2, f);
    }
    Laws.StoredCount(Fields(oe), words, 2);
    StoresSomething(Fields(oe), words, 2);
    MeantHSet(oe, words, now);
  }

  lemma {:induction false} StoresSomething(fields: map<bytes, Field>, words: seq<Arg>, i: nat)
    requires i + 1 < |words| || fields != map[]
    ensures StorePairs(fields, words, i).0 != map[]
    decreases |words| - i
  {
    if i + 1 < |words| {
      var next := fields[words[i] := Field(words[i + 1], None)];
      assert words[i] in next;
      StoresSomething(next, words, i + 2);
    }
  }

  lemma HashRefusals(oe: Option<Entry>, words: seq<Arg>, now: int64)
    ensures |words| < 4 || |words| % 2 != 0 ==> Meant("HSET", oe, words, now) == Out(oe, SYNTAX)
    ensures |words| >= 4 && |words| % 2 == 0 && NoHash(oe) ==> Meant("HSET", oe, words, now) == Out(oe, WRONG_TYPE)
    ensures |words| < 3 ==> Meant("HDEL", oe, words, now) == Out(oe, SYNTAX)
    ensures |words| >= 3 && NoHash(oe) ==> Meant("HDEL", oe, words, now) == Out(oe, WRONG_TYPE)
  {
    hide Ascii, Meant;
    MeantHSet(oe, words, now);
    Texts();
    MeantWrites(oe, words, now);
  }

  // ---------------------------------------------------------------- reading

  function ValueReply(oe: Option<Entry>, f: bytes): Resp {
    if f in Fields(oe) then Bulk(Fields(oe)[f].value) else NullBulk
  }

  lemma MeantReads(oe: Option<Entry>, words: seq<Arg>, now: int64)
    ensures Meant("HGET", oe, words, now) == HGet(oe, words)
    ensures Meant("HEXISTS", oe, words, now) == HExists(oe, words)
    ensures Meant("HLEN", oe, words, now) == HLen(oe, words)
    ensures Meant("HMGET", oe, words, now) == HMGet(oe, words)
  {
    hide I.CommandOf, Ascii, Meant, S.Get, S.Set, SetNX, SetEX, GetSet, GetDel, GetEx, StrLen, Append, Increment,
         IncrementArg, Expire, Ttl, Persist, TypeName, HSet, HGet, HMGet, HList, HDel, HExists, HLen, HIncrBy, SAdd,
         SRem, SIsMember, SMIsMember, SMembers, SCard, Push, Range, LLen, Pop;
    HashNames();
    MeantIs("HGET", I.HGet, oe, words, now);
    MeantIs("HEXISTS", I.HExists, oe, words, now);
    MeantIs("HLEN", I.HLen, oe, words, now);
    MeantIs("HMGET", I.HMGet, oe, words, now);
  }

  lemma MeantWrites(oe: Option<Entry>, words: seq<Arg>, now: int64)
    ensures Meant("HDEL", oe, words, now) == HDel(oe, words)
    ensures Meant("HINCRBY", oe, words, now) == HIncrBy(oe, words)
  {
    hide I.CommandOf, Ascii, Meant, S.Get, S.Set, SetNX, SetEX, GetSet, GetDel, GetEx, StrLen, Append, Increment,
         IncrementArg, Expire, Ttl, Persist, TypeName, HSet, HGet, HMGet, HList, HDel, HExists, HLen, HIncrBy, SAdd,
         SRem, SIsMember, SMIsMember, SMembers, SCard, Push, Range, LLen, Pop;
    HashNames();
    MeantIs("HDEL", I.HDel, oe, words, now);
    MeantIs("HINCRBY", I.HIncrBy, oe, words, now);
  }

  lemma HGetLaw(oe: Option<Entry>, words: seq<Arg>, now: int64)
    ensures Meant("HGET", oe, words, now) ==
            Out(oe, if |words| != 3 then SYNTAX else if NoHash(oe) then WRONG_TYPE else ValueReply(oe, words[2]))
    ensures Meant("HEXISTS", oe, words, now) ==
            Out(oe, if |words| != 3 then SYNTAX
                    else if NoHash(oe) then WRONG_TYPE
                    else Integer(if words[2] in Fields(oe) then 1 else 0))
    ensures Meant("HLEN", oe, words, now) ==
            Out(oe, if |words| != 2 then SYNTAX else if NoHash(oe) then WRONG_TYPE else Integer(|Fields(oe)|))
  {
    hide Ascii, Meant, SYNTAX, WRONG_TYPE;
    Texts();
    MeantReads(oe, words, now);
  }

  lemma HMGetLaw(oe: Option<Entry>, words: seq<Arg>, now: int64)
    ensures Meant("HMGET", oe, words, now).entry == oe
    ensures var reply := Meant("HMGET", oe, words, now).reply;
            if |words| < 3 then reply == SYNTAX
            else if NoHash(oe) then reply == WRONG_TYPE
            else reply.Array? && |reply.items| == |words| - 2 &&
                 forall i :: 0 <= i < |words| - 2 ==> reply.items[i] == ValueReply(oe, words[i + 2])
  {
    hide Ascii, Meant;
    Texts();
    MeantReads(oe, words, now);
  }

  /** HGET after HSET tells the last value given to its field, or what it told before. */
  lemma HGetAfterHSet(oe: Option<Entry>, words: seq<Arg>, ask: seq<Arg>, at: nat, now: int64)
    requires |words| >= 4 && |words| % 2 == 0 && !NoHash(oe) && |ask| == 3
    ensures LastNaming(words, 2, at, ask[2]) ==>
              Meant("HGET", Meant("HSET", oe, words, now).entry, ask, now).reply == Bulk(words[at + 1])
    ensures NoneNaming(words, 2, ask[2]) ==>
              Meant("HGET", Meant("HSET", oe, words, now).entry, ask, now).reply
              == Meant("HGET", oe, ask, now).reply
  {
    hide Meant, LastNaming, NoneNaming, SYNTAX, WRONG_TYPE;
    HSetLaw(oe, words, now);
    HGetLaw(oe, ask, now);
    HGetLaw(Meant("HSET", oe, words, now).entry, ask, now);
  }

  /** A field is there until its deadline; a hash whose fields are all gone is gone. */
  lemma FieldsGoAtDeadlines(fields: map<bytes, Field>, now: int)
    ensures var left := Fields(Later(Some(Entry(Hash(fields), None)), now));
            && (forall f :: f in left <==>
                  f in fields && (fields[f].deadline.Some? ==> now < fields[f].deadline.value))
            && (forall f <- left :: left[f] == fields[f])
            && (left == map[] <==> Later(Some(Entry(Hash(fields), None)), now).None?)
  {
  }

  // ---------------------------------------------------------------- listing

  lemma {:induction false} ShowNames(fields: map<bytes, Field>, names: seq<bytes>)
    requires forall f <- names :: f in fields
    ensures Show(fields, names, Part.Names) == Bulks(names)
  {
    if names != [] {
      var front := names[..|names| - 1];
      ShowNames(fields, front);
      assert names == front + [names[|names| - 1]];
    }
  }

  lemma {:induction false} ShowValues(fields: map<bytes, Field>, names: seq<bytes>)
    requires forall f <- names :: f in fields
    ensures |Show(fields, names, Values)| == |names|
    ensures forall i :: 0 <= i < |names| ==> Show(fields, names, Values)[i] == Bulk(fields[names[i]].value)
  {
    if names != [] {
      var front := names[..|names| - 1];
      ShowValues(fields, front);
      assert names == front + [names[|names| - 1]];
    }
  }

  lemma {:induction false} ShowBoth(fields: map<bytes, Field>, names: seq<bytes>)
    requires forall f <- names :: f in fields
    ensures |Show(fields, names, Both)| == 2 * |names|
    ensures forall i :: 0 <= i < |names| ==>
              Show(fields, names, Both)[2 * i] == Bulk(names[i]) &&
              Show(fields, names, Both)[2 * i + 1] == Bulk(fields[names[i]].value)
  {
    if names != [] {
      var front := names[..|names| - 1];
      ShowBoth(fields, front);
      assert names == front + [names[|names| - 1]];
    }
  }

  lemma MeantLists(oe: Option<Entry>, words: seq<Arg>, now: int64)
    ensures Meant("HKEYS", oe, words, now) == HList(oe, words, Part.Names)
    ensures Meant("HVALS", oe, words, now) == HList(oe, words, Values)
    ensures Meant("HGETALL", oe, words, now) == HList(oe, words, Both)
  {
    hide I.CommandOf, Ascii, Meant, S.Get, S.Set, SetNX, SetEX, GetSet, GetDel, GetEx, StrLen, Append, Increment,
         IncrementArg, Expire, Ttl, Persist, TypeName, HSet, HGet, HMGet, HList, HDel, HExists, HLen, HIncrBy, SAdd,
         SRem, SIsMember, SMIsMember, SMembers, SCard, Push, Range, LLen, Pop;
    HashNames();
    MeantIs("HKEYS", I.HList(Part.Names), oe, words, now);
    MeantIs("HVALS", I.HList(Values), oe, words, now);
    MeantIs("HGETALL", I.HList(Both), oe, words, now);
  }

  /** HKEYS lists the names in byte order, HVALS the values in the order of their names, and
      HGETALL each name before its value. */
  lemma HListLaw(oe: Option<Entry>, words: seq<Arg>, now: int64, names: seq<bytes>)
    requires |words| == 2 && !NoHash(oe)
    requires StrictlySorted(names) && Elements(names) == Fields(oe).Keys
    ensures Meant("HKEYS", oe, words, now) == Out(oe, Array(Bulks(names)))
    ensures forall i :: 0 <= i < |names| ==> names[i] in Fields(oe)
    ensures var out := Meant("HVALS", oe, words, now);
            && out.entry == oe && out.reply.Array? && |out.reply.items| == |names|
            && forall i :: 0 <= i < |names| ==> out.reply.items[i] == Bulk(Fields(oe)[names[i]].value)
    ensures var out := Meant("HGETALL", oe, words, now);
            && out.entry == oe && out.reply.Array? && |out.reply.items| == 2 * |names|
            && forall i :: 0 <= i < |names| ==>
                 out.reply.items[2 * i] == Bulk(names[i]) &&
                 out.reply.items[2 * i + 1] == Bulk(Fields(oe)[names[i]].value)
  {
    hide Ascii, Meant, Show, Listing, StrictlySorted;
    ListingOf(names);
    ListingMembers(Fields(oe).Keys);
    ShowNames(Fields(oe), names);
    ShowValues(Fields(oe), names);
    ShowBoth(Fields(oe), names);
    MeantLists(oe, words, now);
  }

  lemma HListRefusals(oe: Option<Entry>, words: seq<Arg>, now: int64, name: string)
    requires name in {"HKEYS", "HVALS", "HGETALL"}
    ensures |words| != 2 ==> Meant(name, oe, words, now) == Out(oe, SYNTAX)
    ensures |words| == 2 && NoHash(oe) ==> Meant(name, oe, words, now) == Out(oe, WRONG_TYPE)
  {
    hide Ascii, Meant, Show, Listing;
    Texts();
    MeantLists(oe, words, now);
  }

  // ---------------------------------------------------------------- removing and counting

  lemma {:induction false} DropLaw(fields: map<bytes, Field>, words: seq<Arg>, i: nat, f: bytes)
    requires i <= |words|
    ensures var after := DropFields(fields, words, i).0;
            if f in words[i..] then f !in after else SameField(fields, after, f)
    decreases |words| - i
  {
    if i < |words| {
      assert words[i..] == [words[i]] + words[i + 1..];
      DropLaw(fields - {words[i]}, words, i + 1, f);
    }
  }

  lemma AllDropped(fields: map<bytes, Field>, words: seq<Arg>)
    requires |words| >= 2
    ensures var after := DropFields(fields, words, 2).0;
            forall f :: if f in words[2..] then f !in after else SameField(fields, after, f)
  {
    hide DropFields, SameField;
    forall f ensures var after := DropFields(fields, words, 2).0;
                     if f in words[2..] then f !in after else SameField(fields, after, f)
    {
      DropLaw(fields, words, 2, f);
    }
  }

  lemma DropsCount(oe: Option<Entry>, words: seq<Arg>)
    requires |words| >= 3 && !NoHash(oe)
    ensures var after := DropFields(Fields(oe), words, 2).0;
            HDel(oe, words) == Out(Held(after, Until(oe)), Integer(|Fields(oe)| - |after|))
  {
    hide DropFields;
    if oe.None? {
      NothingToDrop(words, 2);
    } else {
      var dropped := DropFields(Fields(oe), words, 2);
      assert |dropped.0| == |Fields(oe)| - dropped.1 by { Laws.DroppedCount(Fields(oe), words, 2); }
    }
  }

  /** HDEL: the named fields are gone, every other is as it was, the reply counts those that were
      there, and a hash without fields is no key. */
  lemma HDelLaw(oe: Option<Entry>, words: seq<Arg>, now: int64)
    requires |words| >= 3 && !NoHash(oe)
    ensures var out := Meant("HDEL", oe, words, now);
            var after := Fields(out.entry);
            && out == Out(Held(after, Until(oe)), Integer(|Fields(oe)| - |after|))
            && (forall f :: if f in words[2..] then f !in after else SameField(Fields(oe), after, f))
  {
    hide Ascii, Meant, DropFields, SameField, HDel;
    AllDropped(Fields(oe), words);
    DropsCount(oe, words);
    MeantWrites(oe, words, now);
  }

  lemma {:induction false} NothingToDrop(words: seq<Arg>, i: nat)
    ensures DropFields(map[], words, i).0 == map[]
    decreases |words| - i
  {
    if i < |words| {
      var none: map<bytes, Field> := map[];
      assert none - {words[i]} == none;
      NothingToDrop(words, i + 1);
    }
  }

  /** HINCRBY: the field holds the decimal text of the exact sum, which is the reply, and has no
      deadline; every other field is as it was. Refused, nothing changes. */
  lemma HIncrByLaw(oe: Option<Entry>, words: seq<Arg>, now: int64, d: int64, n: Option<int>)
    requires |words| == 4 && Decimal.ParseInt64(words[3]) == Some(d) && !NoHash(oe)
    requires n == if words[2] in Fields(oe) then Decimal.Parse(Fields(oe)[words[2]].value) else Some(0)
    ensures Meant("HINCRBY", oe, words, now) ==
            if n.None? then Out(oe, NOT_HASH_INTEGER)
            else if !Fits(n.value + d) then Out(oe, OVERFLOW)
            else Out(Some(Entry(Hash(Fields(oe)[words[2] := Field(Decimal.Format(n.value + d), None)]), Until(oe))),
                     Integer(n.value + d))
  {
    hide Ascii, Meant, Decimal.ParseInt64, Decimal.Parse, Decimal.Format;
    Texts();
    MeantWrites(oe, words, now);
    if n.Some? {
      var after := Fields(oe)[words[2] := Field(Decimal.Format(n.value + d), None)];
      assert words[2] in after;
    }
  }

  lemma HIncrByRefusals(oe: Option<Entry>, words: seq<Arg>, now: int64)
    ensures |words| != 4 ==> Meant("HINCRBY", oe, words, now) == Out(oe, SYNTAX)
    ensures |words| == 4 && Decimal.ParseInt64(words[3]).None? ==>
              Meant("HINCRBY", oe, words, now) == Out(oe, NOT_INTEGER)
    ensures |words| == 4 && Decimal.ParseInt64(words[3]).Some? && NoHash(oe) ==>
              Meant("HINCRBY", oe, words, now) == Out(oe, WRONG_TYPE)
  {
    hide Ascii, Meant, Decimal.ParseInt64;
    Texts();
    MeantWrites(oe, words, now);
  }
}
