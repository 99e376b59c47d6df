/** Every reply of the data commands can be encoded: none of them contains a map. */
module Writable {
  import opened Bytes
  import opened Keyspace
  import opened Resp
  import opened S = CommandSpec
  import I = Interpreter
  import Decimal
  import Deadline
  import Sorting

  predicate Scalar(v: Resp) { !v.Array? && !v.Map? }

  predicate Flat(v: Resp) {
    Scalar(v) || (v.Array? && forall i :: 0 <= i < |v.items| ==> Scalar(v.items[i]))
  }

  lemma {:induction false} ScalarsWrite(items: seq<Resp>)
    requires forall i :: 0 <= i < |items| ==> Scalar(items[i])
    ensures WriteItems(items).Some?
    decreases |items|
  {
    if items != [] { ScalarsWrite(items[1..]); }
  }

  lemma FlatWrites(v: Resp)
    requires Flat(v)
    ensures Write(v).Some?
  {
    if v.Array? { ScalarsWrite(v.items); }
  }

  lemma PageWrites(names: seq<bytes>, cursor: nat, count: nat)
    ensures Write(I.ScanPage(names, cursor, count)).Some?
  {
    var page := I.ScanPage(names, cursor, count);
    assert Flat(page.items[0]) && Flat(page.items[1]);
    FlatWrites(page.items[0]);
    FlatWrites(page.items[1]);
    assert page.items[1..] == [page.items[1]] && page.items[1..][1..] == [];
    assert WriteItems([]).Some? && WriteItems(page.items[1..]).Some?;
  }

  lemma {:induction false} ShownAreScalar(fields: map<bytes, Field>, names: seq<bytes>, part: Part)
    requires forall f <- names :: f in fields
    ensures forall i :: 0 <= i < |Show(fields, names, part)| ==> Scalar(Show(fields, names, part)[i])
    decreases |names|
  {
    if names != [] { ShownAreScalar(fields, names[..|names| - 1], part); }
  }

  lemma ListedIsFlat(oe: Option<Entry>, args: seq<Arg>, part: Part)
    ensures Flat(S.HList(oe, args, part).reply)
  {
    if |args| == 2 && !HashOf(oe).WrongType? {
      var fields := FieldsIn(oe);
      Sorting.ListingMembers(fields.Keys);
      ShownAreScalar(fields, Sorting.Listing(fields.Keys), part);
    }
  }

  lemma SetOptionsAreFlat(args: seq<Arg>, index: nat, o: SetOptions, now: int64)
    ensures var r := ParseSet(args, index, o, now); r.Bad? ==> Flat(r.reply)
    decreases |args| - index
  {
    hide Ascii, Decimal.ParseInt64, PositiveDeadline, IsUnitName, Upper;
  }

  lemma ReadsAreFlat(oe: Option<Entry>, args: seq<Arg>, now: int64)
    ensures Flat(S.Get(oe, args).reply) && Flat(S.StrLen(oe, args).reply) && Flat(S.GetDel(oe, args).reply)
    ensures Flat(S.GetSet(oe, args, now).reply) && Flat(S.SetNX(oe, args, now).reply)
        && Flat(S.Append(oe, args, now).reply)
  {
    hide Ascii;
  }

  lemma DeadlinesAreFlat(oe: Option<Entry>, args: seq<Arg>, now: int64)
    ensures Flat(S.TypeName(oe, args).reply) && Flat(S.Persist(oe, args).reply)
    ensures forall ms :: Flat(S.Ttl(oe, args, ms, now).reply) && Flat(S.SetEX(oe, args, ms, now).reply)
    ensures forall name :: Flat(S.Expire(oe, args, name, now).reply)
  {
    hide Ascii, Decimal.ParseInt64, PositiveDeadline, Deadline.FromCommand, UnitOf, IsAbsolute;
  }

  lemma SetsAreFlat(oe: Option<Entry>, args: seq<Arg>, now: int64)
    ensures Flat(S.Set(oe, args, now).reply) && Flat(S.GetEx(oe, args, now).reply)
  {
    hide Ascii, Decimal.ParseInt64, Deadline.FromCommand, UnitOf, IsAbsolute, IsUnitName, ParseSet, Upper;
    SetOptionsAreFlat(args, 3, NO_OPTIONS, now);
  }

  lemma CountersAreFlat(oe: Option<Entry>, args: seq<Arg>, delta: int, decrement: bool, now: int64)
    ensures Flat(S.Increment(oe, args, delta, now).reply) && Flat(S.IncrementArg(oe, args, decrement, now).reply)
  {
    hide Ascii, Decimal.ParseInt64, Decimal.Parse, Decimal.Format;
  }

  lemma HashCountersAreFlat(oe: Option<Entry>, args: seq<Arg>)
    ensures Flat(S.HIncrBy(oe, args).reply)
  {
    hide Ascii, Decimal.ParseInt64, Decimal.Parse, Decimal.Format, FieldsIn;
  }

  lemma HashesAreFlat(oe: Option<Entry>, args: seq<Arg>)
    ensures Flat(S.HSet(oe, args).reply) && Flat(S.HGet(oe, args).reply) && Flat(S.HMGet(oe, args).reply)
    ensures Flat(S.HDel(oe, args).reply) && Flat(S.HExists(oe, args).reply) && Flat(S.HLen(oe, args).reply)
  {
    hide StorePairs, DropFields, FieldsIn;
  }

  lemma SetTypesAreFlat(oe: Option<Entry>, args: seq<Arg>)
    ensures Flat(S.SAdd(oe, args).reply) && Flat(S.SRem(oe, args).reply) && Flat(S.SIsMember(oe, args).reply)
    ensures Flat(S.SMIsMember(oe, args).reply) && Flat(S.SMembers(oe, args).reply) && Flat(S.SCard(oe, args).reply)
  {
    hide Named, MembersIn;
  }

  lemma ListsAreFlat(oe: Option<Entry>, args: seq<Arg>, a: bool, b: bool)
    ensures Flat(S.Push(oe, args, a, b).reply) && Flat(S.LLen(oe, args).reply)
    ensures Flat(S.Range(oe, args, a).reply) && Flat(S.Pop(oe, args, a).reply)
  {
    PushesAreFlat(oe, args, a, b);
    SlicesAreFlat(oe, args, a);
  }

  lemma PushesAreFlat(oe: Option<Entry>, args: seq<Arg>, a: bool, b: bool)
    ensures Flat(S.Push(oe, args, a, b).reply) && Flat(S.LLen(oe, args).reply)
  {
    hide Reversed, Ascii, ItemsIn;
  }

  lemma SlicesAreFlat(oe: Option<Entry>, args: seq<Arg>, a: bool)
    ensures Flat(S.Range(oe, args, a).reply) && Flat(S.Pop(oe, args, a).reply)
  {
    hide KeepRange, Ascii, Decimal.ParseInt64, ItemsIn;
  }

  lemma KeyReplyIsFlat(c: I.KeyCommand, oe: Option<Entry>, args: seq<Arg>, now: int64)
    ensures Flat(I.OnEntry(c, oe, args, now).reply)
  {
    hide Flat;
    hide S.Get, S.StrLen, S.GetDel, S.GetSet, S.SetNX, S.Append, S.TypeName, S.Persist, S.Ttl, S.SetEX, S.Expire;
    hide S.Set, S.GetEx, S.Increment, S.IncrementArg, S.HIncrBy, S.HSet, S.HGet, S.HMGet, S.HDel, S.HExists, S.HLen;
    hide S.HList;
    hide S.SAdd, S.SRem, S.SIsMember, S.SMIsMember, S.SMembers, S.SCard, S.Push, S.Range, S.LLen, S.Pop;
    ReadsAreFlat(oe, args, now);
    DeadlinesAreFlat(oe, args, now);
    SetsAreFlat(oe, args, now);
    HashesAreFlat(oe, args);
    SetTypesAreFlat(oe, args);
    match c
    case Increment(delta) => CountersAreFlat(oe, args, delta, false, now);
    case IncrementArg(decrement) => CountersAreFlat(oe, args, 0, decrement, now);
    case HIncrBy => HashCountersAreFlat(oe, args);
    case HList(part) => ListedIsFlat(oe, args, part);
    case Push(left, onlyIfExists) => ListsAreFlat(oe, args, left, onlyIfExists);
    case Range(trim) => ListsAreFlat(oe, args, trim, false);
    case LLen => ListsAreFlat(oe, args, false, false);
    case Pop(left) => ListsAreFlat(oe, args, left, false);
    case _ =>
  }

  /** Every answer of the reference can be written. */
  lemma AnswerWrites(ks: Keyspace, now: int64, args: seq<Arg>, c: I.Command, matcher: I.Matcher)
    ensures Write(I.Exec(ks, now, args, c, matcher).1).Some?
  {
    hide I.OnEntry, Flat, I.ScanPage, Write, I.ParseScan, I.Matching, Ascii;
    var reply := I.Exec(ks, now, args, c, matcher).1;
    match c
    case OnKey(command) =>
      KeyReplyIsFlat(command, if |args| < 2 then None else Find(ks, args[1]), args, now);
      FlatWrites(reply);
    case Scan => ScanWrites(ks, args, matcher);
    case _ => SeveralKeysAreFlat(ks, now, args, c, matcher); FlatWrites(reply);
  }

  lemma SeveralKeysAreFlat(ks: Keyspace, now: int64, args: seq<Arg>, c: I.Command, matcher: I.Matcher)
    requires !c.OnKey? && !c.Scan?
    ensures Flat(I.Exec(ks, now, args, c, matcher).1)
  {
    hide I.OnEntry, I.ScanReply, I.Matching, I.KeyNames, I.AssignPairs, I.RemoveNamed, Ascii;
  }

  lemma {:induction false} ScanOptionsWrite(args: seq<Arg>, index: nat, o: I.ScanOptions)
    ensures var r := I.ParseScan(args, index, o); r.Bad? ==> Flat(r.reply)
    decreases |args| - index
  {
    hide Ascii, Upper, I.ParseNonNegative;
    if index + 1 < |args| {
      var name := Upper(args[index]);
      var n := I.ParseNonNegative(args[index + 1]);
      ScanOptionsWrite(args, index + 2, o);
      ScanOptionsWrite(args, index + 2, o.(pattern := args[index + 1]));
      if n.Some? { ScanOptionsWrite(args, index + 2, o.(count := if n.value == 0 then 10 else n.value)); }
    }
  }

  lemma ScanWrites(ks: Keyspace, args: seq<Arg>, matcher: I.Matcher)
    ensures Write(I.ScanReply(ks, args, matcher)).Some?
  {
    hide I.ParseScan, I.Matching, I.KeyNames, I.ScanPage, I.ParseNonNegative;
    var reply := I.ScanReply(ks, args, matcher);
    if |args| >= 2 && I.ParseNonNegative(args[1]).Some? {
      var o := I.ParseScan(args, 2, I.SCAN_DEFAULTS);
      if o.Good? {
        PageWrites(I.Matching(matcher, o.value.pattern, I.KeyNames(ks)), I.ParseNonNegative(args[1]).value,
            o.value.count);
      } else {
        ScanOptionsWrite(args, 2, I.SCAN_DEFAULTS);
        FlatWrites(reply);
      }
    }
  }
}
