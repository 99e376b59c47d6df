/** Laws of the command set that span several commands. */
module Laws {
  import opened Bytes
  import opened Keys
  import opened Keyspace
  import opened Resp
  import opened Sorting
  import opened S = CommandSpec
  import I = Interpreter
  import Decimal
  import Deadline

  // ---------------------------------------------------------------- counters

  datatype Delta = Delta(time: int64, amount: int)

  /** A run of INCR, DECR, INCRBY and DECRBY on one key. */
  function CountUp(oe: Option<Entry>, steps: seq<Delta>): (r: (Option<Entry>, seq<Resp>))
    ensures |r.1| == |steps|
    decreases |steps|
  {
    if steps == [] then (oe, [])
    else
      var out := IncrementBy(Later(oe, steps[0].time), steps[0].amount, steps[0].time);
      var (end, replies) := CountUp(out.entry, steps[1..]);
      (end, [out.reply] + replies)
  }

  /** What a string or missing key is to a counter command: a number, or text that is none, under
      a deadline. A missing key counts as zero. */
  datatype Counter = Counter(value: Option<int>, deadline: Option<int>)

  function CounterOf(oe: Option<Entry>): Counter {
    Counter(match StringOf(oe) case Found(text) => Decimal.Parse(text) case _ => Some(0), DeadlineIn(oe))
  }

  /** A counter past its deadline starts again at zero, without one. */
  function Aged(c: Counter, now: int): Counter {
    if Passed(c.deadline, now) then Counter(Some(0), None) else c
  }

  /** One step: exact, or refused when the text is no number or the sum leaves 64 bits. */
  function Counted(c: Counter, step: Delta): (Counter, Resp) {
    var now := Aged(c, step.time);
    match now.value
    case None => (now, NotAnInteger())
    case Some(n) =>
      if Deadline.Fits(n + step.amount) then (now.(value := Some(n + step.amount)), Integer(n + step.amount))
      else (now, Overflow())
  }

  function CountAll(c: Counter, steps: seq<Delta>): (r: (Counter, seq<Resp>))
    ensures |r.1| == |steps|
    decreases |steps|
  {
    if steps == [] then (c, [])
    else
      var (next, reply) := Counted(c, steps[0]);
      var (end, replies) := CountAll(next, steps[1..]);
      (end, [reply] + replies)
  }

  /** The entry before the first step and after each. */
  function Entries(oe: Option<Entry>, steps: seq<Delta>): (r: seq<Option<Entry>>)
    ensures |r| == |steps| + 1 && r[0] == oe
    decreases |steps|
  {
    if steps == [] then [oe]
    else [oe] + Entries(IncrementBy(Later(oe, steps[0].time), steps[0].amount, steps[0].time).entry, steps[1..])
  }

  lemma CountOnce(oe: Option<Entry>, step: Delta)
    requires !StringOf(oe).WrongType?
    ensures var out := IncrementBy(Later(oe, step.time), step.amount, step.time);
            && !StringOf(out.entry).WrongType?
            && (CounterOf(out.entry), out.reply) == Counted(CounterOf(oe), step)
            && (out.reply.Error? ==> out.entry == Later(oe, step.time))
  {
    AgedEntry(oe, step.time);
    AddedOnce(Later(oe, step.time), step);
    hide CounterOf, IncrementBy, Later, StringOf;
  }

  lemma AgedEntry(oe: Option<Entry>, now: int)
    requires !StringOf(oe).WrongType?
    ensures var later := Later(oe, now);
            !StringOf(later).WrongType? && CounterOf(later) == Aged(CounterOf(oe), now)
                && !Passed(DeadlineIn(later), now)
  {
    hide Decimal.Parse;
  }

  lemma AddedOnce(oe: Option<Entry>, step: Delta)
    requires !StringOf(oe).WrongType? && !Passed(DeadlineIn(oe), step.time)
    ensures var out := IncrementBy(oe, step.amount, step.time);
            && !StringOf(out.entry).WrongType?
            && (CounterOf(out.entry), out.reply) == Counted(CounterOf(oe), step)
            && (out.reply.Error? ==> out.entry == oe)
  {
    var c := CounterOf(oe);
    if c.value.Some? { SumIsHeld(oe, c.value.value, step); }
    hide Decimal.Parse, Ascii, Added;
  }

  lemma SumIsHeld(oe: Option<Entry>, n: int, step: Delta)
    requires !Passed(DeadlineIn(oe), step.time)
    ensures var out, sum := Added(oe, n, step.amount, step.time), n + step.amount;
            if Deadline.Fits(sum) then
              && out.reply == Integer(sum) && !StringOf(out.entry).WrongType?
              && CounterOf(out.entry) == Counter(Some(sum), DeadlineIn(oe))
            else out == Out(oe, Overflow())
  {
    Decimal.ParseInvertsFormat(n + step.amount);
    hide Decimal.Parse, Decimal.Format, Ascii, Deadline.Fits;
  }

  /** A step that is refused leaves the entry as the clock left it. */
  predicate RefusalsKeep(entries: seq<Option<Entry>>, steps: seq<Delta>, replies: seq<Resp>) {
    && |entries| == |replies| + 1 && |steps| == |replies|
    && forall i :: 0 <= i < |replies| && replies[i].Error? ==> entries[i + 1] == Later(entries[i], steps[i].time)
  }

  lemma OneMoreStep(
      oe: Option<Entry>, step: Delta, reply: Resp, entries: seq<Option<Entry>>, steps: seq<Delta>, replies: seq<Resp>)
    requires RefusalsKeep(entries, steps, replies) && (reply.Error? ==> entries[0] == Later(oe, step.time))
    ensures RefusalsKeep([oe] + entries, [step] + steps, [reply] + replies)
  {
    hide Later;
    var es, ss, rs := [oe] + entries, [step] + steps, [reply] + replies;
    forall i | 0 <= i < |rs| && rs[i].Error? ensures es[i + 1] == Later(es[i], ss[i].time) {
      assert es[i + 1] == entries[i];
      if i > 0 { assert rs[i] == replies[i - 1] && es[i] == entries[i - 1] && ss[i] == steps[i - 1]; }
    }
  }

  lemma {:induction false} RefusalsChangeNothing(oe: Option<Entry>, steps: seq<Delta>)
    requires !StringOf(oe).WrongType?
    ensures RefusalsKeep(Entries(oe, steps), steps, CountUp(oe, steps).1)
    decreases |steps|
  {
    hide StringOf, CounterOf, Counted, IncrementBy, Later;
    if steps != [] {
      CountOnce(oe, steps[0]);
      var out := IncrementBy(Later(oe, steps[0].time), steps[0].amount, steps[0].time);
      RefusalsChangeNothing(out.entry, steps[1..]);
      hide RefusalsKeep;
      OneMoreStep(oe, steps[0], out.reply, Entries(out.entry, steps[1..]), steps[1..],
          CountUp(out.entry, steps[1..]).1);
      assert [steps[0]] + steps[1..] == steps;
    }
  }

  lemma {:induction false} CountsExactly(oe: Option<Entry>, steps: seq<Delta>)
    requires !StringOf(oe).WrongType?
    ensures var (end, replies) := CountUp(oe, steps);
            (CounterOf(end), replies) == CountAll(CounterOf(oe), steps) && end == Entries(oe, steps)[|steps|]
    decreases |steps|
  {
    hide StringOf, CounterOf, Counted, IncrementBy, Later;
    if steps != [] {
      CountOnce(oe, steps[0]);
      CountsExactly(IncrementBy(Later(oe, steps[0].time), steps[0].amount, steps[0].time).entry, steps[1..]);
    }
  }

  /** Over any run of counter commands on a string or missing key, at whatever times, the entry is
      the exact counter: it restarts at zero when its deadline passes, text that is no number
      refuses every step, the replies say so, and a refused step changes nothing. */
  lemma CounterRun(oe: Option<Entry>, steps: seq<Delta>)
    requires !StringOf(oe).WrongType?
    ensures var (end, replies) := CountUp(oe, steps);
            var entries := Entries(oe, steps);
            && (CounterOf(end), replies) == CountAll(CounterOf(oe), steps) && end == entries[|steps|]
            && RefusalsKeep(entries, steps, replies)
  {
    hide CountUp, Entries, CounterOf, CountAll, RefusalsKeep, StringOf;
    CountsExactly(oe, steps);
    RefusalsChangeNothing(oe, steps);
  }

  /** A key of another type refuses and stays. */
  lemma OtherTypesRefuse(oe: Option<Entry>, step: Delta)
    requires StringOf(oe).WrongType?
    ensures IncrementBy(oe, step.amount, step.time) == Out(oe, WrongTypeError())
  {
  }

  /** The sum of the deltas that were accepted. */
  function Accepted(steps: seq<Delta>, replies: seq<Resp>): int
    requires |steps| == |replies|
  {
    if steps == [] then 0
    else (if replies[0].Integer? then steps[0].amount else 0) + Accepted(steps[1..], replies[1..])
  }

  /** While its deadline is ahead, a counter is its start plus the accepted deltas, and keeps its
      deadline; text that is no number stays as it is and refuses every step. */
  lemma {:induction false} CounterIsSum(c: Counter, steps: seq<Delta>)
    requires forall i :: 0 <= i < |steps| ==> !Passed(c.deadline, steps[i].time)
    ensures var (end, replies) := CountAll(c, steps);
            && end.deadline == c.deadline
            && (c.value.Some? ==> end.value == Some(c.value.value + Accepted(steps, replies)))
            && (c.value.None? ==> end == c && forall i :: 0 <= i < |steps| ==> replies[i] == NotAnInteger())
    decreases |steps|
  {
    hide Deadline.Fits, Ascii;
    if steps != [] {
      var (next, reply) := Counted(c, steps[0]);
      CounterIsSum(next, steps[1..]);
      var replies := CountAll(c, steps).1;
      assert replies[1..] == CountAll(next, steps[1..]).1;
      if c.value.None? {
        forall i | 0 <= i < |steps| ensures replies[i] == NotAnInteger() {
          if i > 0 { assert replies[i] == replies[1..][i - 1]; }
        }
      }
    }
  }

  /** DECRBY of the least 64-bit integer adds 2^63 exactly; negating it never overflows. */
  lemma DecrementByMinimum(oe: Option<Entry>, name: Arg, k: Arg, amount: Arg, now: int64)
    requires amount == Decimal.Format(MIN_INT64)
    ensures S.IncrementArg(oe, [name, k, amount], true, now) == IncrementBy(oe, TWO63, now)
  {
    Decimal.ParseInvertsFormat(MIN_INT64);
  }

  // ---------------------------------------------------------------- lists as deques

  function PushEach(oe: Option<Entry>, values: seq<bytes>, left: bool): Option<Entry>
    decreases |values|
  {
    if values == [] then oe else PushEach(Pushed(oe, [values[0]], left, false).entry, values[1..], left)
  }

  lemma ReversedSplit(values: seq<bytes>, items: seq<bytes>)
    requires values != []
    ensures Reversed(values) + items == Reversed(values[1..]) + ([values[0]] + items)
    ensures Reversed([values[0]]) == [values[0]]
  {
    assert Reversed(values) == Reversed(values[1..]) + [values[0]];
  }

  /** Pushing n values is pushing them one at a time, in order, at either end. */
  lemma {:induction false} PushIsOneByOne(oe: Option<Entry>, values: seq<bytes>, left: bool)
    requires !ListOf(oe).WrongType? && values != []
    ensures Pushed(oe, values, left, false).entry == PushEach(oe, values, left)
    decreases |values|
  {
    var items := ItemsIn(oe);
    var next := Pushed(oe, [values[0]], left, false).entry;
    ReversedSplit(values, items);
    assert items + values == items + [values[0]] + values[1..];
    if |values| > 1 {
      PushIsOneByOne(next, values[1..], left);
    } else {
      assert values == [values[0]];
    }
  }

  /** The values a list reply carries: one, several, or none for a null or an error. */
  function Answered(r: Resp): seq<bytes> {
    match r
    case Bulk(data) => [data]
    case Array(items) => Datas(items)
    case _ => []
  }

  function Datas(items: seq<Resp>): (r: seq<bytes>)
    ensures |r| == |items|
  {
    seq(|items|, i requires 0 <= i < |items| => if items[i].Bulk? then items[i].data else [])
  }

  lemma DatasOfBulks(parts: seq<bytes>)
    ensures Datas(Bulks(parts)) == parts
  {
  }

  /** LPOP and RPOP conserve: whatever the arguments, the values in the reply and the items left
      make up the old list, in order; what is left keeps the deadline, and the key goes with its
      last item; an error changes nothing. */
  lemma PopConserves(oe: Option<Entry>, args: seq<Arg>, left: bool)
    ensures var out := S.Pop(oe, args, left);
            var popped, rest := Answered(out.reply), ItemsIn(out.entry);
            && ItemsIn(oe) == (if left then popped + rest else rest + popped)
            && (out.reply.Error? ==> out.entry == oe)
            && (rest != [] ==> DeadlineIn(out.entry) == DeadlineIn(oe))
            && (rest == [] && popped != [] ==> out.entry.None?)
  {
    hide Decimal.ParseInt64, Ascii, Popped, Answered;
    assert ItemsIn(oe) == (if left then [] + ItemsIn(oe) else ItemsIn(oe) + []);
    NothingAnswered(SyntaxError());
    NothingAnswered(WrongTypeError());
    NothingAnswered(NotAnInteger());
    NothingAnswered(NullBulk);
    NothingAnswered(Array([]));
    if ListOf(oe).Found? && (|args| == 2 || |args| == 3) {
      var wanted := if |args| == 3 then Decimal.ParseInt64(args[2]) else Some(1);
      if wanted.Some? && wanted.value >= 0 {
        PoppedConserves(ListOf(oe).value, wanted.value, left, |args| == 3, DeadlineIn(oe));
      }
    }
  }

  lemma NothingAnswered(r: Resp)
    requires r.Error? || r.NullBulk? || r == Array([])
    ensures Answered(r) == []
  {
  }

  lemma PoppedConserves(items: seq<bytes>, wanted: nat, left: bool, many: bool, deadline: Option<int>)
    requires many || wanted == 1
    ensures var out := Popped(items, wanted, left, many, deadline);
            var popped, rest := Answered(out.reply), ItemsIn(out.entry);
            && items == (if left then popped + rest else rest + popped)
            && !out.reply.Error?
            && (rest != [] ==> DeadlineIn(out.entry) == deadline)
            && (rest == [] ==> out.entry.None?)
  {
    var count := if wanted < |items| then wanted else |items|;
    EndsSplit(items, count, left);
    ReplyCarries(EndItems(items, count, left), many);
    Remains(OtherItems(items, count, left), deadline);
    hide Answered, ItemsIn, ListUntil, DeadlineIn, EndItems, OtherItems;
  }

  lemma EndsSplit(items: seq<bytes>, count: nat, left: bool)
    requires count <= |items|
    ensures var popped, rest := EndItems(items, count, left), OtherItems(items, count, left);
            |popped| == count && items == if left then popped + rest else rest + popped
  {
  }

  lemma ReplyCarries(popped: seq<bytes>, many: bool)
    requires many || |popped| <= 1
    ensures var reply := if many then Array(Bulks(popped)) else if popped == [] then NullBulk else Bulk(popped[0]);
            Answered(reply) == popped && !reply.Error?
  {
    DatasOfBulks(popped);
  }

  lemma Remains(rest: seq<bytes>, deadline: Option<int>)
    ensures var oe := ListUntil(rest, deadline);
            ItemsIn(oe) == rest && (oe.None? <==> rest == []) && (rest != [] ==> DeadlineIn(oe) == deadline)
  {
  }

  /** A pop takes as many items as it is asked for, or all there are. */
  lemma PopTakes(e: Entry, args: seq<Arg>, left: bool)
    requires e.value.Items? && |args| == 3 && Decimal.ParseInt64(args[2]).Some?
        && Decimal.ParseInt64(args[2]).value >= 0
    ensures var out, wanted, size := S.Pop(Some(e), args, left), Decimal.ParseInt64(args[2]).value, |e.value.items|;
            out.reply.Array? && |Answered(out.reply)| == (if wanted < size then wanted else size)
  {
    var wanted, items := Decimal.ParseInt64(args[2]).value, e.value.items;
    var count := if wanted < |items| then wanted else |items|;
    EndsSplit(items, count, left);
    ReplyCarries(EndItems(items, count, left), true);
    hide Decimal.ParseInt64, Ascii, ListUntil, Answered, EndItems;
  }

  /** A pop undoes a push at the same end. */
  lemma PopUndoesPush(e: Entry, value: bytes, left: bool)
    requires e.value.Items? && e.value.items != []
    ensures var pushed := Pushed(Some(e), [value], left, false).entry;
            && pushed.Some? && pushed.value.value.Items?
            && Popped(pushed.value.value.items, 1, left, false, pushed.value.deadline) == Out(Some(e), Bulk(value))
  {
    ReversedSplit([value], e.value.items);
    var items := if left then [value] + e.value.items else e.value.items + [value];
    assert Pushed(Some(e), [value], left, false).entry == Some(Entry(Items(items), e.deadline));
    assert left ==> items[1..] == e.value.items;
    assert !left ==> items[..|items| - 1] == e.value.items;
  }

  // ---------------------------------------------------------------- hashes

  /** HSET's count is how much the hash grew, HDEL's how much it shrank. */
  lemma {:induction false} StoredCount(fields: map<bytes, Field>, args: seq<Arg>, i: nat)
    ensures |StorePairs(fields, args, i).0| == |fields| + StorePairs(fields, args, i).1
    decreases |args| - i
  {
    if i + 1 < |args| {
      var next := fields[args[i] := Field(args[i + 1], None)];
      assert next.Keys == fields.Keys + {args[i]};
      assert |next| == |fields| + if args[i] in fields then 0 else 1 by {
        assert |next| == |next.Keys| && |fields| == |fields.Keys|;
        if args[i] in fields { assert next.Keys == fields.Keys; }
      }
      StoredCount(next, args, i + 2);
    }
  }

  lemma {:induction false} DroppedCount(fields: map<bytes, Field>, args: seq<Arg>, i: nat)
    ensures |DropFields(fields, args, i).0| == |fields| - DropFields(fields, args, i).1
    ensures forall f :: f in DropFields(fields, args, i).0 <==> f in fields && (i >= |args| || f !in args[i..])
    decreases |args| - i
  {
    if i < |args| {
      var next := fields - {args[i]};
      assert next.Keys == fields.Keys - {args[i]};
      assert |next| == |fields| - if args[i] in fields then 1 else 0 by {
        assert |next| == |next.Keys| && |fields| == |fields.Keys|;
        if args[i] !in fields { assert next.Keys == fields.Keys; }
      }
      DroppedCount(next, args, i + 1);
      assert args[i..] == [args[i]] + args[i + 1..];
    }
  }

  // ---------------------------------------------------------------- deadlines

  predicate NoDeadline(oe: Option<Entry>) { oe.Some? ==> oe.value.deadline.None? }

  lemma FreshStrings(args: seq<Arg>, now: int64, delta: int, flag: bool, name: bytes)
    ensures NoDeadline(S.Get(None, args).entry) && NoDeadline(S.SetNX(None, args, now).entry)
    ensures NoDeadline(S.GetSet(None, args, now).entry) && NoDeadline(S.GetDel(None, args).entry)
    ensures NoDeadline(S.GetEx(None, args, now).entry) && NoDeadline(S.StrLen(None, args).entry)
    ensures NoDeadline(S.Append(None, args, now).entry) && NoDeadline(S.Increment(None, args, delta, now).entry)
    ensures NoDeadline(S.IncrementArg(None, args, flag, now).entry) && NoDeadline(S.Expire(None, args, name, now).entry)
    ensures NoDeadline(S.Ttl(None, args, flag, now).entry) && NoDeadline(S.Persist(None, args).entry)
    ensures NoDeadline(S.TypeName(None, args).entry)
  {
    hide Ascii, Upper, Decimal.ParseInt64, Decimal.Format, Deadline.FromCommand, Deadline.Fits, UnitOf, IsAbsolute;
  }

  lemma FreshHashes(args: seq<Arg>, part: Part)
    ensures NoDeadline(S.HSet(None, args).entry) && NoDeadline(S.HGet(None, args).entry)
        && NoDeadline(S.HMGet(None, args).entry)
    ensures NoDeadline(S.HList(None, args, part).entry) && NoDeadline(S.HExists(None, args).entry)
        && NoDeadline(S.HLen(None, args).entry)
  {
    hide Ascii, StorePairs, Show;
  }

  lemma FreshField(f: Arg, delta: int64)
    ensures NoDeadline(HashIncrement(None, f, delta).entry)
  {
    hide Ascii, Decimal.Parse, Decimal.Format, Deadline.Fits;
  }

  lemma FreshCounters(args: seq<Arg>)
    ensures NoDeadline(S.HDel(None, args).entry) && NoDeadline(S.HIncrBy(None, args).entry)
  {
    hide Ascii, Decimal.ParseInt64, HashIncrement, DropFields;
    if |args| == 4 && Decimal.ParseInt64(args[3]).Some? { FreshField(args[2], Decimal.ParseInt64(args[3]).value); }
  }

  lemma FreshSets(args: seq<Arg>)
    ensures NoDeadline(S.SAdd(None, args).entry) && NoDeadline(S.SRem(None, args).entry)
        && NoDeadline(S.SIsMember(None, args).entry)
    ensures NoDeadline(S.SMIsMember(None, args).entry) && NoDeadline(S.SMembers(None, args).entry)
        && NoDeadline(S.SCard(None, args).entry)
  {
    hide Ascii, Named;
  }

  lemma FreshLists(args: seq<Arg>, a: bool, b: bool)
    ensures NoDeadline(S.Push(None, args, a, b).entry) && NoDeadline(S.Range(None, args, a).entry)
    ensures NoDeadline(S.LLen(None, args).entry) && NoDeadline(S.Pop(None, args, a).entry)
  {
    hide Ascii, Reversed, KeepRange, Decimal.ParseInt64;
  }

  /** A key created by a command starts without a deadline unless that command gives it one:
      nothing is inherited from an earlier life of the key. */
  lemma FreshKeysHaveNoDeadline(c: I.KeyCommand, args: seq<Arg>, now: int64)
    ensures NoDeadline(I.OnEntry(c, None, args, now).entry)
            || c.SetEX?
            || (c.Set? && ParseSet(args, 3, NO_OPTIONS, now).Good?
                && ParseSet(args, 3, NO_OPTIONS, now).value.hasExpiry)
  {
    hide NoDeadline;
    hide S.Get, S.StrLen, S.GetDel, S.GetSet, S.SetNX, S.Append, S.TypeName, S.Persist, S.Ttl, S.SetEX, S.Expire;
    hide S.GetEx, S.Increment, S.IncrementArg, S.HIncrBy, S.HSet, S.HGet, S.HMGet, S.HDel, S.HExists, S.HLen, S.HList;
    hide S.SAdd, S.SRem, S.SIsMember, S.SMIsMember, S.SMembers, S.SCard, S.Push, S.Range, S.LLen, S.Pop, S.Set;
    match c
    case Set => FreshSet(args, now);
    case Increment(delta) => FreshStrings(args, now, delta, false, []);
    case IncrementArg(decrement) => FreshStrings(args, now, 0, decrement, []);
    case Expire(name) => FreshStrings(args, now, 0, false, name);
    case Ttl(ms) => FreshStrings(args, now, 0, ms, []);
    case HList(part) => FreshHashes(args, part);
    case HDel | HIncrBy => FreshCounters(args);
    case HSet | HGet | HMGet | HExists | HLen => FreshHashes(args, Both);
    case Push(left, onlyIfExists) => FreshLists(args, left, onlyIfExists);
    case Range(trim) => FreshLists(args, trim, false);
    case Pop(left) => FreshLists(args, left, false);
    case LLen => FreshLists(args, false, false);
    case SAdd | SRem | SIsMember | SMIsMember | SMembers | SCard => FreshSets(args);
    case _ => FreshStrings(args, now, 0, false, []);
  }

  lemma FreshSet(args: seq<Arg>, now: int64)
    ensures NoDeadline(S.Set(None, args, now).entry)
            || (ParseSet(args, 3, NO_OPTIONS, now).Good? && ParseSet(args, 3, NO_OPTIONS, now).value.hasExpiry)
  {
    hide ParseSet;
  }

  lemma {:induction false} PairsHaveNoDeadline(ks: Keyspace, args: seq<Arg>, i: nat, now: int64, k: key)
    requires NoDeadline(Find(ks, k))
    ensures NoDeadline(Find(I.AssignPairs(ks, args, i, now), k))
    decreases |args| - i
  {
    if i + 1 < |args| {
      PairsHaveNoDeadline(Assign(ks, args[i], StringUntil(args[i + 1], None, now)), args, i + 2, now, k);
    }
  }

  /** The one way a command gives a key it creates a deadline: SETEX, PSETEX, or an expiry of SET. */
  predicate AsksForDeadline(c: I.Command, args: seq<Arg>, now: int64) {
    c.OnKey? && (c.command.SetEX? ||
                 (c.command.Set? && ParseSet(args, 3, NO_OPTIONS, now).Good?
                  && ParseSet(args, 3, NO_OPTIONS, now).value.hasExpiry))
  }

  /** No command, over one key or many, gives a key that was not there a deadline its own
      arguments do not ask for. */
  lemma NothingIsInherited(ks: Keyspace, now: int64, args: seq<Arg>, c: I.Command, matcher: I.Matcher, k: key)
    requires k !in ks
    ensures NoDeadline(Find(I.Exec(ks, now, args, c, matcher).0, k)) || AsksForDeadline(c, args, now)
  {
    hide I.OnEntry, I.AssignPairs, I.RemoveNamed, ParseSet, I.ScanReply, I.MGetReply, I.KeyNames, I.Matching;
    match c
    case OnKey(command) => if |args| >= 2 { FreshKeysHaveNoDeadline(command, args, now); }
    case MSet => PairsHaveNoDeadline(ks, args, 1, now, k);
    case MSetNX => PairsHaveNoDeadline(ks, args, 1, now, k);
    case Del => if |args| >= 2 { RemovingAddsNothing(ks, args, 1, k); }
    case _ =>
  }

  lemma {:induction false} RemovingAddsNothing(ks: Keyspace, args: seq<Arg>, i: nat, k: key)
    requires k !in ks
    ensures k !in I.RemoveNamed(ks, args, i)
    decreases |args| - i
  {
    if i < |args| { RemovingAddsNothing(ks - {args[i]}, args, i + 1, k); }
  }

  // ---------------------------------------------------------------- key discovery

  /** KEYS and DBSIZE: exactly the keys that have a type, once each, in byte order. */
  lemma KeyNamesAreExact(ks: Keyspace)
    ensures forall k: key :: k in I.KeyNames(ks) <==> k in ks
    ensures |I.KeyNames(ks)| == |ks|
    ensures StrictlySorted(I.KeyNames(ks))
  {
    var keys := set k: bytes | k in ks.Keys;
    ListingMembers(keys);
    assert keys == ks.Keys;
    forall k | k in I.KeyNames(ks) ensures k in keys {
      var i :| 0 <= i < |I.KeyNames(ks)| && I.KeyNames(ks)[i] == k;
    }
  }

  lemma {:induction false} MatchingIsExact(matcher: I.Matcher, pattern: bytes, names: seq<bytes>)
    requires StrictlySorted(names)
    ensures forall x :: x in I.Matching(matcher, pattern, names) <==> x in names && matcher(pattern, x)
    ensures StrictlySorted(I.Matching(matcher, pattern, names))
    decreases |names|
  {
    if names != [] {
      var front, last := names[..|names| - 1], names[|names| - 1];
      MatchingIsExact(matcher, pattern, front);
      assert names == front + [last];
      var rest := I.Matching(matcher, pattern, front);
      forall i | 0 <= i < |rest| ensures Less(rest[i], last) {
        assert rest[i] in front;
        var j :| 0 <= j < |front| && front[j] == rest[i];
        assert names[j] == rest[i];
      }
    }
  }

  /** MGET of one missing key is answered by an array with a null in it, which the reader of the
      same project does not give back, whatever follows it. */
  lemma MissingKeyIsUnreadable(ks: Keyspace, name: Arg, k: Arg, rest: bytes)
    requires k !in ks
    ensures var reply := I.MGetReply(ks, [name, k]);
            reply == Array([NullBulk]) && Write(reply).Some? && Read(Write(reply).value + rest) != Ok((reply, rest))
  {
    var reply := I.MGetReply(ks, [name, k]);
    assert [name, k][1..] == [k];
    assert reply == Array([NullBulk]);
    assert Write(NullBulk).Some? && WriteItems([]) == Some([]) && [NullBulk][1..] == [];
    assert WriteItems([NullBulk]).Some?;
    assert Write(reply).Some?;
    ReadBack(reply, rest);
    hide Read, Write;
  }

  /** SCAN cursor MATCH pattern COUNT count, as a client sends it. */
  function Request(cursor: Arg, pattern: Arg, count: nat): seq<Arg>
    requires count <= MAX_INT64
  {
    Decimal.Format64Length(count);
    [Ascii("SCAN"), cursor, Ascii("MATCH"), pattern, Ascii("COUNT"), Decimal.Format(count)]
  }

  lemma OptionNames()
    ensures Upper(Ascii("MATCH")) == Ascii("MATCH") && Upper(Ascii("COUNT")) == Ascii("COUNT")
    ensures Ascii("MATCH") != Ascii("COUNT")
  {
    assert Ascii("MATCH")[0] == 77 && Ascii("COUNT")[0] == 67;
  }

  lemma RequestParses(cursor: Arg, pattern: Arg, count: nat)
    requires 1 <= count <= MAX_INT64
    ensures I.ParseScan(Request(cursor, pattern, count), 2, I.SCAN_DEFAULTS) == Good(I.ScanOptions(pattern, count))
  {
    OptionNames();
    Decimal.ParseInvertsFormat(count);
    hide Ascii, Upper, Decimal.Format, Decimal.Parse;
    var args := Request(cursor, pattern, count);
    var o := I.SCAN_DEFAULTS.(pattern := pattern);
    assert I.ParseNonNegative(args[5]) == Some(count);
    assert I.ParseScan(args, 6, o.(count := count)) == Good(o.(count := count));
    assert I.ParseScan(args, 4, o) == Good(o.(count := count));
  }

  ghost function Names(ks: Keyspace, pattern: Arg, matcher: I.Matcher): seq<bytes> {
    I.Matching(matcher, pattern, I.KeyNames(ks))
  }

  /** The text of a cursor. */
  function CursorArg(cursor: nat): Arg
    requires cursor <= MAX_INT64
  {
    Decimal.Format64Length(cursor);
    Decimal.Format(cursor)
  }

  lemma CursorText(cursor: nat)
    requires cursor <= MAX_INT64
    ensures I.ParseNonNegative(CursorArg(cursor)) == Some(cursor)
    ensures CursorArg(cursor) == Ascii("0") <==> cursor == 0
  {
    Decimal.Format64Length(cursor);
    Decimal.ParseInvertsFormat(cursor);
    Decimal.ParseInvertsFormat(0);
    assert Decimal.Format(0) == [48] == Ascii("0");
  }

  /** When SCAN answers: exactly while its cursor is past the matching keys or the sum with its
      COUNT fits 64 bits. */
  lemma ScanAnswersIff(ks: Keyspace, cursor: nat, pattern: Arg, count: nat, matcher: I.Matcher)
    requires cursor <= MAX_INT64 && 1 <= count <= MAX_INT64
    ensures I.ScanFits(ks, Request(CursorArg(cursor), pattern, count), matcher) <==>
            cursor >= |Names(ks, pattern, matcher)| || cursor + count <= MAX_INT64
  {
    CursorText(cursor);
    RequestParses(CursorArg(cursor), pattern, count);
    hide CursorArg, I.ParseScan, I.Matching, I.KeyNames, I.ParseNonNegative;
  }

  /** Two keys, SCAN 1 MATCH pattern COUNT 9223372036854775807: no answer. The same command on an
      empty keyspace is answered. */
  lemma ScanOverflows(k1: key, k2: key, e: Entry, pattern: Arg, matcher: I.Matcher)
    requires k1 != k2 && matcher(pattern, k1) && matcher(pattern, k2)
    ensures !I.ScanFits(map[k1 := e, k2 := e], Request(CursorArg(1), pattern, MAX_INT64), matcher)
    ensures I.ScanFits(map[], Request(CursorArg(1), pattern, MAX_INT64), matcher)
  {
    var ks := map[k1 := e, k2 := e];
    ScanAnswersIff(ks, 1, pattern, MAX_INT64, matcher);
    ScanAnswersIff(map[], 1, pattern, MAX_INT64, matcher);
    NothingMatches(pattern, matcher);
    BothMatch(ks, k1, k2, pattern, matcher);
    hide Names, I.ScanFits, Request, CursorArg;
  }

  lemma BothMatch(ks: Keyspace, k1: key, k2: key, pattern: Arg, matcher: I.Matcher)
    requires k1 != k2 && k1 in ks && k2 in ks && matcher(pattern, k1) && matcher(pattern, k2)
    ensures |Names(ks, pattern, matcher)| >= 2
  {
    KeyNamesAreExact(ks);
    MatchingIsExact(matcher, pattern, I.KeyNames(ks));
    hide I.Matching, I.KeyNames;
    var names := Names(ks, pattern, matcher);
    assert k1 in names && k2 in names;
    var i :| 0 <= i < |names| && names[i] == k1;
    var j :| 0 <= j < |names| && names[j] == k2;
  }

  lemma NothingMatches(pattern: Arg, matcher: I.Matcher)
    ensures Names(map[], pattern, matcher) == []
  {
    KeyNamesAreExact(map[]);
  }

  /** A client that sends SCAN with the cursor text of the last reply, a COUNT of its own each
      time, until that text is 0; it collects the keys of the pages. A request that gets no
      answer ends the walk too. */
  ghost function Walk(ks: Keyspace, pattern: Arg, matcher: I.Matcher, cursor: Arg, counts: seq<nat>)
    : (seq<bytes>, bool)
    requires forall i :: 0 <= i < |counts| ==> counts[i] <= MAX_INT64
    decreases |counts|
  {
    if counts == [] || !I.ScanFits(ks, Request(cursor, pattern, counts[0]), matcher) then ([], false)
    else
      var reply := I.ScanReply(ks, Request(cursor, pattern, counts[0]), matcher);
      if !(reply.Array? && |reply.items| == 2 && reply.items[0].Bulk?) then ([], false)
      else
        var page, next := Answered(reply.items[1]), reply.items[0].data;
        if next == Ascii("0") then (page, true)
        else if |next| > MAX_BULK then (page, false)
        else
          var (rest, done) := Walk(ks, pattern, matcher, next, counts[1..]);
          (page + rest, done)
  }

  /** The reply to one request of the walk. */
  lemma PageOf(ks: Keyspace, pattern: Arg, matcher: I.Matcher, cursor: nat, count: nat)
    requires cursor <= MAX_INT64 && 1 <= count <= MAX_INT64
    ensures var names := Names(ks, pattern, matcher);
            I.ScanReply(ks, Request(CursorArg(cursor), pattern, count), matcher) == I.ScanPage(names, cursor, count)
  {
    CursorText(cursor);
    RequestParses(CursorArg(cursor), pattern, count);
    hide CursorArg, I.ParseScan, I.Matching, I.KeyNames, I.ParseNonNegative, I.ScanPage;
  }

  lemma PageShows(names: seq<bytes>, cursor: nat, count: nat)
    requires cursor < |names| <= MAX_INT64 && count > 0
    ensures var reply, end := I.ScanPage(names, cursor, count), I.PageEnd(|names|, cursor, count);
            && reply.Array? && |reply.items| == 2 && reply.items[0].Bulk?
            && cursor < end <= |names| && Answered(reply.items[1]) == names[cursor..end]
            && reply.items[0].data == CursorArg(if end < |names| then end else 0)
  {
    DatasOfBulks(names[cursor..I.PageEnd(|names|, cursor, count)]);
  }

  /** The requests a walk over `size` keys sends from `cursor` on all have sums that fit. */
  predicate SumsFit(size: nat, cursor: nat, counts: seq<nat>)
    decreases |counts|
  {
    counts == [] ||
    (cursor + counts[0] <= MAX_INT64 && (cursor + counts[0] >= size || SumsFit(size, cursor + counts[0], counts[1..])))
  }

  /** On an unchanged keyspace, and with COUNTs enough, the walk from any cursor it was given ends
      if and only if each of its requests adds up to 64 bits; then it has seen every matching key
      from there on exactly once, in order, and otherwise the first few of them. */
  lemma {:induction false} WalkSeesTheRest(ks: Keyspace, pattern: Arg, matcher: I.Matcher, cursor: nat,
      counts: seq<nat>)
    requires cursor < |Names(ks, pattern, matcher)| <= MAX_INT64
    requires forall i :: 0 <= i < |counts| ==> 1 <= counts[i] <= MAX_INT64
    requires |counts| >= |Names(ks, pattern, matcher)| - cursor
    ensures var (seen, done) := Walk(ks, pattern, matcher, CursorArg(cursor), counts);
            var names := Names(ks, pattern, matcher);
            && (done <==> SumsFit(|names|, cursor, counts))
            && seen <= names[cursor..] && (done ==> seen == names[cursor..])
    decreases |counts|
  {
    hide Names, I.ScanReply, I.ScanPage, I.ScanFits, Request, Answered, CursorArg;
    var names := Names(ks, pattern, matcher);
    var end := I.PageEnd(|names|, cursor, counts[0]);
    ScanAnswersIff(ks, cursor, pattern, counts[0], matcher);
    PageOf(ks, pattern, matcher, cursor, counts[0]);
    PageShows(names, cursor, counts[0]);
    CursorText(0);
    CursorText(end);
    assert names[cursor..end] + names[end..] == names[cursor..];
    if cursor + counts[0] <= MAX_INT64 && end < |names| {
      WalkSeesTheRest(ks, pattern, matcher, end, counts[1..]);
    }
  }

  /** Following SCAN cursors from 0 lists the matching keys, each once and in order, and ends
      exactly when each request on the way adds up to 64 bits. */
  lemma WalkSeesEverything(ks: Keyspace, pattern: Arg, matcher: I.Matcher, counts: seq<nat>)
    requires |Names(ks, pattern, matcher)| <= MAX_INT64
    requires forall i :: 0 <= i < |counts| ==> 1 <= counts[i] <= MAX_INT64
    requires counts != [] && |counts| >= |Names(ks, pattern, matcher)|
    ensures var (seen, done) := Walk(ks, pattern, matcher, CursorArg(0), counts);
            var names := Names(ks, pattern, matcher);
            && (done <==> SumsFit(|names|, 0, counts))
            && seen <= names && (done ==> seen == names)
  {
    hide Names, I.ScanReply, I.ScanFits, Request, CursorArg, I.KeyNames, I.Matching;
    var names := Names(ks, pattern, matcher);
    CursorText(0);
    if names != [] {
      WalkSeesTheRest(ks, pattern, matcher, 0, counts);
      assert names[0..] == names;
    } else {
      ScanAnswersIff(ks, 0, pattern, counts[0], matcher);
      PageOf(ks, pattern, matcher, 0, counts[0]);
      assert Datas([]) == [];
    }
  }

  lemma {:induction false} SmallSumsFit(size: nat, cursor: nat, counts: seq<nat>)
    requires cursor == 0 || cursor < size
    requires forall i :: 0 <= i < |counts| ==> size + counts[i] <= MAX_INT64 + 1 && counts[i] <= MAX_INT64
    ensures SumsFit(size, cursor, counts)
    decreases |counts|
  {
    if counts != [] && cursor + counts[0] < size { SmallSumsFit(size, cursor + counts[0], counts[1..]); }
  }

  /** In particular with COUNTs that fit beside the last cursor there can be. */
  lemma WalkEnds(ks: Keyspace, pattern: Arg, matcher: I.Matcher, counts: seq<nat>)
    requires |Names(ks, pattern, matcher)| <= MAX_INT64
    requires forall i :: 0 <= i < |counts| ==> 1 <= counts[i] <= MAX_INT64
    requires forall i :: 0 <= i < |counts| ==> |Names(ks, pattern, matcher)| - 1 + counts[i] <= MAX_INT64
    requires counts != [] && |counts| >= |Names(ks, pattern, matcher)|
    ensures Walk(ks, pattern, matcher, CursorArg(0), counts) == (Names(ks, pattern, matcher), true)
  {
    hide Names, Walk, CursorArg;
    WalkSeesEverything(ks, pattern, matcher, counts);
    SmallSumsFit(|Names(ks, pattern, matcher)|, 0, counts);
  }

  lemma {:induction false} MatchingIsNoLonger(matcher: I.Matcher, pattern: bytes, names: seq<bytes>)
    ensures |I.Matching(matcher, pattern, names)| <= |names|
    decreases |names|
  {
    if names != [] { MatchingIsNoLonger(matcher, pattern, names[..|names| - 1]); }
  }

  /** Two keys, COUNT 1 and then COUNT 9223372036854775807: the second request has no answer, and
      the walk does not end. */
  lemma WalkOverflows(k1: key, k2: key, e: Entry, pattern: Arg, matcher: I.Matcher)
    requires k1 != k2 && matcher(pattern, k1) && matcher(pattern, k2)
    ensures !Walk(map[k1 := e, k2 := e], pattern, matcher, CursorArg(0), [1, MAX_INT64]).1
  {
    var ks, counts := map[k1 := e, k2 := e], [1, MAX_INT64];
    TwoMatch(k1, k2, e, pattern, matcher);
    hide Walk, CursorArg, Names;
    WalkSeesEverything(ks, pattern, matcher, counts);
    assert counts[1..] == [MAX_INT64];
    assert !SumsFit(2, 1, [MAX_INT64]);
  }

  lemma TwoMatch(k1: key, k2: key, e: Entry, pattern: Arg, matcher: I.Matcher)
    requires k1 != k2 && matcher(pattern, k1) && matcher(pattern, k2)
    ensures |Names(map[k1 := e, k2 := e], pattern, matcher)| == 2
  {
    var ks := map[k1 := e, k2 := e];
    BothMatch(ks, k1, k2, pattern, matcher);
    KeyNamesAreExact(ks);
    MatchingIsNoLonger(matcher, pattern, I.KeyNames(ks));
    hide I.KeyNames, I.Matching;
    assert |ks| == 2;
  }
}
