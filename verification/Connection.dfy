/** serveRedisConnection: bytes in, bytes out. A client that pipelines its requests gets back
    the encoded answers of the plain typed keyspace, one for each request, in order. */
module Connection {
  import opened Bytes
  import opened Keyspace
  import opened Resp
  import opened RespStream
  import opened RedisStorage
  import opened Effects
  import opened View
  import opened S = CommandSpec
  import I = Interpreter
  import Decimal
  import Dispatch
  import Writable
  import Runs

  // ---------------------------------------------------------------- requests

  function ArgOf(item: Resp): Option<bytes> {
    match item
    case Bulk(data) => Some(data)
    case Simple(data) => Some(data)
    case Integer(n) => Some(Decimal.Format(n))
    case _ => None
  }

  predicate IsCommand(request: Resp) {
    request.Array? && request.items != [] && forall i :: 0 <= i < |request.items| ==> ArgOf(request.items[i]).Some?
  }

  lemma ArgFits(item: Resp)
    requires Bounded(item) && ArgOf(item).Some?
    ensures |ArgOf(item).value| <= MAX_BULK
  {
    if item.Integer? { Decimal.Format64Length(item.value); }
  }

  function ArgsOf(request: Resp): (args: seq<Arg>)
    requires IsCommand(request) && Bounded(request)
    ensures |args| == |request.items|
  {
    seq(|request.items|, i requires 0 <= i < |request.items| => ArgAt(request, i))
  }

  function ArgAt(request: Resp, i: nat): Arg
    requires IsCommand(request) && Bounded(request) && i < |request.items|
  {
    BoundedAt(request.items, i);
    ArgFits(request.items[i]);
    ArgOf(request.items[i]).value
  }

  /** A request as a client sends it: an array of bulk strings. */
  function Encoded(args: seq<Arg>): Resp { Array(Bulks(args)) }

  function CommandIn(args: seq<Arg>): Option<I.Command> {
    if args == [] then None else I.CommandOf(Upper(args[0]))
  }

  /** A request the client may send: within the reader's limits and naming a data command. */
  predicate Sendable(args: seq<Arg>) {
    1 <= |args| <= MAX_ARGS && CommandIn(args).Some?
  }

  function Encodings(requests: seq<seq<Arg>>): (r: seq<Resp>)
    ensures |r| == |requests| && forall i :: 0 <= i < |r| ==> r[i] == Encoded(requests[i])
  {
    seq(|requests|, i requires 0 <= i < |requests| => Encoded(requests[i]))
  }

  lemma {:induction false} BulksAreReadable(args: seq<Arg>)
    ensures ItemsReadable(Bulks(args)) && WriteItems(Bulks(args)).Some?
    decreases |args|
  {
    if args != [] {
      BulksAreReadable(args[1..]);
      assert Bulks(args)[1..] == Bulks(args[1..]);
    }
  }

  lemma RequestReadsBack(args: seq<Arg>, rest: bytes)
    requires Sendable(args)
    ensures Write(Encoded(args)).Some? && Read(Write(Encoded(args)).value + rest) == Ok((Encoded(args), rest))
    ensures Bounded(Encoded(args)) && IsCommand(Encoded(args)) && ArgsOf(Encoded(args)) == args
  {
    BulksAreReadable(args);
    BulksAreBounded(args);
    ReadBack(Encoded(args), rest);
    assert ArgsOf(Encoded(args)) == args;
  }

  function ExpectedArray(): Resp { Error(Ascii("ERR expected a non-empty command array")) }
  function NullArgument(): Resp { Error(Ascii("ERR null command argument")) }
  function ExpectedStrings(): Resp { Error(Ascii("ERR command arguments must be strings")) }

  /** How many items can be arguments before the first that cannot. */
  function GoodItems(items: seq<Resp>): (n: nat)
    ensures n <= |items| && (forall i :: 0 <= i < n ==> ArgOf(items[i]).Some?)
    ensures n < |items| ==> ArgOf(items[n]).None?
  {
    if items == [] || ArgOf(items[0]).None? then 0 else 1 + GoodItems(items[1..])
  }

  /** The complaint about a request that is no command: its first bad item decides. */
  function ArgsFault(request: Resp): Resp {
    if !request.Array? || GoodItems(request.items) == |request.items| then ExpectedArray()
    else if request.items[GoodItems(request.items)].NullBulk? then NullArgument() else ExpectedStrings()
  }

  /** redisCommandArgs: every item must be a string or an integer. */
  method CommandArgs(request: Resp) returns (r: Parsed<seq<Arg>>)
    requires Bounded(request)
    ensures r.Good? == IsCommand(request)
    ensures r.Good? ==> r.value == ArgsOf(request)
    ensures r.Bad? ==> r.reply == ArgsFault(request)
  {
    if !request.Array? || request.items == [] { return Bad(ExpectedArray()); }
    var args: seq<Arg> := [];
    for i := 0 to |request.items|
      invariant |args| == i
      invariant forall j :: 0 <= j < i ==> ArgOf(request.items[j]) == Some(args[j])
    {
      var arg := ArgOf(request.items[i]);
      if arg.None? {
        return Bad(if request.items[i].NullBulk? then NullArgument() else ExpectedStrings());
      }
      BoundedAt(request.items, i);
      ArgFits(request.items[i]);
      args := args + [arg.value];
    }
    assert args == ArgsOf(request);
    return Good(args);
  }

  // ---------------------------------------------------------------- the connection loop

  /** The data command a request asks for, if it is one. */
  function Asked(request: Resp): Option<(I.Command, seq<Arg>)>
    requires Bounded(request)
  {
    if !IsCommand(request) || CommandIn(ArgsOf(request)).None? then None
    else Some((CommandIn(ArgsOf(request)).value, ArgsOf(request)))
  }

  /** What is said to a request that names no data command. */
  function Complaint(request: Resp): Resp
    requires Bounded(request)
  {
    if !IsCommand(request) then ArgsFault(request)
    else Error(Ascii("ERR unknown command '") + Upper(ArgsOf(request)[0]) + Ascii("'"))
  }

  /** One request answered: a data command refines the reference; anything else is an error. */
  method Answer(db: Database, request: Resp) returns (reply: Resp)
    requires Inv(db.engine.data) && db.now >= 0 && Bounded(request)
    requires Asked(request).Some? ==>
               I.Answerable(View.View(db.engine.data, db.now), Asked(request).value.1, Asked(request).value.0,
                   db.matcher)
    modifies db.engine
    ensures Inv(db.engine.data)
    ensures Asked(request).Some? ==>
              var (c, args) := Asked(request).value;
              var (ks, expected) := I.Exec(View.View(old(db.engine.data), db.now), db.now, args, c, db.matcher);
              View.View(db.engine.data, db.now) == ks && Dispatch.ReplyOk(c, args, expected, reply)
    ensures Asked(request).None? ==> reply == Complaint(request) && db.engine.data == old(db.engine.data)
  {
    hide Inv, View.View, I.Answerable, I.Exec, I.CommandOf, Dispatch.ReplyOk;
    var args := CommandArgs(request);
    if args.Bad? { return args.reply; }
    var c := CommandIn(args.value);
    if c.None? { return Error(Ascii("ERR unknown command '") + Upper(args.value[0]) + Ascii("'")); }
    reply := Dispatch.Run(db, c.value, args.value);
  }

  function EventOf(args: seq<Arg>, time: int64): Runs.Timed
    requires Sendable(args)
  {
    Runs.Timed(time, Runs.Redis(CommandIn(args).value, args))
  }

  predicate AllSendable(requests: seq<seq<Arg>>) { forall i :: 0 <= i < |requests| ==> Sendable(requests[i]) }

  /** The run a pipeline amounts to, given the clock reading each command is served at. */
  function TraceOf(requests: seq<seq<Arg>>, clock: seq<int64>): (r: seq<Runs.Timed>)
    requires |requests| == |clock| && AllSendable(requests)
    ensures |r| == |requests| && forall i :: 0 <= i < |r| ==> r[i] == EventOf(requests[i], clock[i])
  {
    seq(|requests|, i requires 0 <= i < |requests| => EventOf(requests[i], clock[i]))
  }

  function Suffix(requests: seq<seq<Arg>>, i: nat): bytes
    requires i <= |requests| && AllSendable(requests)
    decreases |requests| - i
  {
    if i == |requests| then []
    else RequestReadsBack(requests[i], []); Write(Encoded(requests[i])).value + Suffix(requests, i + 1)
  }

  /** The bytes of a pipeline are its requests written one after another. */
  lemma {:induction false} SuffixIsWritten(requests: seq<seq<Arg>>, i: nat)
    requires i <= |requests| && AllSendable(requests)
    ensures WriteItems(Encodings(requests[i..])) == Some(Suffix(requests, i))
    decreases |requests| - i
  {
    if i < |requests| {
      RequestReadsBack(requests[i], []);
      SuffixIsWritten(requests, i + 1);
      assert Encodings(requests[i..])[1..] == Encodings(requests[i + 1..]);
    }
  }

  lemma {:induction false} WriteOneMore(replies: seq<Resp>, reply: Resp)
    requires WriteItems(replies).Some? && Write(reply).Some?
    ensures WriteItems(replies + [reply]) == Some(WriteItems(replies).value + Write(reply).value)
    decreases |replies|
  {
    if replies == [] {
      assert replies + [reply] == [reply] && [reply][1..] == [];
      assert WriteItems([]) == Some([]);
      assert WriteItems([reply]) == Some(Write(reply).value + []);
      assert Write(reply).value + [] == Write(reply).value == [] + Write(reply).value;
    } else {
      WriteOneMore(replies[1..], reply);
      assert (replies + [reply])[1..] == replies[1..] + [reply];
      AppendTwice(Write(replies[0]).value, WriteItems(replies[1..]).value, Write(reply).value);
    }
  }

  /** The first `i` replies, and no more, answer their events as expected. */
  ghost predicate Served(trace: seq<Runs.Timed>, i: nat, replies: seq<Resp>, expected: seq<Runs.Answer>) {
    && i == |replies| && i <= |trace| == |expected|
    && forall j :: 0 <= j < i ==> Runs.AnswerOk(trace[j].event, expected[j], Runs.Reply(replies[j]))
  }

  /** What is left to do after `i` requests. */
  ghost predicate Pending(trace: seq<Runs.Timed>, i: nat, ks: Keyspace, now: int, expected: seq<Runs.Answer>,
      matcher: I.Matcher) {
    && i <= |trace| == |expected|
    && 0 <= now && Runs.Monotone(now, trace[i..]) && Runs.InScope(ks, trace[i..], matcher)
    && expected[i..] == Runs.Answers(ks, trace[i..], matcher)
  }

  lemma PendingStep(trace: seq<Runs.Timed>, i: nat, ks: Keyspace, now: int, expected: seq<Runs.Answer>,
      matcher: I.Matcher)
    requires Pending(trace, i, ks, now, expected, matcher) && i < |trace| && trace[i].event.Redis?
    ensures var t, c, args := trace[i].time, trace[i].event.command, trace[i].event.args;
            var live := Tick(ks, t);
            var (after, reply) := I.Exec(live, t, args, c, matcher);
            && 0 <= now <= t && I.Answerable(live, args, c, matcher)
            && expected[i] == Runs.Reply(reply)
            && Pending(trace, i + 1, after, t, expected, matcher)
  {
    hide I.Exec, I.Answerable;
    assert trace[i..][0] == trace[i] && trace[i..][1..] == trace[i + 1..];
    assert expected[i..][0] == expected[i] && expected[i..][1..] == expected[i + 1..];
  }

  /** serveRedisConnection on a client's pipeline: every request is answered, in order, with
      the encoding of the answer the plain typed keyspace gives. */
  method ServeConnection(db: Database, reader: Reader, writer: Writer, ghost requests: seq<seq<Arg>>, clock: seq<int64>)
    returns (ghost replies: seq<Resp>)
    requires Inv(db.engine.data) && db.now >= 0
    requires |requests| == |clock| && AllSendable(requests)
    requires reader.input == Suffix(requests, 0)
    requires Runs.Monotone(db.now, TraceOf(requests, clock))
    requires Runs.InScope(View.View(db.engine.data, db.now), TraceOf(requests, clock), db.matcher)
    modifies db, db.engine, reader, writer
    ensures Inv(db.engine.data)
    ensures Served(TraceOf(requests, clock), |requests|, replies,
                   Runs.Answers(View.View(old(db.engine.data), old(db.now)), TraceOf(requests, clock), db.matcher))
    ensures WriteItems(replies).Some? && writer.out == old(writer.out) + WriteItems(replies).value
  {
    hide Inv, View.View, Sendable, Runs.AnswerOk, Runs.Answers, Runs.InScope, Runs.Monotone, Read, WriteItems, Write;
    hide Served, Pending, I.Exec, I.Answerable, I.CommandOf, Tick;
    ghost var ks, trace := View.View(db.engine.data, db.now), TraceOf(requests, clock);
    ghost var expected := Runs.Answers(ks, trace, db.matcher);
    var i := 0;
    replies := [];
    PipelineStarts(trace, ks, db.now, db.matcher);
    while true
      invariant 0 <= i <= |requests| && Inv(db.engine.data) && reader.input == Suffix(requests, i)
      invariant Served(trace, i, replies, expected)
      invariant Pending(trace, i, View.View(db.engine.data, db.now), db.now, expected, db.matcher)
      invariant WriteItems(replies).Some? && writer.out == old(writer.out) + WriteItems(replies).value
      decreases |requests| - i
    {
      NextRequest(requests, i);
      var request := reader.Value();
      if request.Err? { break; }
      PendingStep(trace, i, View.View(db.engine.data, db.now), db.now, expected, db.matcher);
      var reply := AnswerAt(db, request.value, clock[i]);
      ReplyServed(trace, i, replies, expected, reply);
      WriteOneMore(replies, reply);
      AppendTwice(old(writer.out), WriteItems(replies).value, Write(reply).value);
      var _ := writer.Value(reply);
      i, replies := i + 1, replies + [reply];
    }
  }

  /** The clock is read, the request answered, and the answer can be written. */
  method AnswerAt(db: Database, request: Resp, time: int64) returns (reply: Resp)
    requires Inv(db.engine.data) && 0 <= db.now <= time && Bounded(request) && Asked(request).Some?
    requires I.Answerable(Tick(View.View(db.engine.data, db.now), time), Asked(request).value.1,
        Asked(request).value.0, db.matcher)
    modifies db, db.engine
    ensures Inv(db.engine.data) && db.now == time && Write(reply).Some?
    ensures var (c, args) := Asked(request).value;
            var (ks, expected) := I.Exec(Tick(View.View(old(db.engine.data), old(db.now)), time), time, args, c,
                db.matcher);
            View.View(db.engine.data, time) == ks && Dispatch.ReplyOk(c, args, expected, reply)
  {
    hide Inv, View.View, I.Answerable, I.Exec, Asked, Tick;
    ghost var (c, args) := Asked(request).value;
    Runs.Advance(db, time);
    Writable.AnswerWrites(View.View(db.engine.data, time), time, args, c, db.matcher);
    reply := Answer(db, request);
  }

  lemma ReplyServed(trace: seq<Runs.Timed>, i: nat, replies: seq<Resp>, expected: seq<Runs.Answer>, reply: Resp)
    requires Served(trace, i, replies, expected) && i < |trace| && trace[i].event.Redis? && expected[i].Reply?
    requires Dispatch.ReplyOk(trace[i].event.command, trace[i].event.args, expected[i].resp, reply)
    ensures Served(trace, i + 1, replies + [reply], expected)
  {
  }

  lemma PipelineStarts(trace: seq<Runs.Timed>, ks: Keyspace, now: int, matcher: I.Matcher)
    requires now >= 0 && Runs.Monotone(now, trace) && Runs.InScope(ks, trace, matcher)
    ensures Served(trace, 0, [], Runs.Answers(ks, trace, matcher))
    ensures Pending(trace, 0, ks, now, Runs.Answers(ks, trace, matcher), matcher)
    ensures WriteItems([]) == Some([])
  {
    assert trace[0..] == trace;
  }

  /** At the end of the pipeline the reader reports the end of input; before it, the next request. */
  lemma NextRequest(requests: seq<seq<Arg>>, i: nat)
    requires i <= |requests| && AllSendable(requests)
    ensures i == |requests| ==> Read(Suffix(requests, i)).Err?
    ensures i < |requests| ==>
              && Read(Suffix(requests, i)) == Ok((Encoded(requests[i]), Suffix(requests, i + 1)))
              && Bounded(Encoded(requests[i])) && IsCommand(Encoded(requests[i]))
                  && ArgsOf(Encoded(requests[i])) == requests[i]
              && CommandIn(requests[i]).Some?
  {
    if i < |requests| { RequestReadsBack(requests[i], Suffix(requests, i + 1)); }
  }
}
