/** Whole runs: any sequence of Redis commands, core operations, purges and compactions, on a
    clock that never goes back, answers as the plain typed keyspace does. */
module Runs {
  import opened Bytes
  import opened Keys
  import opened Layout
  import opened Keyspace
  import opened Resp
  import opened RedisStorage
  import opened Effects
  import opened View
  import opened S = CommandSpec
  import I = Interpreter
  import Dispatch
  import K = KeyspaceCommands
  import Core
  import Compaction
  import P = Probe

  datatype Event =
    | Redis(command: I.Command, args: seq<Arg>)
    | Embedded(k: key, operation: Core.Operation)
    | Purge(k: key)
    | Compacted(chosen: set<bytes>)

  datatype Timed = Timed(time: int64, event: Event)

  datatype Answer = Reply(resp: Resp) | Outcome(outcome: Core.Outcome) | Silence

  /** The reference: expired keys are gone, then the event takes effect. */
  ghost function Step(ks: Keyspace, now: int64, e: Event, matcher: I.Matcher): (Keyspace, Answer) {
    match e
    case Redis(command, args) =>
      var (after, reply) := I.Exec(ks, now, args, command, matcher);
      (after, Reply(reply))
    case Embedded(k, operation) =>
      var (entry, outcome) := Core.Meaning(k, operation, Find(ks, k), now);
      (Assign(ks, k, entry), Outcome(outcome))
    case Purge(_) => (ks, Silence)
    case Compacted(_) => (ks, Silence)
  }

  ghost function Answers(ks: Keyspace, trace: seq<Timed>, matcher: I.Matcher): (r: seq<Answer>)
    ensures |r| == |trace|
    decreases |trace|
  {
    if trace == [] then []
    else
      var (after, answer) := Step(Tick(ks, trace[0].time), trace[0].time, trace[0].event, matcher);
      [answer] + Answers(after, trace[1..], matcher)
  }

  ghost function Final(ks: Keyspace, trace: seq<Timed>, matcher: I.Matcher): Keyspace
    decreases |trace|
  {
    if trace == [] then ks
    else Final(Step(Tick(ks, trace[0].time), trace[0].time, trace[0].event, matcher).0, trace[1..], matcher)
  }

  /** The clock never goes back. */
  predicate Monotone(start: int, trace: seq<Timed>)
    decreases |trace|
  {
    trace == [] || (start <= trace[0].time && Monotone(trace[0].time, trace[1..]))
  }

  /** No list outgrows its 32-bit count, no SCAN overflows its cursor, and no compaction is shown a
      list record. The last asks nothing of a store in which no list has the magic number of items
      (Compaction.ListsAreSpared). */
  ghost predicate InScope(ks: Keyspace, trace: seq<Timed>, matcher: I.Matcher)
    decreases |trace|
  {
    trace == [] ||
    (var now := Tick(ks, trace[0].time);
     && (trace[0].event.Redis? ==> I.Answerable(now, trace[0].event.args, trace[0].event.command, matcher))
     && (trace[0].event.Compacted? ==> Compaction.SparesLists(trace[0].event.chosen))
     && InScope(Step(now, trace[0].time, trace[0].event, matcher).0, trace[1..], matcher))
  }

  predicate Compacts(trace: seq<Timed>) { exists i :: 0 <= i < |trace| && trace[i].event.Compacted? }

  predicate AnswerOk(e: Event, expected: Answer, a: Answer) {
    if e.Redis? then
      expected.Reply? && a.Reply? && Dispatch.ReplyOk(e.command, e.args, expected.resp, a.resp)
    else SameAnswer(a, expected)
  }

  predicate SameAnswer(a: Answer, b: Answer) {
    if a.Outcome? && b.Outcome? then Core.SameOutcome(a.outcome, b.outcome) else a == b
  }

  predicate AnswersOk(trace: seq<Timed>, expected: seq<Answer>, answers: seq<Answer>) {
    && |trace| == |expected| == |answers|
    && forall i :: 0 <= i < |trace| ==> AnswerOk(trace[i].event, expected[i], answers[i])
  }

  /** The clock moves on; the store does not, but what it shows does. */
  method Advance(db: Database, time: int64)
    requires Inv(db.engine.data) && db.now <= time
    modifies db
    ensures db.now == time
    ensures View.View(db.engine.data, db.now) == Tick(View.View(db.engine.data, old(db.now)), time)
  {
    ViewLater(db.engine.data, db.now, time);
    db.now := time;
  }

  method Handle(db: Database, e: Event) returns (a: Answer)
    requires Inv(db.engine.data) && db.now >= 0
    requires e.Redis? ==> I.Answerable(View.View(db.engine.data, db.now), e.args, e.command, db.matcher)
    requires e.Compacted? ==> Plain(db.engine.data) && Compaction.SparesLists(e.chosen)
    modifies db.engine
    ensures Keeps(old(db.engine.data), db.engine.data)
    ensures var (ks, expected) := Step(View.View(old(db.engine.data), db.now), db.now, e, db.matcher);
            View.View(db.engine.data, db.now) == ks && AnswerOk(e, expected, a)
  {
    hide Inv, Plain, View.View, At, P.Look, I.Exec, I.Answerable, Core.Meaning, Effect, Compaction.Compact;
    match e
    case Redis(command, args) =>
      var reply := Dispatch.Run(db, command, args);
      return Reply(reply);
    case Embedded(k, operation) =>
      ghost var d := db.engine.data;
      ViewFind(d, db.now, k);
      var outcome := Core.Perform(db, k, operation);
      ghost var entry := Core.Meaning(k, operation, P.Look(At(d, k), db.now), db.now).0;
      EffectKeepsInv(d, db.engine.data, k, db.now, entry);
      ViewEffect(d, db.engine.data, k, db.now, entry);
      return Outcome(outcome);
    case Purge(k) =>
      var _ := K.LookType(db, k);
      return Silence;
    case Compacted(chosen) =>
      Compaction.PlainCompaction(db.engine.data, chosen, db.now, db.now);
      db.engine.data := Compaction.Compact(db.engine.data, chosen, db.now);
      return Silence;
  }

  /** Refinement over every run: replies and final state are those of the plain typed keyspace
      with per-key deadlines, whatever is purged or compacted when, and the store invariant
      always holds. Only runs with compactions ask for a plain store, and they leave it plain. */
  method Serve(db: Database, trace: seq<Timed>) returns (answers: seq<Answer>)
    requires Inv(db.engine.data) && db.now >= 0 && Monotone(db.now, trace)
    requires InScope(View.View(db.engine.data, db.now), trace, db.matcher)
    requires Compacts(trace) ==> Plain(db.engine.data)
    modifies db, db.engine
    ensures Keeps(old(db.engine.data), db.engine.data)
    ensures AnswersOk(trace, Answers(View.View(old(db.engine.data), old(db.now)), trace, db.matcher), answers)
    ensures View.View(db.engine.data, db.now) == Final(View.View(old(db.engine.data), old(db.now)), trace, db.matcher)
    decreases |trace|
  {
    hide Inv, Plain, View.View, Step, AnswerOk, I.Answerable;
    if trace == [] { return []; }
    if Compacts(trace[1..]) { LaterCompacts(trace); }
    ghost var ks := View.View(db.engine.data, db.now);
    Advance(db, trace[0].time);
    var answer := Handle(db, trace[0].event);
    var rest := Serve(db, trace[1..]);
    answers := [answer] + rest;
    OneMoreAnswer(ks, trace, db.matcher, answer, rest);
  }

  lemma LaterCompacts(trace: seq<Timed>)
    requires trace != [] && Compacts(trace[1..])
    ensures Compacts(trace)
  {
    var i :| 0 <= i < |trace[1..]| && trace[1..][i].event.Compacted?;
    assert trace[i + 1] == trace[1..][i];
  }

  lemma OneMoreAnswer(ks: Keyspace, trace: seq<Timed>, matcher: I.Matcher, answer: Answer, rest: seq<Answer>)
    requires trace != []
    requires var (after, expected) := Step(Tick(ks, trace[0].time), trace[0].time, trace[0].event, matcher);
             && AnswerOk(trace[0].event, expected, answer)
             && AnswersOk(trace[1..], Answers(after, trace[1..], matcher), rest)
    ensures AnswersOk(trace, Answers(ks, trace, matcher), [answer] + rest)
  {
    hide Step, AnswerOk;
    var answers, expected := [answer] + rest, Answers(ks, trace, matcher);
    forall i | 0 <= i < |trace| ensures AnswerOk(trace[i].event, expected[i], answers[i]) {
      if i > 0 {
        assert trace[i] == trace[1..][i - 1] && expected[i] == expected[1..][i - 1] && answers[i] == rest[i - 1];
      }
    }
  }

  // ---------------------------------------------------------------- upkeep is invisible

  predicate Upkeep(e: Event) { e.Purge? || e.Compacted? }

  function WithoutUpkeep(trace: seq<Timed>): seq<Timed> {
    if trace == [] then []
    else if Upkeep(trace[0].event) then WithoutUpkeep(trace[1..])
    else [trace[0]] + WithoutUpkeep(trace[1..])
  }

  /** The answers of a run without those of its upkeep. */
  function Heard(trace: seq<Timed>, answers: seq<Answer>): seq<Answer>
    requires |trace| == |answers|
  {
    if trace == [] then []
    else if Upkeep(trace[0].event) then Heard(trace[1..], answers[1..])
    else [answers[0]] + Heard(trace[1..], answers[1..])
  }

  lemma AliveLater(e: Entry, t1: int, t2: int)
    requires t1 <= t2
    ensures Later(Alive(e, t1), t2) == Alive(e, t2)
  {
    if e.value.Hash? {
      var live1, live2 := LiveFields(e.value.fields, t1), LiveFields(e.value.fields, t2);
      assert LiveFields(live1, t2) == live2;
      if live1 == map[] { assert live2 == map[]; }
    }
  }

  lemma TickTwice(ks: Keyspace, t1: int, t2: int)
    requires t1 <= t2
    ensures Tick(Tick(ks, t1), t2) == Tick(ks, t2)
  {
    hide Alive;
    forall k: key ensures Find(Tick(Tick(ks, t1), t2), k) == Find(Tick(ks, t2), k) {
      if k in ks { AliveLater(ks[k], t1, t2); }
    }
    SameFinds(Tick(Tick(ks, t1), t2), Tick(ks, t2));
  }

  lemma {:induction false} TickFirst(ks: Keyspace, t: int, trace: seq<Timed>, matcher: I.Matcher)
    requires Monotone(t, trace) && trace != []
    ensures Answers(Tick(ks, t), trace, matcher) == Answers(ks, trace, matcher)
  {
    TickTwice(ks, t, trace[0].time);
  }

  lemma {:induction false} MonotoneWithoutUpkeep(start: int, earlier: int, trace: seq<Timed>)
    requires Monotone(start, trace) && earlier <= start
    ensures Monotone(earlier, WithoutUpkeep(trace))
    decreases |trace|
  {
    if trace != [] {
      var rest := WithoutUpkeep(trace[1..]);
      if Upkeep(trace[0].event) {
        MonotoneWithoutUpkeep(trace[0].time, earlier, trace[1..]);
      } else {
        MonotoneWithoutUpkeep(trace[0].time, trace[0].time, trace[1..]);
        assert ([trace[0]] + rest)[1..] == rest;
      }
    }
  }

  /** The reference does not notice upkeep: the answers heard are those of the run without it. */
  lemma {:induction false} UpkeepIsSilent(ks: Keyspace, start: int, trace: seq<Timed>, matcher: I.Matcher)
    requires Monotone(start, trace)
    ensures Heard(trace, Answers(ks, trace, matcher)) == Answers(ks, WithoutUpkeep(trace), matcher)
    decreases |trace|
  {
    hide I.Exec, Core.Meaning;
    if trace != [] {
      var t := trace[0].time;
      var (after, answer) := Step(Tick(ks, t), t, trace[0].event, matcher);
      UpkeepIsSilent(after, t, trace[1..], matcher);
      var rest := WithoutUpkeep(trace[1..]);
      assert Answers(ks, trace, matcher)[1..] == Answers(after, trace[1..], matcher);
      if Upkeep(trace[0].event) {
        MonotoneWithoutUpkeep(t, t, trace[1..]);
        if rest != [] { TickFirst(ks, t, rest, matcher); }
      } else {
        assert ([trace[0]] + rest)[1..] == rest;
      }
    }
  }

  lemma ScopeFirst(ks: Keyspace, t: int, trace: seq<Timed>, matcher: I.Matcher)
    requires Monotone(t, trace) && InScope(Tick(ks, t), trace, matcher)
    ensures InScope(ks, trace, matcher)
  {
    hide I.Exec, I.Answerable, Core.Meaning;
    if trace != [] { TickTwice(ks, t, trace[0].time); }
  }

  /** A run in scope is in scope without its upkeep. */
  lemma {:induction false} ScopeWithoutUpkeep(ks: Keyspace, start: int, trace: seq<Timed>, matcher: I.Matcher)
    requires Monotone(start, trace) && InScope(ks, trace, matcher)
    ensures InScope(ks, WithoutUpkeep(trace), matcher)
    decreases |trace|
  {
    hide I.Exec, I.Answerable, Core.Meaning;
    if trace != [] {
      var t := trace[0].time;
      var after := Step(Tick(ks, t), t, trace[0].event, matcher).0;
      ScopeWithoutUpkeep(after, t, trace[1..], matcher);
      var rest := WithoutUpkeep(trace[1..]);
      if Upkeep(trace[0].event) {
        MonotoneWithoutUpkeep(t, t, trace[1..]);
        ScopeFirst(ks, t, rest, matcher);
      } else {
        assert ([trace[0]] + rest)[1..] == rest;
      }
    }
  }

  lemma {:induction false} NoUpkeepLeft(trace: seq<Timed>)
    ensures !Compacts(WithoutUpkeep(trace))
    decreases |trace|
  {
    if trace != [] {
      NoUpkeepLeft(trace[1..]);
    }
  }

  lemma {:induction false} HeardAreOk(trace: seq<Timed>, expected: seq<Answer>, answers: seq<Answer>)
    requires AnswersOk(trace, expected, answers)
    ensures AnswersOk(WithoutUpkeep(trace), Heard(trace, expected), Heard(trace, answers))
    decreases |trace|
  {
    hide AnswerOk;
    if trace != [] {
      forall i | 0 <= i < |trace[1..]| ensures AnswerOk(trace[1..][i].event, expected[1..][i], answers[1..][i]) {
        assert AnswerOk(trace[i + 1].event, expected[i + 1], answers[i + 1]);
      }
      HeardAreOk(trace[1..], expected[1..], answers[1..]);
    }
  }

  /** DEL and UNLINK count the keys that had records, which is what upkeep removes. */
  predicate CountsRecords(e: Event) { e.Redis? && e.command.Del? && |e.args| >= 2 }

  predicate Alike(trace: seq<Timed>, a: seq<Answer>, b: seq<Answer>) {
    |trace| == |a| == |b| && forall i :: 0 <= i < |trace| && !CountsRecords(trace[i].event) ==> SameAnswer(a[i], b[i])
  }

  lemma SameExpectedSameAnswer(e: Event, expected: Answer, a: Answer, b: Answer)
    requires AnswerOk(e, expected, a) && AnswerOk(e, expected, b) && !CountsRecords(e)
    ensures SameAnswer(a, b)
  {
  }

  /** Two stores that show the same keyspace, however much dead data each still holds, one served
      a run and the other the same run with every purge and compaction left out: they give the
      same answers, DEL and UNLINK counts apart. */
  method ServeWithoutUpkeep(db: Database, other: Database, trace: seq<Timed>) returns (a: seq<Answer>, b: seq<Answer>)
    requires db != other && db.engine != other.engine && db.matcher == other.matcher
    requires Inv(db.engine.data) && Inv(other.engine.data) && 0 <= db.now == other.now
    requires View.View(db.engine.data, db.now) == View.View(other.engine.data, other.now)
    requires Monotone(db.now, trace) && InScope(View.View(db.engine.data, db.now), trace, db.matcher)
    requires Compacts(trace) ==> Plain(db.engine.data)
    modifies db, db.engine, other, other.engine
    ensures |a| == |trace| && Alike(WithoutUpkeep(trace), Heard(trace, a), b)
  {
    hide Inv, Plain, View.View, Answers, InScope, Monotone, Heard, WithoutUpkeep, AnswerOk;
    ghost var ks := View.View(db.engine.data, db.now);
    ScopeWithoutUpkeep(ks, db.now, trace, db.matcher);
    MonotoneWithoutUpkeep(db.now, db.now, trace);
    UpkeepIsSilent(ks, db.now, trace, db.matcher);
    NoUpkeepLeft(trace);
    a := Serve(db, trace);
    b := Serve(other, WithoutUpkeep(trace));
    HeardAreOk(trace, Answers(ks, trace, db.matcher), a);
    UpkeepDoesNotShow(WithoutUpkeep(trace), Answers(ks, WithoutUpkeep(trace), db.matcher), Heard(trace, a), b);
  }

  lemma UpkeepDoesNotShow(trace: seq<Timed>, expected: seq<Answer>, a: seq<Answer>, b: seq<Answer>)
    requires AnswersOk(trace, expected, a) && AnswersOk(trace, expected, b)
    ensures Alike(trace, a, b)
  {
    hide AnswerOk, SameAnswer;
    forall i | 0 <= i < |trace| && !CountsRecords(trace[i].event) ensures SameAnswer(a[i], b[i]) {
      SameExpectedSameAnswer(trace[i].event, expected[i], a[i], b[i]);
    }
  }
}
