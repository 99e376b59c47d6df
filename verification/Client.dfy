/** What a client is told, by the names it sends and the texts it reads. The laws of the client
    modules are written against these, not against the specification of the commands. */
module Client {
  import opened Bytes
  import opened Keyspace
  import opened Resp
  import opened S = CommandSpec
  import I = Interpreter
  import Runs
  import Connection

  const OK: Resp := Simple(Ascii("OK"))
  const SYNTAX: Resp := Error(Ascii("ERR syntax error"))
  const WRONG_TYPE: Resp := Error(Ascii("WRONGTYPE Operation against a key holding the wrong kind of value"))
  const NOT_INTEGER: Resp := Error(Ascii("ERR value is not an integer or out of range"))
  const NOT_HASH_INTEGER: Resp := Error(Ascii("ERR hash value is not an integer"))
  const OVERFLOW: Resp := Error(Ascii("ERR increment or decrement would overflow"))
  const BAD_EXPIRE: Resp := Error(Ascii("ERR invalid expire time"))
  const BAD_SET_EXPIRE: Resp := Error(Ascii("ERR invalid expire time in set"))
  const BAD_GETEX_EXPIRE: Resp := Error(Ascii("ERR invalid expire time in getex"))

  const SECOND: int := 1_000_000_000
  const MILLISECOND: int := 1_000_000

  predicate Fits(n: int) { -0x8000_0000_0000_0000 <= n < 0x8000_0000_0000_0000 }

  /** A string as the commands store it. */
  function Text(payload: bytes, deadline: Option<int>): Option<Entry> {
    Some(Entry(Str(Ascii("bytes"), payload), deadline))
  }

  /** What the command sent under `name` does to the entry of its key, and its reply. */
  ghost function Meant(name: string, oe: Option<Entry>, words: seq<Arg>, now: int64): Out {
    match I.CommandOf(Ascii(name))
    case Some(OnKey(c)) => I.OnEntry(c, oe, words, now)
    case _ => Out(oe, NullArray)
  }

  /** Once a name is known to mean a command, that is all it takes. */
  lemma MeantIs(name: string, c: I.KeyCommand, oe: Option<Entry>, words: seq<Arg>, now: int64)
    requires I.CommandOf(Ascii(name)) == Some(I.OnKey(c))
    ensures Meant(name, oe, words, now) == I.OnEntry(c, oe, words, now)
  {
    hide I.CommandOf, I.OnEntry, Ascii;
  }

  /** One request against the whole keyspace. */
  ghost function Said(ks: Keyspace, now: int64, words: seq<Arg>, matcher: I.Matcher): (Keyspace, Resp) {
    match Connection.CommandIn(words)
    case Some(c) => I.Exec(ks, now, words, c, matcher)
    case None => (ks, NullArray)
  }

  /** A single-key command, under whatever spelling of its name, does to its key what is meant. */
  lemma SaidOfKey(name: string, ks: Keyspace, now: int64, words: seq<Arg>, matcher: I.Matcher)
    requires |words| >= 2 && Upper(words[0]) == Ascii(name)
    requires I.CommandOf(Ascii(name)).Some? && I.CommandOf(Ascii(name)).value.OnKey?
    ensures var out := Meant(name, Find(ks, words[1]), words, now);
            Said(ks, now, words, matcher) == (Assign(ks, words[1], out.entry), out.reply)
  {
    hide I.CommandOf, I.OnEntry, Ascii, Upper;
  }

  /** What the server does with a request is what is said here. */
  lemma ServedAsSaid(ks: Keyspace, now: int64, words: seq<Arg>, matcher: I.Matcher)
    requires Connection.Sendable(words)
    ensures var e := Connection.EventOf(words, now);
            Runs.Step(ks, e.time, e.event, matcher)
            == (Said(ks, now, words, matcher).0, Runs.Reply(Said(ks, now, words, matcher).1))
  {
    hide I.CommandOf, I.Exec, Ascii, Upper;
  }

  lemma AsciiCaps(name: string)
    requires forall c <- name :: 'A' <= c <= 'Z'
    ensures |Ascii(name)| == |name| && forall i :: 0 <= i < |name| ==> Ascii(name)[i] == name[i] as int
  {
    forall i | 0 <= i < |name| ensures Ascii(name)[i] == name[i] as int {
      assert name[i] in name;
    }
  }

  predicate Spells(word: bytes, name: string) {
    && |word| == |name|
    && forall i :: 0 <= i < |word| ==> word[i] == name[i] as int || word[i] == name[i] as int + 32
  }

  /** A name of capitals is met by every mix of cases, and by nothing else. */
  lemma AnyCase(word: bytes, name: string)
    requires forall c <- name :: 'A' <= c <= 'Z'
    ensures Upper(word) == Ascii(name) <==> Spells(word, name)
  {
    AsciiCaps(name);
    if Upper(word) == Ascii(name) {
      forall i | 0 <= i < |word| ensures word[i] == name[i] as int || word[i] == name[i] as int + 32 {
        assert Upper(word)[i] == Ascii(name)[i];
      }
    }
    if Spells(word, name) {
      forall i | 0 <= i < |word| ensures Upper(word)[i] == Ascii(name)[i] {
        assert name[i] in name;
      }
    }
  }

  /** Requests of one client, each at its time, on the keys alive then. */
  ghost function Talk(ks: Keyspace, times: seq<int64>, requests: seq<seq<Arg>>, matcher: I.Matcher)
    : (r: (Keyspace, seq<Resp>))
    requires |times| == |requests|
    ensures |r.1| == |requests|
    decreases |requests|
  {
    if requests == [] then (ks, [])
    else
      var (after, reply) := Said(Tick(ks, times[0]), times[0], requests[0], matcher);
      var (end, replies) := Talk(after, times[1..], requests[1..], matcher);
      (end, [reply] + replies)
  }

  function Replies(replies: seq<Resp>): (r: seq<Runs.Answer>)
    ensures |r| == |replies|
  {
    seq(|replies|, i requires 0 <= i < |replies| => Runs.Reply(replies[i]))
  }

  /** The talk is what the run of the same requests answers and leaves. */
  lemma {:induction false} ServedAsTalk(ks: Keyspace, times: seq<int64>, requests: seq<seq<Arg>>, matcher: I.Matcher)
    requires |times| == |requests| && Connection.AllSendable(requests)
    ensures var (end, replies) := Talk(ks, times, requests, matcher);
            var trace := Connection.TraceOf(requests, times);
            Runs.Final(ks, trace, matcher) == end && Runs.Answers(ks, trace, matcher) == Replies(replies)
    decreases |requests|
  {
    hide Said, Runs.Step, Connection.EventOf, Connection.Sendable, Tick;
    if requests != [] {
      var now := Tick(ks, times[0]);
      assert Connection.Sendable(requests[0]);
      ServedAsSaid(now, times[0], requests[0], matcher);
      EventTime(requests[0], times[0]);
      var (after, reply) := Said(now, times[0], requests[0], matcher);
      ServedAsTalk(after, times[1..], requests[1..], matcher);
      var trace := Connection.TraceOf(requests, times);
      assert trace[1..] == Connection.TraceOf(requests[1..], times[1..]);
      var replies := Talk(after, times[1..], requests[1..], matcher).1;
      assert Replies([reply] + replies) == [Runs.Reply(reply)] + Replies(replies);
    }
  }

  lemma EventTime(words: seq<Arg>, now: int64)
    requires Connection.Sendable(words)
    ensures Connection.EventOf(words, now).time == now
  {
  }

  lemma FindTick(ks: Keyspace, k: Arg, now: int)
    ensures Find(Tick(ks, now), k) == Later(Find(ks, k), now)
  {
  }
}
