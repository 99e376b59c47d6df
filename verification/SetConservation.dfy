/** SAdd and SRemove of collections.go, one engine call at a time. Each call holds protocolMu
    and looks a member up before it writes, so any number of concurrent calls leave a history
    that reads as if they had run one after another. */
module SetConservation {
  import opened Bytes
  import opened Keys
  import opened Layout
  import opened Engine

  datatype Call = Call(name: key, adding: bool, members: seq<bytes>)

  /** `i` members are done, `count` of them changed the set, which was `before` at the start. */
  datatype Phase =
    | Idle
    | Waiting(call: Call)
    | Looking(call: Call, before: set<bytes>, i: nat, count: nat)
    | Writing(call: Call, before: set<bytes>, i: nat, count: nat)

  /** A returned call: its result, and the set it found and left. */
  datatype Reply = Reply(call: Call, count: nat, before: set<bytes>, after: set<bytes>)

  datatype State = State(store: Store, lock: Option<nat>, threads: map<nat, Phase>, replies: seq<Reply>)

  datatype Step = Begin(t: nat, call: Call) | Acquire(t: nat) | Engine(t: nat) | Return(t: nat)

  function PhaseOf(s: State, t: nat): Phase { if t in s.threads then s.threads[t] else Idle }

  predicate Active(p: Phase) { p.Looking? || p.Writing? }

  predicate Finished(p: Phase) { p.Looking? && p.i >= |p.call.members| }

  predicate Enabled(s: State, step: Step) {
    match step
    case Begin(t, _) => PhaseOf(s, t).Idle?
    case Acquire(t) => PhaseOf(s, t).Waiting? && s.lock.None?
    case Engine(t) => s.lock == Some(t) && Active(PhaseOf(s, t)) && PhaseOf(s, t).i < |PhaseOf(s, t).call.members|
    case Return(t) => s.lock == Some(t) && Finished(PhaseOf(s, t))
  }

  function Members(d: Store, name: key): set<bytes> { Suffixes(d, SetPrefix(name)) }

  /** One engine call: the lookup of the next member, or the write that follows it. */
  function Turn(d: Store, p: Phase): (Store, Phase)
    requires Active(p) && p.i < |p.call.members|
  {
    var sk := SetKey(p.call.name, p.call.members[p.i]);
    if p.Looking? then
      (d, if (sk in d) == p.call.adding then Looking(p.call, p.before, p.i + 1, p.count)
          else Writing(p.call, p.before, p.i, p.count))
    else
      (if p.call.adding then d[sk := [1]] else d - {sk}, Looking(p.call, p.before, p.i + 1, p.count + 1))
  }

  function Apply(s: State, step: Step): State
    requires Enabled(s, step)
  {
    var p := PhaseOf(s, step.t);
    match step
    case Begin(t, call) => s.(threads := s.threads[t := Waiting(call)])
    case Acquire(t) =>
      s.(lock := Some(t), threads := s.threads[t := Looking(p.call, Members(s.store, p.call.name), 0, 0)])
    case Engine(t) =>
      var (d, p') := Turn(s.store, p);
      s.(store := d, threads := s.threads[t := p'])
    case Return(t) =>
      s.(lock := None, threads := s.threads[t := Idle],
      replies := s.replies + [Reply(p.call, p.count, p.before, Members(s.store, p.call.name))])
  }

  predicate Runs(s: State, steps: seq<Step>)
    decreases |steps|
  {
    steps == [] || (Enabled(s, steps[0]) && Runs(Apply(s, steps[0]), steps[1..]))
  }

  function Reached(s: State, steps: seq<Step>): State
    requires Runs(s, steps)
    decreases |steps|
  {
    if steps == [] then s else Reached(Apply(s, steps[0]), steps[1..])
  }

  function Holder(s: State): Phase { if s.lock.Some? then PhaseOf(s, s.lock.value) else Idle }

  function SetOf(ms: seq<bytes>): set<bytes> { set m | m in ms }

  /** The set after the first `i` members of a call. */
  function Outcome(call: Call, before: set<bytes>, i: nat): set<bytes>
    requires i <= |call.members|
  {
    if call.adding then before + SetOf(call.members[..i]) else before - SetOf(call.members[..i])
  }

  /** The signed result of a call: what it added, or minus what it removed. */
  function Change(call: Call, count: nat): int { if call.adding then count else 0 - count }

  /** A call changed the set to exactly what its arguments say, and counted the difference. */
  predicate ReplyOk(r: Reply) {
    && r.after == Outcome(r.call, r.before, |r.call.members|)
    && |r.after| == |r.before| + Change(r.call, r.count)
  }

  /** The set `name` as the last returned call on it left it. */
  function End(name: key, start: set<bytes>, replies: seq<Reply>): set<bytes> {
    if replies == [] then start
    else if replies[|replies| - 1].call.name == name then replies[|replies| - 1].after
    else End(name, start, replies[..|replies| - 1])
  }

  /** The returned calls on `name` form a serial history that begins at `start`. */
  predicate Serial(name: key, start: set<bytes>, replies: seq<Reply>) {
    if replies == [] then true
    else
      var init, r := replies[..|replies| - 1], replies[|replies| - 1];
      Serial(name, start, init) && (r.call.name == name ==> ReplyOk(r) && r.before == End(name, start, init))
  }

  /** Summed results of the returned calls on `name`: added minus removed. */
  function Total(name: key, replies: seq<Reply>): int {
    if replies == [] then 0
    else
      var init, r := replies[..|replies| - 1], replies[|replies| - 1];
      Total(name, init) + if r.call.name == name then Change(r.call, r.count) else 0
  }

  lemma {:induction false} SerialConserves(name: key, start: set<bytes>, replies: seq<Reply>)
    requires Serial(name, start, replies)
    ensures |End(name, start, replies)| - |start| == Total(name, replies)
    decreases |replies|
  {
    if replies != [] { SerialConserves(name, start, replies[..|replies| - 1]); }
  }

  predicate PhaseOk(d: Store, p: Phase) {
    Active(p) ==>
      && p.i <= |p.call.members|
      && Members(d, p.call.name) == Outcome(p.call, p.before, p.i)
      && |Members(d, p.call.name)| == |p.before| + Change(p.call, p.count)
      && (p.Writing? ==> p.i < |p.call.members| && (p.call.members[p.i] in Members(d, p.call.name)) != p.call.adding)
  }

  /** The set the next returned call on `name` will have started from. */
  function Current(d: Store, p: Phase, name: key): set<bytes> {
    if Active(p) && p.call.name == name then p.before else Members(d, name)
  }

  ghost predicate Inv(s: State, d0: Store) {
    && (forall t <- s.threads :: Active(s.threads[t]) ==> s.lock == Some(t))
    && (s.lock.Some? ==> Active(Holder(s)))
    && PhaseOk(s.store, Holder(s))
    && forall name: key :: History(s, d0, name)
  }

  predicate History(s: State, d0: Store, name: key) {
    && Serial(name, Members(d0, name), s.replies)
    && End(name, Members(d0, name), s.replies) == Current(s.store, Holder(s), name)
  }

  /** Writing a record of one set leaves the other sets alone. */
  lemma OtherSets(d: Store, d': Store, name: key, other: key)
    requires other != name && forall sk :: !Owns(name, sk) ==> Agree(d, d', sk)
    ensures Members(d', other) == Members(d, other)
  {
    forall m ensures Agree(d, d', SetPrefix(other) + m) {
      assert Owns(other, SetPrefix(other) + m);
      if Owns(name, SetPrefix(other) + m) { OwnersAreDisjoint(name, other, SetPrefix(other) + m); }
    }
    SamePrefixRecords(d, d', SetPrefix(other));
  }

  lemma TurnKeepsOthers(d: Store, p: Phase, other: key)
    requires Active(p) && p.i < |p.call.members| && other != p.call.name
    ensures Members(Turn(d, p).0, other) == Members(d, other)
  {
    var d' := Turn(d, p).0;
    var sk := SetKey(p.call.name, p.call.members[p.i]);
    assert Owns(p.call.name, sk);
    hide Owns;
    forall x | !Owns(p.call.name, x) ensures Agree(d, d', x) {}
    OtherSets(d, d', p.call.name, other);
  }

  lemma NextOutcome(call: Call, before: set<bytes>, i: nat)
    requires i < |call.members|
    ensures Outcome(call, before, i + 1) ==
            if call.adding then Outcome(call, before, i) + {call.members[i]}
                else Outcome(call, before, i) - {call.members[i]}
  {
    assert call.members[..i + 1] == call.members[..i] + [call.members[i]];
    assert SetOf(call.members[..i + 1]) == SetOf(call.members[..i]) + {call.members[i]};
  }

  /** A lookup leaves the set as it was; a write adds or removes the one member. */
  lemma TurnOnSet(d: Store, p: Phase)
    requires Active(p) && p.i < |p.call.members|
    ensures var m, now, next := p.call.members[p.i], Members(d, p.call.name), Members(Turn(d, p).0, p.call.name);
            && (SetKey(p.call.name, m) in d <==> m in now)
            && next == if p.Looking? then now else if p.call.adding then now + {m} else now - {m}
  {
    PutBelowPrefix(d, SetPrefix(p.call.name), p.call.members[p.i], [1]);
    DeleteBelowPrefix(d, SetPrefix(p.call.name), p.call.members[p.i]);
  }

  /** A member that is already as the call wants it changes nothing. */
  lemma SkipOutcome(call: Call, before: set<bytes>, i: nat)
    requires i < |call.members| && (call.members[i] in Outcome(call, before, i)) == call.adding
    ensures Outcome(call, before, i + 1) == Outcome(call, before, i)
  {
    NextOutcome(call, before, i);
    hide Outcome;
    var now := Outcome(call, before, i);
    assert if call.adding then now + {call.members[i]} == now else now - {call.members[i]} == now;
  }

  lemma Stored(d: Store, name: key, m: bytes)
    ensures SetKey(name, m) in d <==> m in Members(d, name)
  {
  }

  lemma LookKeepsPhase(d: Store, p: Phase)
    requires p.Looking? && p.i < |p.call.members| && PhaseOk(d, p)
    ensures PhaseOk(Turn(d, p).0, Turn(d, p).1)
  {
    Stored(d, p.call.name, p.call.members[p.i]);
    hide Outcome, Members, SetKey;
    if (p.call.members[p.i] in Members(d, p.call.name)) == p.call.adding { SkipOutcome(p.call, p.before, p.i); }
  }

  lemma WriteKeepsPhase(d: Store, p: Phase)
    requires p.Writing? && PhaseOk(d, p)
    ensures PhaseOk(Turn(d, p).0, Turn(d, p).1)
  {
    NextOutcome(p.call, p.before, p.i);
    TurnOnSet(d, p);
    hide Outcome, Members, SetKey;
  }

  lemma TurnKeepsPhase(d: Store, p: Phase)
    requires Active(p) && p.i < |p.call.members| && PhaseOk(d, p)
    ensures PhaseOk(Turn(d, p).0, Turn(d, p).1)
  {
    hide PhaseOk, Turn;
    if p.Looking? { LookKeepsPhase(d, p); } else { WriteKeepsPhase(d, p); }
  }

  lemma EngineKeepsInv(s: State, d0: Store, t: nat)
    requires Inv(s, d0) && Enabled(s, Engine(t))
    ensures Inv(Apply(s, Engine(t)), d0)
  {
    hide PhaseOk, Members, Serial, End;
    var p := PhaseOf(s, t);
    var s' := Apply(s, Engine(t));
    TurnKeepsPhase(s.store, p);
    forall name: key ensures History(s', d0, name) {
      assert History(s, d0, name);
      if name != p.call.name { TurnKeepsOthers(s.store, p, name); }
    }
  }

  lemma AppendHistory(name: key, start: set<bytes>, replies: seq<Reply>, r: Reply)
    requires Serial(name, start, replies)
    requires r.call.name == name ==> ReplyOk(r) && r.before == End(name, start, replies)
    ensures Serial(name, start, replies + [r])
    ensures End(name, start, replies + [r]) == if r.call.name == name then r.after else End(name, start, replies)
  {
    assert (replies + [r])[..|replies|] == replies;
  }

  lemma ReturnKeepsInv(s: State, d0: Store, t: nat)
    requires Inv(s, d0) && Enabled(s, Return(t))
    ensures Inv(Apply(s, Return(t)), d0)
  {
    hide Members, Serial, End, Outcome;
    var p := PhaseOf(s, t);
    var r := Reply(p.call, p.count, p.before, Members(s.store, p.call.name));
    var s' := Apply(s, Return(t));
    forall name: key ensures History(s', d0, name) {
      assert History(s, d0, name);
      AppendHistory(name, Members(d0, name), s.replies, r);
    }
  }

  lemma StepKeepsInv(s: State, d0: Store, step: Step)
    requires Inv(s, d0) && Enabled(s, step)
    ensures Inv(Apply(s, step), d0)
  {
    match step
    case Engine(t) => EngineKeepsInv(s, d0, t);
    case Return(t) => ReturnKeepsInv(s, d0, t);
    case Begin(t, call) => BeginKeepsInv(s, d0, t, call);
    case Acquire(t) => AcquireKeepsInv(s, d0, t);
  }

  lemma CallBegins(d: Store, call: Call)
    ensures PhaseOk(d, Looking(call, Members(d, call.name), 0, 0))
  {
  }

  lemma BeginKeepsInv(s: State, d0: Store, t: nat, call: Call)
    requires Inv(s, d0) && Enabled(s, Begin(t, call))
    ensures Inv(Apply(s, Begin(t, call)), d0)
  {
    hide Members, Serial, End, PhaseOk;
    var s' := Apply(s, Begin(t, call));
    assert Holder(s') == Holder(s);
    forall name: key ensures History(s', d0, name) { assert History(s, d0, name); }
  }

  lemma AcquireKeepsInv(s: State, d0: Store, t: nat)
    requires Inv(s, d0) && Enabled(s, Acquire(t))
    ensures Inv(Apply(s, Acquire(t)), d0)
  {
    hide Members, Serial, End, PhaseOk;
    var s' := Apply(s, Acquire(t));
    CallBegins(s.store, PhaseOf(s, t).call);
    forall name: key ensures History(s', d0, name) { assert History(s, d0, name); }
  }

  lemma {:induction false} RunKeepsInv(s: State, d0: Store, steps: seq<Step>)
    requires Inv(s, d0) && Runs(s, steps)
    ensures Inv(Reached(s, steps), d0)
    decreases |steps|
  {
    hide Inv, Apply, Enabled;
    if steps != [] {
      StepKeepsInv(s, d0, steps[0]);
      RunKeepsInv(Apply(s, steps[0]), d0, steps[1..]);
    }
  }

  function Start(d0: Store): State { State(d0, None, map[], []) }

  /** Concurrent conservation: in every interleaving, the returned calls on each set form a
      serial history, and once no call is in progress the set has grown by exactly the summed
      results, additions counted positively and removals negatively. */
  lemma SetsConserve(d0: Store, steps: seq<Step>, name: key)
    requires Runs(Start(d0), steps)
    ensures var s := Reached(Start(d0), steps);
            && Serial(name, Members(d0, name), s.replies)
            && (s.lock.None? ==>
                  && Members(s.store, name) == End(name, Members(d0, name), s.replies)
                  && |Members(s.store, name)| - |Members(d0, name)| == Total(name, s.replies))
  {
    hide Members, Serial, End, Runs, Reached;
    RunKeepsInv(Start(d0), d0, steps) by { StartIsOk(d0); }
    var s := Reached(Start(d0), steps);
    assert History(s, d0, name);
    SerialConserves(name, Members(d0, name), s.replies);
  }

  lemma StartIsOk(d0: Store)
    ensures Inv(Start(d0), d0)
  {
  }

  ghost predicate OthersSame(d: Store, d': Store, name: key) {
    forall other: key :: other != name ==> Members(d', other) == Members(d, other)
  }

  lemma WriteKeepsOthers(d: Store, p: Phase)
    requires p.Writing? && p.i < |p.call.members|
    ensures OthersSame(d, Turn(d, p).0, p.call.name)
  {
    forall other: key | other != p.call.name ensures Members(Turn(d, p).0, other) == Members(d, other) {
      TurnKeepsOthers(d, p, other);
    }
  }

  lemma CallEnds(call: Call, before: set<bytes>)
    ensures Outcome(call, before, |call.members|) == if call.adding then before + SetOf(call.members)
        else before - SetOf(call.members)
  {
    assert call.members[..|call.members|] == call.members;
  }

  /** SAdd alone: the set gains exactly the named members, and the result counts the new ones. */
  method SAdd(engine: MemoryEngine, name: key, members: seq<bytes>) returns (added: nat)
    modifies engine
    ensures Members(engine.data, name) == old(Members(engine.data, name)) + SetOf(members)
    ensures added == |Members(engine.data, name)| - |old(Members(engine.data, name))|
    ensures OthersSame(old(engine.data), engine.data, name)
  {
    hide Members, Outcome, SetKey;
    ghost var call, before := Call(name, true, members), Members(engine.data, name);
    added := 0;
    CallBegins(engine.data, call);
    for i := 0 to |members|
      invariant PhaseOk(engine.data, Looking(call, before, i, added))
      invariant OthersSame(old(engine.data), engine.data, name)
    {
      var sk := SetKey(name, members[i]);
      var found := engine.Get(sk);
      TurnKeepsPhase(engine.data, Looking(call, before, i, added));
      if found.Some? { continue; }
      WriteKeepsOthers(engine.data, Writing(call, before, i, added));
      TurnKeepsPhase(engine.data, Writing(call, before, i, added));
      engine.Put(sk, [1]);
      added := added + 1;
    }
    CallEnds(call, before);
  }

  /** SRemove alone: the set loses exactly the named members, and the result counts them. */
  method SRemove(engine: MemoryEngine, name: key, members: seq<bytes>) returns (removed: nat)
    modifies engine
    ensures Members(engine.data, name) == old(Members(engine.data, name)) - SetOf(members)
    ensures removed == |old(Members(engine.data, name))| - |Members(engine.data, name)|
    ensures OthersSame(old(engine.data), engine.data, name)
  {
    hide Members, Outcome, SetKey;
    ghost var call, before := Call(name, false, members), Members(engine.data, name);
    removed := 0;
    CallBegins(engine.data, call);
    for i := 0 to |members|
      invariant PhaseOk(engine.data, Looking(call, before, i, removed))
      invariant OthersSame(old(engine.data), engine.data, name)
    {
      var sk := SetKey(name, members[i]);
      var found := engine.Get(sk);
      TurnKeepsPhase(engine.data, Looking(call, before, i, removed));
      if found.None? { continue; }
      WriteKeepsOthers(engine.data, Writing(call, before, i, removed));
      TurnKeepsPhase(engine.data, Writing(call, before, i, removed));
      engine.Delete(sk);
      removed := removed + 1;
    }
    CallEnds(call, before);
  }

  // ---------------------------------------------------------------- progress

  lemma NobodyIsStuck(s: State, d0: Store, t: nat)
    requires Inv(s, d0)
    ensures s.lock == Some(t) ==> Enabled(s, Engine(t)) || Enabled(s, Return(t))
    ensures s.lock.None? && PhaseOf(s, t).Waiting? ==> Enabled(s, Acquire(t))
    ensures PhaseOf(s, t).Idle? ==> forall call :: Enabled(s, Begin(t, call))
  {
    hide Members, Serial, End, Outcome;
  }

  /** Engine calls left: a lookup for each member, and a write after a lookup that asks for one. */
  function CallsLeft(p: Phase): int
    requires Active(p)
  {
    2 * (|p.call.members| - p.i) - if p.Writing? then 1 else 0
  }

  /** Each engine call leaves fewer, so every call returns. */
  lemma CallsAdvance(d: Store, p: Phase)
    requires Active(p) && p.i < |p.call.members|
    ensures var p' := Turn(d, p).1; Active(p') && 0 <= CallsLeft(p') < CallsLeft(p)
  {
    hide SetKey;
  }
}
