/** Scalar replacement under protocolMu, one engine call at a time: Put and PutStoredValue of
    db.go, the logical PUT of the HTTP owner, SET of the Redis server, and the locked reads.
    A replacement deletes before it writes, so between two engine calls the key is missing;
    the lock keeps every read out of that gap. */
module Replacement {
  import opened Bytes
  import opened Keys
  import opened Layout

  /** `redis` replacements finish by deleting the collection deadline record as well. */
  datatype Op = Replace(k: key, value: bytes, redis: bool) | Read(k: key)

  datatype Phase =
    | Idle
    | Waiting(op: Op)
    | Collecting(k: key, value: bytes, redis: bool, stage: nat, found: seq<bytes>)
    | Deleting(k: key, value: bytes, redis: bool, rest: seq<bytes>)
    | Putting(k: key, value: bytes, redis: bool)
    | Trailing(k: key, value: bytes)
    | Written(k: key, value: bytes)
    | Reading(k: key)
    | HasRead(k: key, result: Option<bytes>)

  /** A read, and the value of the last replacement that had released the lock by then. */
  datatype Observation = Observation(k: key, result: Option<bytes>, latest: Option<bytes>)

  datatype State = State(
    store: Store,
    lock: Option<nat>,
    threads: map<nat, Phase>,
    latest: map<key, bytes>,
    seen: seq<Observation>)

  datatype Step = Begin(t: nat, op: Op) | Acquire(t: nat) | Call(t: nat) | Release(t: nat)

  function PhaseOf(s: State, t: nat): Phase { if t in s.threads then s.threads[t] else Idle }

  predicate Active(p: Phase) { !p.Idle? && !p.Waiting? }

  predicate Finished(p: Phase) { p.Written? || p.HasRead? }

  predicate Enabled(s: State, step: Step) {
    match step
    case Begin(t, _) => PhaseOf(s, t).Idle?
    case Acquire(t) => PhaseOf(s, t).Waiting? && s.lock.None?
    case Call(t) => s.lock == Some(t) && Active(PhaseOf(s, t)) && !Finished(PhaseOf(s, t))
    case Release(t) => s.lock == Some(t) && Finished(PhaseOf(s, t))
  }

  ghost function ListOf(s: set<bytes>): (r: seq<bytes>)
    ensures forall x :: x in r <==> x in s
    decreases |s|
  {
    if s == {} then []
    else
      var x :| x in s;
      [x] + ListOf(s - {x})
  }

  /** The lookups of deleteLogicalKey: three exact keys, then the hash and set scans. */
  ghost function Lookup(d: Store, k: key, stage: nat): seq<bytes> {
    if stage == 0 then if ValueKey(k) in d then [ValueKey(k)] else []
    else if stage == 1 then if ListKey(k) in d then [ListKey(k)] else []
    else if stage == 2 then if TtlKey(k) in d then [TtlKey(k)] else []
    else if stage == 3 then ListOf(set sk <- d | HashPrefix(k) <= sk)
    else ListOf(set sk <- d | SetPrefix(k) <= sk)
  }

  /** One engine call on the store by a thread in phase `p`: the new store and phase. */
  ghost function Turn(d: Store, p: Phase): (Store, Phase)
    requires Active(p) && !Finished(p)
  {
    match p
    case Collecting(k, v, redis, stage, found) =>
      var more := found + Lookup(d, k, stage);
      (d, if stage < 4 then Collecting(k, v, redis, stage + 1, more) else Deleting(k, v, redis, more))
    case Deleting(k, v, redis, rest) =>
      if rest == [] then (d, Putting(k, v, redis)) else (d - {rest[0]}, Deleting(k, v, redis, rest[1..]))
    case Putting(k, v, redis) =>
      (d[ValueKey(k) := v], if redis then Trailing(k, v) else Written(k, v))
    case Trailing(k, v) =>
      (d - {TtlKey(k)}, Written(k, v))
    case Reading(k) =>
      (d, HasRead(k, if ValueKey(k) in d then Some(d[ValueKey(k)]) else None))
  }

  function Latest(s: State, k: key): Option<bytes> { if k in s.latest then Some(s.latest[k]) else None }

  ghost function Apply(s: State, step: Step): State
    requires Enabled(s, step)
  {
    var p := PhaseOf(s, step.t);
    match step
    case Begin(t, op) => s.(threads := s.threads[t := Waiting(op)])
    case Acquire(t) =>
      var first := if p.op.Read? then Reading(p.op.k) else Collecting(p.op.k, p.op.value, p.op.redis, 0, []);
      s.(lock := Some(t), threads := s.threads[t := first])
    case Call(t) =>
      var (d, p') := Turn(s.store, p);
      s.(store := d, threads := s.threads[t := p'],
      seen := if p'.HasRead? then s.seen + [Observation(p'.k, p'.result, Latest(s, p'.k))] else s.seen)
    case Release(t) =>
      s.(lock := None, threads := s.threads[t := Idle], latest := if p.Written? then s.latest[p.k := p.value]
          else s.latest)
  }

  /** Every step is enabled when its turn comes. */
  ghost predicate Runs(s: State, steps: seq<Step>)
    decreases |steps|
  {
    steps == [] || (Enabled(s, steps[0]) && Runs(Apply(s, steps[0]), steps[1..]))
  }

  ghost function Reached(s: State, steps: seq<Step>): State
    requires Runs(s, steps)
    decreases |steps|
  {
    if steps == [] then s else Reached(Apply(s, steps[0]), steps[1..])
  }

  /** The phase of the thread that holds the lock. */
  function Holder(s: State): Phase { if s.lock.Some? then PhaseOf(s, s.lock.value) else Idle }

  /** The lock holder is past its lookups: the records of its key are in motion. */
  predicate InFlight(p: Phase, k: key) {
    (p.Deleting? || p.Putting? || p.Trailing? || p.Written?) && p.k == k
  }

  /** `k` is a string with value `v`: that record is there, and no other record of `k`. */
  ghost predicate OnlyValue(d: Store, k: key, v: bytes) {
    ValueKey(k) in d && d[ValueKey(k)] == v && forall sk <- d :: Owns(k, sk) ==> sk == ValueKey(k)
  }

  /** The lookup that finds a record of `k`. */
  function Rank(k: key, sk: bytes): nat {
    if sk == ValueKey(k) then 0
    else if sk == ListKey(k) then 1
    else if sk == TtlKey(k) then 2
    else if HashPrefix(k) <= sk then 3
    else if SetPrefix(k) <= sk then 4
    else 5
  }

  ghost predicate AllOwned(k: key, sks: seq<bytes>) { forall sk <- sks :: Owns(k, sk) }

  /** What the lock holder relies on at each phase. */
  ghost predicate PhaseOk(d: Store, p: Phase) {
    match p
    case Collecting(k, _, _, stage, found) =>
      stage <= 4 && AllOwned(k, found) && forall sk <- d :: Rank(k, sk) < stage ==> sk in found
    case Deleting(k, _, _, rest) => AllOwned(k, rest) && forall sk <- d :: Owns(k, sk) ==> sk in rest
    case Putting(k, _, _) => forall sk <- d :: !Owns(k, sk)
    case Trailing(k, v) => OnlyValue(d, k, v)
    case Written(k, v) => OnlyValue(d, k, v)
    case _ => true
  }

  /** Every replaced key outside the current replacement holds its latest value and nothing else. */
  ghost predicate Settled(d: Store, latest: map<key, bytes>, p: Phase) {
    forall k <- latest :: !InFlight(p, k) ==> OnlyValue(d, k, latest[k])
  }

  predicate Faithful(o: Observation) { o.latest.Some? ==> o.result == o.latest }

  ghost predicate Inv(s: State) {
    && (forall t <- s.threads :: Active(s.threads[t]) ==> s.lock == Some(t))
    && (s.lock.Some? ==> Active(Holder(s)))
    && PhaseOk(s.store, Holder(s))
    && Settled(s.store, s.latest, Holder(s))
    && (forall i :: 0 <= i < |s.seen| ==> Faithful(s.seen[i]))
  }

  lemma LookupFinds(d: Store, k: key, stage: nat, sk: bytes)
    requires stage <= 4
    ensures sk in Lookup(d, k, stage) <==> sk in d && Rank(k, sk) == stage
  {
    FamiliesAreDisjoint(k, sk);
  }

  lemma RankOwns(k: key, sk: bytes)
    ensures Owns(k, sk) <==> Rank(k, sk) < 5
  {
  }

  lemma CollectKeepsPhase(d: Store, p: Phase)
    requires p.Collecting? && PhaseOk(d, p)
    ensures PhaseOk(d, Turn(d, p).1)
  {
    hide Lookup, Owns, Rank;
    var more := p.found + Lookup(d, p.k, p.stage);
    forall sk <- more ensures Owns(p.k, sk) {
      LookupFinds(d, p.k, p.stage, sk);
      RankOwns(p.k, sk);
    }
    forall sk <- d | Rank(p.k, sk) <= p.stage ensures sk in more { LookupFinds(d, p.k, p.stage, sk); }
    forall sk <- d | Owns(p.k, sk) && p.stage == 4 ensures sk in more { RankOwns(p.k, sk); }
  }

  lemma OwnTtl(k: key)
    ensures Owns(k, TtlKey(k)) && Owns(k, ValueKey(k)) && TtlKey(k) != ValueKey(k)
  {
    FamiliesAreDisjoint(k, []);
  }

  lemma TurnKeepsPhase(d: Store, p: Phase)
    requires Active(p) && !Finished(p) && PhaseOk(d, p)
    ensures PhaseOk(Turn(d, p).0, Turn(d, p).1)
  {
    if p.Collecting? {
      CollectKeepsPhase(d, p);
    } else {
      hide Owns;
      if p.Trailing? || p.Putting? { OwnTtl(p.k); }
    }
  }

  /** A store that differs only in records of `k` leaves every other string alone. */
  lemma OthersKeep(d: Store, d': Store, k: key, k2: key, v: bytes)
    requires k2 != k && OnlyValue(d, k2, v)
    requires forall sk :: !Owns(k, sk) ==> (sk in d <==> sk in d') && (sk in d ==> d[sk] == d'[sk])
    ensures OnlyValue(d', k2, v)
  {
    hide Owns;
    OwnTtl(k2);
    if Owns(k, ValueKey(k2)) { OwnersAreDisjoint(k, k2, ValueKey(k2)); }
    forall sk <- d' | Owns(k2, sk) ensures sk == ValueKey(k2) {
      if Owns(k, sk) { OwnersAreDisjoint(k, k2, sk); }
    }
  }

  /** A turn changes records of the thread's own key only, and none before its lookups are done. */
  lemma TurnIsLocal(d: Store, p: Phase, sk: bytes)
    requires Active(p) && !Finished(p) && PhaseOk(d, p)
    ensures var d' := Turn(d, p).0; !Owns(p.k, sk) ==> (sk in d <==> sk in d') && (sk in d ==> d[sk] == d'[sk])
    ensures Turn(d, p).1.k == p.k
    ensures !InFlight(p, p.k) ==> Turn(d, p).0 == d
  {
    hide Owns, Lookup;
    OwnTtl(p.k);
  }

  lemma TurnKeepsSettled(d: Store, latest: map<key, bytes>, p: Phase)
    requires Active(p) && !Finished(p) && PhaseOk(d, p) && Settled(d, latest, p)
    ensures Settled(Turn(d, p).0, latest, Turn(d, p).1)
  {
    hide Owns, PhaseOk, OnlyValue;
    var (d', p') := Turn(d, p);
    forall sk ensures !Owns(p.k, sk) ==> (sk in d <==> sk in d') && (sk in d ==> d[sk] == d'[sk]) {
      TurnIsLocal(d, p, sk);
    }
    TurnIsLocal(d, p, []);
    forall k <- latest | !InFlight(p', k) ensures OnlyValue(d', k, latest[k]) {
      if k != p.k { OthersKeep(d, d', p.k, k, latest[k]); }
    }
  }

  lemma ReadIsFaithful(s: State, k: key)
    requires Settled(s.store, s.latest, Reading(k))
    ensures Faithful(Observation(k, Turn(s.store, Reading(k)).1.result, Latest(s, k)))
  {
  }

  lemma CallKeepsInv(s: State, t: nat)
    requires Inv(s) && Enabled(s, Call(t))
    ensures Inv(Apply(s, Call(t)))
  {
    hide PhaseOk, Settled, Faithful;
    var p := PhaseOf(s, t);
    TurnKeepsPhase(s.store, p);
    TurnKeepsSettled(s.store, s.latest, p);
    if p.Reading? { ReadIsFaithful(s, p.k); }
  }

  lemma StepKeepsInv(s: State, step: Step)
    requires Inv(s) && Enabled(s, step)
    ensures Inv(Apply(s, step))
  {
    if step.Call? {
      CallKeepsInv(s, step.t);
    } else {
      hide OnlyValue, Faithful, Rank, Owns;
    }
  }

  /** No replacement gap: in every interleaving of engine calls, every read of a key that has
      been replaced returns the value of the last replacement to release the lock, and never
      finds it missing. Between replacements a replaced key has no record but its value. */
  lemma {:induction false} NoReplacementGap(s: State, steps: seq<Step>)
    requires Inv(s) && Runs(s, steps)
    ensures var s' := Reached(s, steps);
            && Inv(s')
            && (forall i :: 0 <= i < |s'.seen| ==> Faithful(s'.seen[i]))
            && (s'.lock.None? ==> forall k <- s'.latest :: OnlyValue(s'.store, k, s'.latest[k]))
    decreases |steps|
  {
    hide Apply, PhaseOk, OnlyValue;
    if steps == [] {
      assert forall k :: !InFlight(Idle, k);
    } else {
      StepKeepsInv(s, steps[0]);
      NoReplacementGap(Apply(s, steps[0]), steps[1..]);
    }
  }

  /** A quiet store whose replaced keys are strings satisfies the invariant. */
  lemma QuietStart(store: Store, latest: map<key, bytes>)
    requires forall k <- latest :: OnlyValue(store, k, latest[k])
    ensures Inv(State(store, None, map[], latest, []))
  {
  }

  /** The gap is real: the last delete of a replacement leaves the key with no record at all,
      and only the lock stands between that state and a reader. */
  lemma GapExists(s: State, t: nat, reader: nat)
    requires Inv(s) && s.lock == Some(t) && PhaseOf(s, t).Deleting? && |PhaseOf(s, t).rest| == 1
    requires PhaseOf(s, reader).Waiting?
    ensures var s' := Apply(s, Call(t));
            && (forall sk <- s'.store :: !Owns(PhaseOf(s, t).k, sk))
            && !Enabled(s', Acquire(reader)) && Enabled(s'.(lock := None), Acquire(reader))
  {
    var p := PhaseOf(s, t);
    assert Apply(s, Call(t)).store == s.store - {p.rest[0]};
  }

  // ---------------------------------------------------------------- progress

  /** The lock holder can always go on, and anybody can take a free lock. */
  lemma NobodyIsStuck(s: State, t: nat)
    requires Inv(s)
    ensures s.lock == Some(t) ==> Enabled(s, Call(t)) || Enabled(s, Release(t))
    ensures s.lock.None? && PhaseOf(s, t).Waiting? ==> Enabled(s, Acquire(t))
    ensures PhaseOf(s, t).Idle? ==> forall op :: Enabled(s, Begin(t, op))
  {
    hide PhaseOk, Settled, Faithful;
  }

  function Stage(p: Phase): nat {
    match p
    case Collecting(_, _, _, _, _) => 4
    case Deleting(_, _, _, _) => 3
    case Putting(_, _, _) => 2
    case Trailing(_, _) => 1
    case Reading(_) => 1
    case _ => 0
  }

  /** What is left of the present stage. */
  function Rest(p: Phase): int {
    match p
    case Collecting(_, _, _, stage, _) => 5 - stage
    case Deleting(_, _, _, rest) => |rest|
    case _ => 0
  }

  /** Each engine call comes closer to the end of the operation, so it ends. */
  lemma CallsAdvance(d: Store, p: Phase)
    requires Active(p) && !Finished(p)
    ensures var p' := Turn(d, p).1; Stage(p') < Stage(p) || (Stage(p') == Stage(p) && 0 <= Rest(p') < Rest(p))
  {
    hide Lookup;
  }

  /** A replacement takes effect when it releases the lock, and a read tells what it found. */
  lemma Released(s: State, t: nat)
    requires Inv(s) && Enabled(s, Release(t))
    ensures var p, s' := PhaseOf(s, t), Apply(s, Release(t));
            && s'.lock.None? && s'.store == s.store && PhaseOf(s', t).Idle?
            && s'.latest == if p.Written? then s.latest[p.k := p.value] else s.latest
    ensures PhaseOf(s, t).Written? ==> OnlyValue(s.store, PhaseOf(s, t).k, PhaseOf(s, t).value)
  {
  }

  lemma Observed(s: State, t: nat)
    requires Enabled(s, Call(t)) && PhaseOf(s, t).Reading?
    ensures var k := PhaseOf(s, t).k;
            Apply(s, Call(t)).seen == s.seen +
              [Observation(k, if ValueKey(k) in s.store then Some(s.store[ValueKey(k)]) else None, Latest(s, k))]
  {
  }
}
