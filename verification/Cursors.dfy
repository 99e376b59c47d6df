/** Snapshot cursors under concurrency. scan_next takes the table lock twice, once to find the
    snapshot and once to advance it, so a close can fall between; every call of the interface
    may come from any thread. */
module Cursors {
  import opened Bytes
  import opened Layout
  import opened Engine
  import opened CApi

  /** What scan_next answered for a cursor: a record, or NotFound. */
  datatype Answer = Yield(c: nat, item: Record) | Drained(c: nat)

  /** `pending` are the calls of scan_next between their two critical sections; `issued` and
      `handles` are the cursors and database handles given out, in order. */
  datatype State = State(tables: Tables, pending: map<nat, nat>, answers: seq<Answer>, issued: seq<nat>,
      handles: seq<nat>)

  datatype Step =
    | OpenDatabase(stored: Store)
    | CloseDatabase(h: nat)
    | Put(h: nat, sk: bytes, value: bytes)
    | Delete(h: nat, sk: bytes)
    | OpenCursor(h: nat, prefix: bytes)
    | Find(t: nat, c: nat)
    | Advance(t: nat)
    | CloseCursor(c: nat)

  /** Calls on handles that are not there answer Invalid and change nothing, so they are no steps. */
  predicate Enabled(s: State, step: Step) {
    match step
    case OpenDatabase(_) => true
    case CloseDatabase(h) => h in s.tables.databases
    case Put(h, sk, _) => h in s.tables.databases && sk != []
    case Delete(h, sk) => h in s.tables.databases && sk != []
    case OpenCursor(h, _) => h in s.tables.databases
    case Find(t, c) => t !in s.pending && c in s.tables.open && c in s.tables.snapshots
    case Advance(t) => t in s.pending && s.pending[t] in s.tables.snapshots
    case CloseCursor(c) => c in s.tables.open
  }

  /** The second critical section of scan_next. */
  function Advanced(s: State, t: nat): State
    requires Enabled(s, Advance(t))
  {
    var c := s.pending[t];
    var snap := s.tables.snapshots[c];
    if snap.next < |snap.items| then
      s.(tables := s.tables.(snapshots := s.tables.snapshots[c := Snapshot(snap.items, snap.next + 1)]),
      pending := s.pending - {t}, answers := s.answers + [Yield(c, snap.items[snap.next])])
    else s.(pending := s.pending - {t}, answers := s.answers + [Drained(c)])
  }

  ghost function Apply(s: State, step: Step): State
    requires Enabled(s, step)
  {
    var t := s.tables;
    match step
    case OpenDatabase(stored) =>
      s.(tables := t.(databases := t.databases[t.nextDatabase := stored], nextDatabase := t.nextDatabase + 1),
      handles := s.handles + [t.nextDatabase])
    case CloseDatabase(h) => s.(tables := t.(databases := t.databases - {h}))
    case Put(h, sk, value) => s.(tables := t.(databases := t.databases[h := t.databases[h][sk := value]]))
    case Delete(h, sk) => s.(tables := t.(databases := t.databases[h := t.databases[h] - {sk}]))
    case OpenCursor(h, prefix) => s.(tables := Opened(t, h, prefix), issued := s.issued + [t.nextCursor])
    case Find(thread, c) => s.(pending := s.pending[thread := c])
    case Advance(thread) => Advanced(s, thread)
    case CloseCursor(c) => s.(tables := t.(open := t.open - {c}))
  }

  ghost predicate Runs(s: State, steps: seq<Step>)
    decreases |steps|
  {
    steps == [] || (Enabled(s, steps[0]) && Runs(Apply(s, steps[0]), steps[1..]))
  }

  ghost function Reached(s: State, steps: seq<Step>): State
    requires Runs(s, steps)
    decreases |steps|
  {
    if steps == [] then s else Reached(Apply(s, steps[0]), steps[1..])
  }

  /** The answers given for one cursor, in order. */
  function Of(c: nat, answers: seq<Answer>): seq<Answer> {
    if answers == [] then []
    else
      var rest, last := Of(c, answers[..|answers| - 1]), answers[|answers| - 1];
      if last.c == c then rest + [last] else rest
  }

  /** The first `n` answers of a cursor over `items`: each record once, in order, then NotFound. */
  function Replay(c: nat, items: seq<Record>, n: nat): seq<Answer> {
    seq(n, i requires 0 <= i => if i < |items| then Yield(c, items[i]) else Drained(c))
  }

  function Min(a: nat, b: nat): nat { if a < b then a else b }

  predicate Increasing(ids: seq<nat>) { forall i, j :: 0 <= i < j < |ids| ==> ids[i] < ids[j] }

  predicate CursorOk(s: State, c: nat) {
    var given := Of(c, s.answers);
    if c in s.tables.snapshots then
      var snap := s.tables.snapshots[c];
      given == Replay(c, snap.items, |given|) && snap.next == Min(|given|, |snap.items|)
    else given == []
  }

  ghost predicate Inv(s: State) {
    && Valid(s.tables)
    && (forall t <- s.pending :: s.pending[t] in s.tables.snapshots)
    && Increasing(s.issued) && (forall i :: 0 <= i < |s.issued| ==> s.issued[i] < s.tables.nextCursor)
    && Increasing(s.handles) && (forall i :: 0 <= i < |s.handles| ==> s.handles[i] < s.tables.nextDatabase)
    && forall c: nat :: CursorOk(s, c)
  }

  lemma Append(c: nat, answers: seq<Answer>, a: Answer)
    ensures Of(c, answers + [a]) == if a.c == c then Of(c, answers) + [a] else Of(c, answers)
  {
    assert (answers + [a])[..|answers|] == answers;
  }

  lemma AdvanceKeepsInv(s: State, t: nat)
    requires Inv(s) && Enabled(s, Advance(t))
    ensures Inv(Advanced(s, t))
  {
    var s', c0 := Advanced(s, t), s.pending[t];
    forall c: nat ensures CursorOk(s', c) {
      assert CursorOk(s, c);
      AdvanceAnswers(s, t, c);
    }
  }

  lemma AdvanceAnswers(s: State, t: nat, c: nat)
    requires Enabled(s, Advance(t)) && CursorOk(s, c)
    ensures CursorOk(Advanced(s, t), c)
  {
    var s', c0 := Advanced(s, t), s.pending[t];
    var a := s'.answers[|s.answers|];
    Append(c, s.answers, a);
    assert s'.answers == s.answers + [a];
    if c == c0 {
      var snap, given := s.tables.snapshots[c], Of(c, s.answers);
      assert Replay(c, snap.items, |given| + 1) == Replay(c, snap.items, |given|) + [a];
    }
  }

  lemma OpenKeepsInv(s: State, h: nat, prefix: bytes)
    requires Inv(s) && Enabled(s, OpenCursor(h, prefix))
    ensures Inv(Apply(s, OpenCursor(h, prefix)))
  {
    hide Of, Replay, Scan;
    var s' := Apply(s, OpenCursor(h, prefix));
    Untouched(s.tables.nextCursor, Scan(s.tables.databases[h], prefix));
    assert s.tables.nextCursor !in s.tables.snapshots;
    forall c: nat ensures CursorOk(s', c) { assert CursorOk(s, c); }
  }

  lemma OtherStepsKeepInv(s: State, step: Step)
    requires Inv(s) && Enabled(s, step) && !step.Advance? && !step.OpenCursor?
    ensures Inv(Apply(s, step))
  {
    hide Of, Replay;
    var s' := Apply(s, step);
    forall c: nat ensures CursorOk(s', c) { assert CursorOk(s, c); }
  }

  lemma StepKeeps(s: State, step: Step, c: nat)
    requires Valid(s.tables) && Enabled(s, step) && c in s.tables.snapshots
    ensures Kept(s, Apply(s, step), c)
  {
    hide Scan;
  }

  lemma StepKeepsInv(s: State, step: Step)
    requires Inv(s) && Enabled(s, step)
    ensures Inv(Apply(s, step))
  {
    if step.Advance? {
      AdvanceKeepsInv(s, step.t);
    } else if step.OpenCursor? {
      OpenKeepsInv(s, step.h, step.prefix);
    } else {
      OtherStepsKeepInv(s, step);
    }
  }

  lemma Untouched(c: nat, items: seq<Record>)
    ensures Replay(c, items, 0) == []
  {
  }

  /** A snapshot never changes its records, and a closed cursor never opens again. */
  predicate Kept(s: State, s': State, c: nat) {
    && c in s.tables.snapshots && c in s'.tables.snapshots
    && s'.tables.snapshots[c].items == s.tables.snapshots[c].items
    && (c !in s.tables.open ==> c !in s'.tables.open)
  }

  lemma ValidFromInv(s: State)
    requires Inv(s)
    ensures Valid(s.tables)
  {
  }

  lemma {:induction false} RunKeepsInv(s: State, steps: seq<Step>, c: nat)
    requires Inv(s) && Runs(s, steps) && c in s.tables.snapshots
    ensures Inv(Reached(s, steps)) && Kept(s, Reached(s, steps), c)
    decreases |steps|
  {
    hide Inv, Apply, Enabled;
    if steps != [] {
      StepKeepsInv(s, steps[0]);
      StepKeeps(s, steps[0], c) by { ValidFromInv(s); }
      RunKeepsInv(Apply(s, steps[0]), steps[1..], c);
    }
  }

  /** A cursor replays the scan taken when it was opened: whatever puts, deletes, closes and other
      cursors come between its calls, from any number of threads, the answers for it are the
      records of that scan in order, each once, and NotFound from then on. */
  lemma CursorReplaysItsScan(s: State, h: nat, prefix: bytes, steps: seq<Step>)
    requires Inv(s) && h in s.tables.databases && Runs(Apply(s, OpenCursor(h, prefix)), steps)
    ensures var c, s' := s.tables.nextCursor, Reached(Apply(s, OpenCursor(h, prefix)), steps);
            && Of(c, s.answers) == []
            && Of(c, s'.answers) == Replay(c, Scan(s.tables.databases[h], prefix), |Of(c, s'.answers)|)
  {
    var c, s1 := s.tables.nextCursor, Apply(s, OpenCursor(h, prefix));
    hide Of, Replay, Scan, Runs, Reached;
    assert CursorOk(s, c);
    StepKeepsInv(s, OpenCursor(h, prefix));
    RunKeepsInv(s1, steps, c);
    assert CursorOk(Reached(s1, steps), c);
  }

  /** Neither cursors nor database handles are ever issued twice. */
  lemma {:induction false} IdsAreFresh(s: State, steps: seq<Step>)
    requires Inv(s) && Runs(s, steps)
    ensures var s' := Reached(s, steps);
            Increasing(s'.issued) && s.issued <= s'.issued && Increasing(s'.handles) && s.handles <= s'.handles
    decreases |steps|
  {
    hide CursorOk;
    if steps != [] {
      StepKeepsInv(s, steps[0]);
      IdsAreFresh(Apply(s, steps[0]), steps[1..]);
    }
  }

  /** A handle that was closed stays closed: a stale module engine reaches no other database. */
  lemma {:induction false} StaleHandle(s: State, h: nat, steps: seq<Step>)
    requires Runs(s, steps) && h < s.tables.nextDatabase && h !in s.tables.databases
    ensures h !in Reached(s, steps).tables.databases
    decreases |steps|
  {
    if steps != [] { StaleHandle(Apply(s, steps[0]), h, steps[1..]); }
  }

  /** scan_next on a cursor that was closed never gets past its lookup. */
  lemma ClosedStaysClosed(s: State, c: nat, steps: seq<Step>, t: nat)
    requires Inv(s) && c in s.tables.snapshots && c !in s.tables.open && Runs(s, steps)
    ensures !Enabled(Reached(s, steps), Find(t, c))
  {
    RunKeepsInv(s, steps, c);
  }

  /** The calls of scan_next on `c` that found it and have not advanced it yet. */
  function Late(s: State, c: nat): set<nat> { set t <- s.pending | s.pending[t] == c }

  lemma LateAdvance(s: State, t: nat, c: nat)
    requires Enabled(s, Advance(t))
    ensures var s' := Advanced(s, t);
            |Of(c, s'.answers)| + |Late(s', c)| == |Of(c, s.answers)| + |Late(s, c)| && Late(s', c) <= Late(s, c)
  {
    var s' := Advanced(s, t);
    var a := s'.answers[|s.answers|];
    assert s'.answers == s.answers + [a];
    Append(c, s.answers, a);
    hide Of;
    if s.pending[t] == c {
      assert Late(s', c) == Late(s, c) - {t} && t in Late(s, c);
    } else {
      assert Late(s', c) == Late(s, c);
    }
  }

  lemma LateStep(s: State, step: Step, c: nat)
    requires Enabled(s, step) && c !in s.tables.open && c < s.tables.nextCursor
    ensures var s' := Apply(s, step);
            && |Of(c, s'.answers)| + |Late(s', c)| == |Of(c, s.answers)| + |Late(s, c)|
            && Late(s', c) <= Late(s, c)
            && c !in s'.tables.open && c < s'.tables.nextCursor
  {
    hide Scan, Of;
    if step.Advance? {
      LateAdvance(s, step.t, c);
      hide Late;
    } else {
      assert Late(Apply(s, step), c) == Late(s, c);
    }
  }

  /** After a close, exactly the calls that had found the cursor before it can still be answered:
      each answer uses up one of them, and none is added. Without such calls the answers are over. */
  lemma {:induction false} OnlyLateCallsAnswer(s: State, c: nat, steps: seq<Step>)
    requires Runs(s, steps) && c !in s.tables.open && c < s.tables.nextCursor
    ensures var s' := Reached(s, steps);
            && |Of(c, s'.answers)| + |Late(s', c)| == |Of(c, s.answers)| + |Late(s, c)|
            && Late(s', c) <= Late(s, c)
    decreases |steps|
  {
    hide Apply, Enabled, Of, Late;
    if steps != [] {
      LateStep(s, steps[0], c);
      OnlyLateCallsAnswer(Apply(s, steps[0]), c, steps[1..]);
    }
  }

  /** And they can be: find, close, advance still yields the next record of the snapshot. */
  lemma LateCallAnswers(s: State, t: nat, c: nat)
    requires Inv(s) && t !in s.pending && c in s.tables.open
    requires s.tables.snapshots[c].next < |s.tables.snapshots[c].items|
    ensures var steps, snap := [Find(t, c), CloseCursor(c), Advance(t)], s.tables.snapshots[c];
            && Runs(s, steps)
            && var s' := Reached(s, steps);
               c !in s'.tables.open && s'.answers == s.answers + [Yield(c, snap.items[snap.next])]
  {
    var find, close, advance := Find(t, c), CloseCursor(c), Advance(t);
    var steps := [find, close, advance];
    assert steps[1..] == [close, advance] && [close, advance][1..] == [advance] && [advance][1..] == [];
    var s1 := Apply(s, find);
    var s2 := Apply(s1, close);
    var s3 := Apply(s2, advance);
    assert Runs(s3, []) && Reached(s3, []) == s3;
    assert Runs(s2, [advance]) && Reached(s2, [advance]) == Reached(s3, []);
    assert Runs(s1, [close, advance]) && Reached(s1, [close, advance]) == Reached(s2, [advance]);
  }

  lemma EmptyStart()
    ensures Inv(State(Tables(map[], 1, map[], {}, 1), map[], [], [], []))
  {
  }

  // ---------------------------------------------------------------- what the calls do

  /** A handle that is closed is gone for good. */
  lemma ClosedHandle(s: State, h: nat, steps: seq<Step>)
    requires Inv(s) && h in s.tables.databases && Runs(Apply(s, CloseDatabase(h)), steps)
    ensures h !in Reached(Apply(s, CloseDatabase(h)), steps).tables.databases
  {
    hide CursorOk;
    StaleHandle(Apply(s, CloseDatabase(h)), h, steps);
  }

  /** A cursor that is closed is not found again. */
  lemma ClosedCursor(s: State, c: nat, steps: seq<Step>, t: nat)
    requires Inv(s) && c in s.tables.open && Runs(Apply(s, CloseCursor(c)), steps)
    ensures !Enabled(Reached(Apply(s, CloseCursor(c)), steps), Find(t, c))
  {
    hide CursorOk;
    StepKeepsInv(s, CloseCursor(c));
    ClosedStaysClosed(Apply(s, CloseCursor(c)), c, steps, t);
  }

  /** A cursor opened after a put finds the record under every prefix of its key, and after a
      delete under none. */
  lemma CursorSeesWrites(s: State, h: nat, sk: bytes, value: bytes, prefix: bytes)
    requires Inv(s) && h in s.tables.databases && sk != [] && prefix <= sk
    ensures var s' := Apply(Apply(s, Put(h, sk, value)), OpenCursor(h, prefix));
            (sk, value) in s'.tables.snapshots[s.tables.nextCursor].items
    ensures var s' := Apply(Apply(s, Delete(h, sk)), OpenCursor(h, prefix));
            forall v :: (sk, v) !in s'.tables.snapshots[s.tables.nextCursor].items
  {
    ScanFinds(s.tables.databases[h][sk := value], prefix, sk);
    ScanFinds(s.tables.databases[h] - {sk}, prefix, sk);
    hide Scan, CursorOk;
  }

  lemma ScanFinds(d: Store, prefix: bytes, sk: bytes)
    requires prefix <= sk
    ensures if sk in d then (sk, d[sk]) in Scan(d, prefix) else forall v :: (sk, v) !in Scan(d, prefix)
  {
    ScanIsExact(d, prefix);
    hide Scan;
  }

  /** A call that found its cursor can finish, and any open cursor can be asked. */
  lemma NobodyIsStuck(s: State, t: nat, c: nat)
    requires Inv(s)
    ensures t in s.pending ==> Enabled(s, Advance(t))
    ensures t !in s.pending && c in s.tables.open ==> Enabled(s, Find(t, c))
  {
    hide CursorOk;
  }
}
