/** The Redis server around its connections (redis_server.go): the accept loop, one handler per
    connection and Close, interleaved at every shared step. */
module ServerLifecycle {
  import opened Bytes

  type conn = nat

  /** The accept loop, between two of its steps. */
  datatype Loop =
    | Accepting
    | Accepted(c: conn)      // before the semaphore
    | Admitted(c: conn)      // holds a slot, before register
    | Listed(c: conn)        // registered, before its handler starts
    | Refused(c: conn)       // register said no, slot still held
    | Dropping(c: conn)      // slot given back, connection still open
    | Ending                 // about to run the deferred wg.Done
    | Ended

  /** A handler: serving, then its deferred calls in order. */
  datatype Handler = Serving | Released | Shut | Unlisted | Finished

  /** The one execution of Close. */
  datatype Closer =
    | NotCalled
    | Signalled
    | Marked(rest: set<conn>)    // closed is set and the connections are listed
    | Closing(rest: set<conn>)   // the listener is closed
    | Waiting
    | Returned

  datatype State = State(
    max: Option<nat>,             // capacity of the semaphore; None when MaxClients is 0
    slots: nat,                   // slots taken
    signalled: bool,              // the done channel is closed
    refusing: bool,               // the closed flag, under mu
    listening: bool,
    wg: nat,
    conns: set<conn>,
    seen: set<conn>,              // every connection Accept returned
    closed: set<conn>,            // every connection that has been closed
    loop: Loop,
    handlers: map<conn, Handler>,
    closer: Closer)

  datatype Step =
    | Accept(c: conn) | AcceptError(temporary: bool) | TakeSlot | Register | Spawn | Refuse | Drop | EndLoop
    | Handle(c: conn)
    | Signal | Mark | CloseListener | CloseConn(c: conn) | StartWait | Return

  predicate Enabled(s: State, step: Step) {
    match step
    case Accept(c) => s.loop.Accepting? && s.listening && c !in s.seen
    case AcceptError(_) => s.loop.Accepting?
    case TakeSlot => s.loop.Accepted?
    case Register => s.loop.Admitted?
    case Spawn => s.loop.Listed?
    case Refuse => s.loop.Refused?
    case Drop => s.loop.Dropping?
    case EndLoop => s.loop.Ending?
    case Handle(c) => c in s.handlers && !s.handlers[c].Finished?
    case Signal => s.closer.NotCalled?
    case Mark => s.closer.Signalled?
    case CloseListener => s.closer.Marked?
    case CloseConn(c) => s.closer.Closing? && c in s.closer.rest
    case StartWait => s.closer.Closing? && s.closer.rest == {}
    case Return => s.closer.Waiting? && s.wg == 0
  }

  function Sub(n: nat): nat { if n == 0 then 0 else n - 1 }

  /** The slot count after a release: nothing to release without a semaphore. */
  function Freed(s: State): nat { if s.max.Some? then Sub(s.slots) else s.slots }

  function ApplyLoop(s: State, step: Step): State
    requires Enabled(s, step)
  {
    match step
    case Accept(c) => s.(loop := Accepted(c), seen := s.seen + {c})
    case AcceptError(temporary) => s.(loop := if !s.signalled && temporary then Accepting else Ending)
    case TakeSlot =>
      if s.max.None? then s.(loop := Admitted(s.loop.c))
      else if s.slots < s.max.value then s.(loop := Admitted(s.loop.c), slots := s.slots + 1)
      else s.(loop := Accepting, closed := s.closed + {s.loop.c})
    case Register =>
      if s.refusing then s.(loop := Refused(s.loop.c))
      else s.(loop := Listed(s.loop.c), conns := s.conns + {s.loop.c})
    case Spawn => s.(loop := Accepting, wg := s.wg + 1, handlers := s.handlers[s.loop.c := Serving])
    case Refuse => s.(loop := Dropping(s.loop.c), slots := Freed(s))
    case Drop => s.(loop := Ending, closed := s.closed + {s.loop.c})
    case EndLoop => s.(loop := Ended, wg := Sub(s.wg))
    case _ => s
  }

  function ApplyHandler(s: State, c: conn): State
    requires c in s.handlers
  {
    match s.handlers[c]
    case Serving => s.(handlers := s.handlers[c := Released], slots := Freed(s))
    case Released => s.(handlers := s.handlers[c := Shut], closed := s.closed + {c})
    case Shut => s.(handlers := s.handlers[c := Unlisted], conns := s.conns - {c})
    case Unlisted => s.(handlers := s.handlers[c := Finished], wg := Sub(s.wg))
    case Finished => s
  }

  function ApplyClose(s: State, step: Step): State
    requires Enabled(s, step)
  {
    match step
    case Signal => s.(closer := Signalled, signalled := true)
    case Mark => s.(closer := Marked(s.conns), refusing := true)
    case CloseListener => s.(closer := Closing(s.closer.rest), listening := false)
    case CloseConn(c) => s.(closer := Closing(s.closer.rest - {c}), closed := s.closed + {c})
    case StartWait => s.(closer := Waiting)
    case Return => s.(closer := Returned)
    case _ => s
  }

  predicate OfLoop(step: Step) {
    step.Accept? || step.AcceptError? || step.TakeSlot? || step.Register? || step.Spawn? || step.Refuse?
        || step.Drop? || step.EndLoop?
  }

  function Apply(s: State, step: Step): State
    requires Enabled(s, step)
  {
    if OfLoop(step) then ApplyLoop(s, step)
    else if step.Handle? then ApplyHandler(s, step.c)
    else ApplyClose(s, step)
  }

  predicate Runs(s: State, steps: seq<Step>)
    decreases |steps|
  {
    steps == [] || (Enabled(s, steps[0]) && Runs(Apply(s, steps[0]), steps[1..]))
  }

  function Reached(s: State, steps: seq<Step>): State
    requires Runs(s, steps)
    decreases |steps|
  {
    if steps == [] then s else Reached(Apply(s, steps[0]), steps[1..])
  }

  function Start(max: Option<nat>): State {
    State(max, 0, false, false, true, 1, {}, {}, {}, Accepting, map[], NotCalled)
  }

  /** Connections with a handler inside serveRedisConnection. */
  function InService(h: map<conn, Handler>): set<conn> { set c | c in h && h[c].Serving? }

  /** Connections whose handler has not run its last deferred call. */
  function Live(h: map<conn, Handler>): set<conn> { set c | c in h && !h[c].Finished? }

  /** Connections whose handler has not unregistered yet. */
  function Known(h: map<conn, Handler>): set<conn> { set c | c in h && (h[c].Serving? || h[c].Released? || h[c].Shut?) }

  predicate HoldsSlot(l: Loop) { l.Admitted? || l.Listed? || l.Refused? }

  predicate HoldsConn(l: Loop, c: conn) { (HoldsSlot(l) || l.Accepted? || l.Dropping?) && l.c == c }

  function Bit(b: bool): nat { if b then 1 else 0 }

  predicate Slots(s: State) {
    s.max.Some? ==> s.slots == |InService(s.handlers)| + Bit(HoldsSlot(s.loop)) && s.slots <= s.max.value
  }

  predicate Group(s: State) { s.wg == |Live(s.handlers)| + Bit(!s.loop.Ended?) }

  predicate Registry(s: State) {
    s.conns == Known(s.handlers) + if s.loop.Listed? then {s.loop.c} else {}
  }

  /** Every accepted connection is with the loop, with its handler, or closed. */
  ghost predicate Tracked(s: State) {
    && (forall c <- s.seen :: HoldsConn(s.loop, c) || c in s.handlers || c in s.closed)
    && (forall c <- s.handlers ::
          && c in s.seen && !HoldsConn(s.loop, c)
          && (s.handlers[c] in {Serving, Released} || c in s.closed))
    && (forall c :: HoldsConn(s.loop, c) ==> c in s.seen)
  }

  /** From the moment Close lists the connections, each registered one is closed or on its list. */
  predicate Covered(s: State) {
    && (s.refusing <==> !s.closer.NotCalled? && !s.closer.Signalled?)
    && (s.closer.Marked? || s.closer.Closing? ==> s.conns <= s.closer.rest + s.closed)
    && (s.closer.Waiting? || s.closer.Returned? ==> s.conns <= s.closed)
    && (s.closer.Returned? ==> s.wg == 0)
  }

  ghost predicate Inv(s: State) { Slots(s) && Group(s) && Registry(s) && Tracked(s) && Covered(s) }

  /** Where one handler's phase puts its connection. */
  lemma Moved(h: map<conn, Handler>, c: conn, p: Handler)
    ensures var h' := h[c := p];
            && InService(h') == (if p.Serving? then InService(h) + {c} else InService(h) - {c})
            && Live(h') == (if p.Finished? then Live(h) - {c} else Live(h) + {c})
            && Known(h') == (if p.Unlisted? || p.Finished? then Known(h) - {c} else Known(h) + {c})
  {
  }

  lemma Absent(h: map<conn, Handler>, c: conn)
    ensures c !in h ==> c !in InService(h) && c !in Live(h) && c !in Known(h)
  {
  }

  lemma Present(h: map<conn, Handler>, c: conn)
    requires c in h
    ensures (c in InService(h) <==> h[c].Serving?) && (c in Live(h) <==> !h[c].Finished?)
    ensures c in Known(h) <==> h[c].Serving? || h[c].Released? || h[c].Shut?
  {
  }

  lemma NotYetServed(s: State)
    requires Tracked(s) && s.loop.Listed?
    ensures s.loop.c !in s.handlers
  {
  }

  lemma OneMore(a: set<conn>, b: set<conn>, c: conn)
    requires c !in a && b == a + {c}
    ensures |b| == |a| + 1
  {
  }

  /** A connection that gets its handler counts once more everywhere. */
  lemma ServedOnce(h: map<conn, Handler>, c: conn)
    requires c !in h
    ensures var h' := h[c := Serving];
            |InService(h')| == |InService(h)| + 1 && |Live(h')| == |Live(h)| + 1 && Known(h') == Known(h) + {c}
  {
    hide InService, Live, Known;
    Moved(h, c, Serving);
    Absent(h, c);
    OneMore(InService(h), InService(h[c := Serving]), c);
    OneMore(Live(h), Live(h[c := Serving]), c);
  }

  lemma SpawnKeepsCounts(s: State)
    requires Slots(s) && Group(s) && Registry(s) && Tracked(s) && s.loop.Listed?
    ensures var s' := ApplyLoop(s, Spawn); Slots(s') && Group(s') && Registry(s')
  {
    hide InService, Live, Known, Tracked;
    NotYetServed(s);
    ServedOnce(s.handlers, s.loop.c);
  }

  lemma LoopKeepsCounts(s: State, step: Step)
    requires Slots(s) && Group(s) && Registry(s) && Tracked(s) && Enabled(s, step) && OfLoop(step)
    ensures var s' := ApplyLoop(s, step); Slots(s') && Group(s') && Registry(s')
  {
    hide InService, Live, Known, Tracked;
    if step.Spawn? { SpawnKeepsCounts(s); }
  }

  lemma LoopKeepsTracked(s: State, step: Step)
    requires Tracked(s) && Enabled(s, step) && OfLoop(step)
    ensures Tracked(ApplyLoop(s, step))
  {
  }

  lemma LoopKeepsCovered(s: State, step: Step)
    requires Covered(s) && Group(s) && Enabled(s, step) && OfLoop(step)
    ensures Covered(ApplyLoop(s, step))
  {
    hide Live;
  }

  /** A handler that moves on changes the counts by what its own phase contributes. */
  lemma Counted(h: map<conn, Handler>, c: conn, p: Handler)
    requires c in h && !h[c].Finished? && !p.Serving?
    ensures |Live(h[c := p])| == |Live(h)| - Bit(p.Finished?)
    ensures |InService(h[c := p])| == |InService(h)| - Bit(h[c].Serving?)
  {
    hide Live, InService;
    Moved(h, c, p);
    Present(h, c);
    assert Live(h) + {c} == Live(h);
    assert !h[c].Serving? ==> InService(h) - {c} == InService(h);
  }

  lemma HandlerKeepsSlots(s: State, c: conn)
    requires Slots(s) && Enabled(s, Handle(c))
    ensures Slots(ApplyHandler(s, c))
  {
    hide InService;
    Counted(s.handlers, c, ApplyHandler(s, c).handlers[c]);
  }

  lemma HandlerKeepsGroup(s: State, c: conn)
    requires Group(s) && Enabled(s, Handle(c))
    ensures Group(ApplyHandler(s, c))
  {
    hide Live;
    Counted(s.handlers, c, ApplyHandler(s, c).handlers[c]);
  }

  lemma HandlerKeepsRegistry(s: State, c: conn)
    requires Registry(s) && Tracked(s) && Enabled(s, Handle(c))
    ensures Registry(ApplyHandler(s, c))
  {
    hide Known;
    assert !HoldsConn(s.loop, c);
    Moved(s.handlers, c, ApplyHandler(s, c).handlers[c]);
    Present(s.handlers, c);
  }

  lemma HandlerKeepsTracked(s: State, c: conn)
    requires Tracked(s) && Enabled(s, Handle(c))
    ensures Tracked(ApplyHandler(s, c))
  {
    hide HoldsConn;
  }

  lemma HandlerKeepsCovered(s: State, c: conn)
    requires Covered(s) && Enabled(s, Handle(c))
    ensures Covered(ApplyHandler(s, c))
  {
  }

  lemma CloseKeepsTracked(s: State, step: Step)
    requires Tracked(s) && Enabled(s, step) && !OfLoop(step) && !step.Handle?
    ensures Tracked(ApplyClose(s, step))
  {
    hide HoldsConn;
  }

  lemma CloseKeepsInv(s: State, step: Step)
    requires Inv(s) && Enabled(s, step) && !OfLoop(step) && !step.Handle?
    ensures Inv(ApplyClose(s, step))
  {
    hide InService, Live, Known, Tracked, HoldsSlot;
    CloseKeepsTracked(s, step);
  }

  lemma StepKeepsInv(s: State, step: Step)
    requires Inv(s) && Enabled(s, step)
    ensures Inv(Apply(s, step))
  {
    hide Slots, Group, Registry, Tracked, Covered;
    if OfLoop(step) {
      LoopKeepsCounts(s, step);
      LoopKeepsTracked(s, step);
      LoopKeepsCovered(s, step);
    } else if step.Handle? {
      HandlerKeepsSlots(s, step.c);
      HandlerKeepsGroup(s, step.c);
      HandlerKeepsRegistry(s, step.c);
      HandlerKeepsTracked(s, step.c);
      HandlerKeepsCovered(s, step.c);
    } else {
      CloseKeepsInv(s, step);
    }
  }

  lemma {:induction false} RunKeepsInv(s: State, steps: seq<Step>)
    requires Inv(s) && Runs(s, steps)
    ensures Inv(Reached(s, steps)) && Reached(s, steps).max == s.max
    decreases |steps|
  {
    hide Inv;
    if steps != [] {
      StepKeepsInv(s, steps[0]);
      RunKeepsInv(Apply(s, steps[0]), steps[1..]);
    }
  }

  lemma StartIsOk(max: Option<nat>)
    ensures Inv(Start(max))
  {
  }

  /** At every point of every run at most MaxClients handlers serve a connection. */
  lemma ClientsAreBounded(max: nat, steps: seq<Step>)
    requires Runs(Start(Some(max)), steps)
    ensures |InService(Reached(Start(Some(max)), steps).handlers)| <= max
  {
    StartIsOk(Some(max));
    RunKeepsInv(Start(Some(max)), steps);
  }

  /** The slots are for nothing else: wherever a run has an accepted connection in hand, it is let
      in exactly while fewer than MaxClients handlers serve, and always when MaxClients is 0; one
      that is not let in is closed, and the loop accepts again. */
  lemma SlotsAreGiven(max: Option<nat>, steps: seq<Step>)
    requires Runs(Start(max), steps) && Reached(Start(max), steps).loop.Accepted?
    ensures var s := Reached(Start(max), steps);
            Apply(s, TakeSlot).loop == Admitted(s.loop.c) <==> max.None? || |InService(s.handlers)| < max.value
    ensures var s := Reached(Start(max), steps);
            max.Some? && |InService(s.handlers)| >= max.value ==>
              Apply(s, TakeSlot) == s.(loop := Accepting, closed := s.closed + {s.loop.c})
  {
    hide InService, Runs, Reached;
    StartIsOk(max);
    RunKeepsInv(Start(max), steps);
  }

  /** What handlers and Close do leaves the loop where it is. */
  lemma LoopWaits(s: State, step: Step)
    requires Enabled(s, step) && !OfLoop(step)
    ensures Apply(s, step).loop == s.loop
  {
  }

  /** A connection that was let in is registered unless Close has listed the connections already;
      registered, it is served; refused, it gives its slot back, is closed, and the loop ends. */
  lemma AdmittedIsServed(max: Option<nat>, steps: seq<Step>)
    requires Runs(Start(max), steps) && Reached(Start(max), steps).loop.Admitted?
    ensures var s := Reached(Start(max), steps);
            var c := s.loop.c;
            if s.closer.NotCalled? || s.closer.Signalled? then
              && Runs(s, [Register, Spawn])
              && var s' := Reached(s, [Register, Spawn]);
                 InService(s'.handlers) == InService(s.handlers) + {c} && c in s'.conns && s'.loop == Accepting
            else
              && Runs(s, [Register, Refuse, Drop])
              && var s' := Reached(s, [Register, Refuse, Drop]);
                 && s'.handlers == s.handlers && c in s'.closed && s'.loop == Ending
                 && (max.Some? ==> s'.slots == |InService(s'.handlers)|)
  {
    StartIsOk(max);
    RunKeepsInv(Start(max), steps);
    var s := Reached(Start(max), steps);
    AdmittedIn(s);
    hide Runs, Reached;
    if s.refusing { RefusedRun(s); } else { ServedRun(s); }
  }

  lemma AdmittedIn(s: State)
    requires Inv(s) && s.loop.Admitted?
    ensures s.refusing <==> !s.closer.NotCalled? && !s.closer.Signalled?
    ensures s.max.Some? ==> s.slots == |InService(s.handlers)| + 1
  {
    hide InService, Live, Known;
  }

  lemma ServedRun(s: State)
    requires s.loop.Admitted? && !s.refusing
    ensures Runs(s, [Register, Spawn])
    ensures var s' := Reached(s, [Register, Spawn]);
            InService(s'.handlers) == InService(s.handlers) + {s.loop.c} && s.loop.c in s'.conns && s'.loop == Accepting
  {
    var s1 := Apply(s, Register);
    var s2 := Apply(s1, Spawn);
    assert [Register, Spawn][1..] == [Spawn] && [Spawn][1..] == [];
    assert Runs(s1, [Spawn]) && Reached(s1, [Spawn]) == s2;
    Moved(s.handlers, s.loop.c, Serving);
  }

  lemma RefusedRun(s: State)
    requires s.loop.Admitted? && s.refusing && (s.max.Some? ==> s.slots == |InService(s.handlers)| + 1)
    ensures Runs(s, [Register, Refuse, Drop])
    ensures var s' := Reached(s, [Register, Refuse, Drop]);
            && s'.handlers == s.handlers && s.loop.c in s'.closed && s'.loop == Ending
            && (s.max.Some? ==> s'.slots == |InService(s'.handlers)|)
  {
    hide InService;
    var s1 := Apply(s, Register);
    var s2 := Apply(s1, Refuse);
    var s3 := Apply(s2, Drop);
    assert [Register, Refuse, Drop][1..] == [Refuse, Drop] && [Refuse, Drop][1..] == [Drop] && [Drop][1..] == [];
    assert Runs(s2, [Drop]) && Reached(s2, [Drop]) == s3;
    assert Runs(s1, [Refuse, Drop]) && Reached(s1, [Refuse, Drop]) == s3;
  }

  /** A handler that stops serving gives its slot back, closes the connection, unregisters it and
      leaves the wait group, in that order. */
  lemma HandlerEnds(s: State, c: conn)
    requires c in s.handlers && s.handlers[c].Serving?
    ensures var s1 := ApplyHandler(s, c);
            var s2 := ApplyHandler(s1, c);
            var s3 := ApplyHandler(s2, c);
            var s4 := ApplyHandler(s3, c);
            && (s.max.Some? && s.slots > 0 ==> s1.slots == s.slots - 1) && s1.closed == s.closed
            && s2.closed == s.closed + {c} && s2.conns == s.conns
            && s3.conns == s.conns - {c} && s3.wg == s.wg
            && (s.wg > 0 ==> s4.wg == s.wg - 1) && s4.handlers[c].Finished?
  {
  }

  /** The accept loop outlives temporary errors until Close has signalled, and ends on any other. */
  lemma AcceptErrors(s: State, temporary: bool)
    requires s.loop.Accepting?
    ensures Apply(s, AcceptError(temporary)).loop == if temporary && !s.signalled then Accepting else Ending
    ensures !s.listening ==> forall c :: !Enabled(s, Accept(c))
  {
  }

  /** When Close returns, every connection ever accepted is closed, every handler and the accept
      loop have ended, and the connection set is empty. */
  lemma CloseIsComplete(max: Option<nat>, steps: seq<Step>)
    requires Runs(Start(max), steps) && Reached(Start(max), steps).closer.Returned?
    ensures var s := Reached(Start(max), steps);
            && s.seen <= s.closed && s.conns == {} && s.loop.Ended?
            && forall c <- s.handlers :: s.handlers[c].Finished?
  {
    hide Runs, Reached;
    StartIsOk(max);
    RunKeepsInv(Start(max), steps);
    var s := Reached(Start(max), steps);
    assert Live(s.handlers) == {};
    forall c <- s.handlers ensures s.handlers[c].Finished? { assert c !in Live(s.handlers); }
  }

  /** While Close waits, no handler is left blocked on an open connection. */
  lemma CloseUnblocks(max: Option<nat>, steps: seq<Step>)
    requires Runs(Start(max), steps) && Reached(Start(max), steps).closer.Waiting?
    ensures var s := Reached(Start(max), steps); InService(s.handlers) <= s.closed
  {
    hide Runs, Reached;
    StartIsOk(max);
    RunKeepsInv(Start(max), steps);
    assert InService(Reached(Start(max), steps).handlers) <= Known(Reached(Start(max), steps).handlers);
  }

  // ---------------------------------------------------------------- Close returns

  /** From the signal on everybody can hear that the server closes, and once the listener is
      closed nothing more is accepted. */
  predicate Heard(s: State) {
    && (s.signalled <==> !s.closer.NotCalled?)
    && (s.closer.Closing? || s.closer.Waiting? || s.closer.Returned? ==> !s.listening)
  }

  lemma {:induction false} RunKeepsHeard(s: State, steps: seq<Step>)
    requires Heard(s) && Runs(s, steps)
    ensures Heard(Reached(s, steps))
    decreases |steps|
  {
    if steps != [] { RunKeepsHeard(Apply(s, steps[0]), steps[1..]); }
  }

  /** Connections whose handler has not closed them yet. */
  function Early(h: map<conn, Handler>): set<conn> { set c | c in h && (h[c].Serving? || h[c].Released?) }

  /** Steps the loop can still take once the server is closing; a registered connection is about
      to get a handler with four of its own. */
  function LoopLeft(l: Loop): nat {
    match l
    case Listed(_) => 7
    case Accepted(_) => 6
    case Admitted(_) => 5
    case Refused(_) => 4
    case Dropping(_) => 3
    case Accepting => 2
    case Ending => 1
    case Ended => 0
  }

  /** Four steps are left to a serving handler, one less for each it has taken. */
  function HandlersLeft(h: map<conn, Handler>): nat { |InService(h)| + |Early(h)| + |Known(h)| + |Live(h)| }

  function Left(s: State): nat { HandlersLeft(s.handlers) + LoopLeft(s.loop) }

  lemma MovedEarly(h: map<conn, Handler>, c: conn, p: Handler)
    ensures var h' := h[c := p];
            Early(h') == if p.Serving? || p.Released? then Early(h) + {c} else Early(h) - {c}
  {
  }

  lemma PresentEarly(h: map<conn, Handler>, c: conn)
    requires c in h
    ensures c in Early(h) <==> h[c].Serving? || h[c].Released?
  {
  }

  lemma HandlerShrinks(s: State, c: conn)
    requires Enabled(s, Handle(c))
    ensures Left(ApplyHandler(s, c)) < Left(s)
  {
    hide HandlersLeft;
    var p := ApplyHandler(s, c).handlers[c];
    match s.handlers[c]
    case Serving => NoLonger(s.handlers, c, p, InService(s.handlers));
    case Released => NoLonger(s.handlers, c, p, Early(s.handlers));
    case Shut => NoLonger(s.handlers, c, p, Known(s.handlers));
    case Unlisted => NoLonger(s.handlers, c, p, Live(s.handlers));
  }

  /** The next phase of a handler. */
  function Next(p: Handler): Handler {
    match p
    case Serving => Released
    case Released => Shut
    case Shut => Unlisted
    case Unlisted => Finished
    case Finished => Finished
  }

  lemma NoLonger(h: map<conn, Handler>, c: conn, p: Handler, lost: set<conn>)
    requires c in h && !h[c].Finished? && p == Next(h[c])
    requires lost == match h[c] case Serving => InService(h) case Released => Early(h) case Shut => Known(h)
                                case _ => Live(h)
    ensures HandlersLeft(h[c := p]) < HandlersLeft(h)
  {
    hide InService, Early, Known, Live;
    Moved(h, c, p);
    MovedEarly(h, c, p);
    Present(h, c);
    PresentEarly(h, c);
    Smaller(lost, c);
    forall a: set<conn> ensures |a - {c}| <= |a| { Smaller(a, c); }
    forall a: set<conn> | c in a ensures a + {c} == a {}
  }

  lemma Smaller(a: set<conn>, c: conn)
    ensures c in a ==> a + {c} == a && |a - {c}| == |a| - 1
    ensures c !in a ==> a - {c} == a && |a + {c}| == |a| + 1
  {
    if c in a { assert a + {c} == a; } else { assert a - {c} == a; }
  }

  /** Spawn starts a handler with four steps to go. */
  lemma SpawnAdds(h: map<conn, Handler>, c: conn)
    requires c !in h
    ensures var h' := h[c := Serving];
            && |InService(h')| == |InService(h)| + 1 && |Early(h')| == |Early(h)| + 1
            && |Known(h')| == |Known(h)| + 1 && |Live(h')| == |Live(h)| + 1
  {
    hide InService, Early, Known, Live;
    Moved(h, c, Serving);
    MovedEarly(h, c, Serving);
    Absent(h, c);
    assert c !in Early(h) by { AbsentEarly(h, c); }
    Smaller(InService(h), c);
    Smaller(Early(h), c);
    Smaller(Known(h), c);
    Smaller(Live(h), c);
  }

  lemma AbsentEarly(h: map<conn, Handler>, c: conn)
    ensures c !in h ==> c !in Early(h)
  {
  }

  lemma WaitingLoop(s: State)
    requires Inv(s) && Heard(s) && s.closer.Waiting?
    ensures s.signalled && s.refusing && !s.listening
    ensures s.loop.Listed? ==> s.loop.c !in s.handlers
  {
    if s.loop.Listed? { NotYetServed(s); }
    hide Slots, Group, Registry, Tracked;
  }

  lemma SpawnLeft(h: map<conn, Handler>, c: conn)
    requires c !in h
    ensures HandlersLeft(h[c := Serving]) == HandlersLeft(h) + 4
  {
    hide InService, Early, Known, Live;
    SpawnAdds(h, c);
  }

  lemma LoopShrinks(s: State, step: Step)
    requires Inv(s) && Heard(s) && s.closer.Waiting? && Enabled(s, step) && OfLoop(step)
    ensures Left(ApplyLoop(s, step)) < Left(s)
  {
    hide HandlersLeft, Inv, Heard;
    WaitingLoop(s);
    if step.Spawn? { SpawnLeft(s.handlers, s.loop.c); }
  }

  /** While Close waits, no step of anybody leaves as much to do as before. */
  lemma WaitingShrinks(s: State, step: Step)
    requires Inv(s) && Heard(s) && s.closer.Waiting? && Enabled(s, step) && !step.Return?
    ensures Left(Apply(s, step)) < Left(s) && Apply(s, step).closer.Waiting?
  {
    hide Left, Inv;
    if OfLoop(step) {
      LoopShrinks(s, step);
    } else {
      HandlerShrinks(s, step.c);
    }
  }

  predicate Returns(steps: seq<Step>) { exists i :: 0 <= i < |steps| && steps[i].Return? }

  /** Close returns: from the moment it waits, a run in which it does not return has no more steps
      than were left to take, */
  lemma {:induction false} CloseReturns(s: State, steps: seq<Step>)
    requires Inv(s) && Heard(s) && s.closer.Waiting? && Runs(s, steps) && !Returns(steps)
    ensures |steps| <= Left(s)
    decreases |steps|
  {
    hide Inv, Heard, Left, Apply, Enabled;
    if steps != [] {
      assert !steps[0].Return?;
      WaitingShrinks(s, steps[0]);
      StepKeepsInv(s, steps[0]);
      RunKeepsHeard(s, [steps[0]]) by { OneStep(s, steps[0]); }
      OneStep(s, steps[0]);
      CloseReturns(Apply(s, steps[0]), steps[1..]);
    }
  }

  lemma OneStep(s: State, step: Step)
    requires Enabled(s, step)
    ensures Runs(s, [step]) && Reached(s, [step]) == Apply(s, step)
  {
    assert [step][1..] == [];
  }

  /** and until it returns there is always a step to take: its own return, one of the loop, or one
      of a handler. */
  lemma SomeoneMoves(s: State)
    requires Inv(s) && s.closer.Waiting?
    ensures exists step :: Enabled(s, step)
  {
    if s.wg == 0 {
      assert Enabled(s, Return);
    } else if !s.loop.Ended? {
      LoopMoves(s);
    } else {
      assert Live(s.handlers) != {};
      var c :| c in Live(s.handlers);
      assert Enabled(s, Handle(c));
    }
  }

  /** The accept loop always has a step until it has ended. */
  lemma LoopMoves(s: State)
    requires !s.loop.Ended?
    ensures exists step :: Enabled(s, step) && OfLoop(step)
  {
    var step := match s.loop
      case Accepting => AcceptError(true)
      case Accepted(_) => TakeSlot
      case Admitted(_) => Register
      case Listed(_) => Spawn
      case Refused(_) => Refuse
      case Dropping(_) => Drop
      case _ => EndLoop;
    assert Enabled(s, step) && OfLoop(step);
  }

  /** Every state a server can get to is one the last three speak about. */
  lemma ReachableIsSound(max: Option<nat>, steps: seq<Step>)
    requires Runs(Start(max), steps)
    ensures Inv(Reached(Start(max), steps)) && Heard(Reached(Start(max), steps))
  {
    hide Runs, Reached;
    StartIsOk(max);
    RunKeepsInv(Start(max), steps);
    RunKeepsHeard(Start(max), steps);
  }
}
