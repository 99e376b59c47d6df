/** pushEncodedList of collections.go, one engine call at a time: the LPush and RPush of the core
    and the list push of the HTTP owner. Each call holds collectionMu while it reads the whole
    record, extends it at one end and writes it back. */
module ListConservation {
  import opened Bytes
  import opened Layout
  import opened Engine
  import opened ListCodec

  /** A push on the list record at storage key `sk`; a left push keeps the order of its items. */
  datatype Call = Call(sk: bytes, left: bool, batch: seq<bytes>)

  datatype Phase =
    | Idle
    | Waiting(call: Call)
    | Reading(call: Call)
    | Loaded(call: Call, before: seq<bytes>)
    | Done(call: Call, found: Option<seq<bytes>>, length: Option<nat>)

  /** A returned call: its result (None for an undecodable record), and the list it found and left. */
  datatype Reply = Reply(call: Call, length: Option<nat>, before: Option<seq<bytes>>, after: Option<seq<bytes>>)

  datatype State = State(store: Store, lock: Option<nat>, threads: map<nat, Phase>, replies: seq<Reply>)

  datatype Step = Begin(t: nat, call: Call) | Acquire(t: nat) | Engine(t: nat) | Return(t: nat)

  function PhaseOf(s: State, t: nat): Phase { if t in s.threads then s.threads[t] else Idle }

  predicate Active(p: Phase) { p.Reading? || p.Loaded? || p.Done? }

  /** readList: a missing record is the empty list. */
  function Items(d: Store, sk: bytes): Option<seq<bytes>> { if sk in d then DecodeList(d[sk]) else Some([]) }

  function Extended(call: Call, items: seq<bytes>): seq<bytes> {
    if call.left then call.batch + items else items + call.batch
  }

  predicate Enabled(s: State, step: Step) {
    var p := PhaseOf(s, step.t);
    match step
    case Begin(t, _) => p.Idle?
    case Acquire(t) => p.Waiting? && s.lock.None?
    case Engine(t) => s.lock == Some(t) && (p.Reading? || p.Loaded?)
    case Return(t) => s.lock == Some(t) && p.Done?
  }

  function Turn(d: Store, p: Phase): (Store, Phase)
    requires p.Reading? || p.Loaded?
  {
    if p.Reading? then
      var items := Items(d, p.call.sk);
      (d, if items.Some? then Loaded(p.call, items.value) else Done(p.call, None, None))
    else
      var items := Extended(p.call, p.before);
      (d[p.call.sk := EncodeList(items)], Done(p.call, Some(p.before), Some(|items|)))
  }

  function Apply(s: State, step: Step): State
    requires Enabled(s, step)
  {
    var p := PhaseOf(s, step.t);
    match step
    case Begin(t, call) => s.(threads := s.threads[t := Waiting(call)])
    case Acquire(t) => s.(lock := Some(t), threads := s.threads[t := Reading(p.call)])
    case Engine(t) =>
      var (d, p') := Turn(s.store, p);
      s.(store := d, threads := s.threads[t := p'])
    case Return(t) =>
      s.(lock := None, threads := s.threads[t := Idle],
      replies := s.replies + [Reply(p.call, p.length, p.found, Items(s.store, p.call.sk))])
  }

  predicate Runs(s: State, steps: seq<Step>)
    decreases |steps|
  {
    steps == [] || (Enabled(s, steps[0]) && Runs(Apply(s, steps[0]), steps[1..]))
  }

  function Reached(s: State, steps: seq<Step>): State
    requires Runs(s, steps)
    decreases |steps|
  {
    if steps == [] then s else Reached(Apply(s, steps[0]), steps[1..])
  }

  function Holder(s: State): Phase { if s.lock.Some? then PhaseOf(s, s.lock.value) else Idle }

  /** A call returned the length of the list extended by its own batch, and left that list if
      and only if the record's 32-bit counts can hold it; or it failed and changed nothing. */
  predicate ReplyOk(r: Reply) {
    if r.before.None? then r.after.None? && r.length.None?
    else
      var items := Extended(r.call, r.before.value);
      r.length == Some(|items|) && (r.after == Some(items) <==> Encodable(items))
  }

  /** The list at `sk` as the last returned call on it left it. */
  function End(sk: bytes, start: Option<seq<bytes>>, replies: seq<Reply>): Option<seq<bytes>> {
    if replies == [] then start
    else if replies[|replies| - 1].call.sk == sk then replies[|replies| - 1].after
    else End(sk, start, replies[..|replies| - 1])
  }

  predicate Serial(sk: bytes, start: Option<seq<bytes>>, replies: seq<Reply>) {
    if replies == [] then true
    else
      var init, r := replies[..|replies| - 1], replies[|replies| - 1];
      Serial(sk, start, init) && (r.call.sk == sk ==> ReplyOk(r) && r.before == End(sk, start, init))
  }

  /** Batches pushed on the left at `sk`, the latest first. */
  function Lefts(sk: bytes, replies: seq<Reply>): seq<bytes> {
    if replies == [] then []
    else
      var rest, call := Lefts(sk, replies[..|replies| - 1]), replies[|replies| - 1].call;
      if call.sk == sk && call.left then call.batch + rest else rest
  }

  /** Batches pushed on the right at `sk`, in order. */
  function Rights(sk: bytes, replies: seq<Reply>): seq<bytes> {
    if replies == [] then []
    else
      var rest, call := Rights(sk, replies[..|replies| - 1]), replies[|replies| - 1].call;
      if call.sk == sk && !call.left then rest + call.batch else rest
  }

  /** The list a history should leave: the batches around the initial items, in order. */
  function Shape(sk: bytes, start: seq<bytes>, replies: seq<Reply>): seq<bytes> {
    Lefts(sk, replies) + start + Rights(sk, replies)
  }

  lemma EncodableParts(a: seq<bytes>, b: seq<bytes>)
    requires Encodable(a + b)
    ensures Encodable(a) && Encodable(b)
  {
    assert forall i :: 0 <= i < |a| ==> a[i] == (a + b)[i];
    assert forall i :: 0 <= i < |b| ==> b[i] == (a + b)[|a| + i];
  }

  lemma ShapeStep(sk: bytes, start: seq<bytes>, replies: seq<Reply>)
    requires replies != []
    ensures var init, call := replies[..|replies| - 1], replies[|replies| - 1].call;
            Shape(sk, start, replies) == if call.sk == sk then Extended(call, Shape(sk, start, init))
                else Shape(sk, start, init)
  {
    var init, call := replies[..|replies| - 1], replies[|replies| - 1].call;
    var l, r := Lefts(sk, init), Rights(sk, init);
    assert call.batch + (l + start + r) == call.batch + l + start + r;
    assert l + start + r + call.batch == l + start + (r + call.batch);
  }

  /** A serial history keeps every item, as long as the last list fits its 32-bit counts. */
  lemma {:induction false} SerialShape(sk: bytes, start: seq<bytes>, replies: seq<Reply>)
    requires Serial(sk, Some(start), replies) && Encodable(Shape(sk, start, replies))
    ensures End(sk, Some(start), replies) == Some(Shape(sk, start, replies))
    decreases |replies|
  {
    hide Encodable;
    if replies == [] {
      assert start == [] + start + [];
    } else {
      var init, call := replies[..|replies| - 1], replies[|replies| - 1].call;
      ShapeStep(sk, start, replies);
      hide Shape;
      if call.sk == sk {
        if call.left {
          EncodableParts(call.batch, Shape(sk, start, init));
        } else {
          EncodableParts(Shape(sk, start, init), call.batch);
        }
      }
      SerialShape(sk, start, init);
    }
  }

  predicate Segment(items: seq<bytes>, offset: nat, batch: seq<bytes>) {
    offset + |batch| <= |items| && items[offset..offset + |batch|] == batch
  }

  /** Every batch stays together, in its argument order. */
  lemma {:induction false} BatchIsContiguous(sk: bytes, replies: seq<Reply>, j: nat) returns (offset: nat)
    requires j < |replies| && replies[j].call.sk == sk
    ensures Segment(if replies[j].call.left then Lefts(sk, replies)
        else Rights(sk, replies), offset, replies[j].call.batch)
    decreases |replies|
  {
    var init, last, own := replies[..|replies| - 1], replies[|replies| - 1].call, replies[j].call;
    if j == |replies| - 1 {
      offset := if own.left then 0 else |Rights(sk, init)|;
    } else {
      offset := BatchIsContiguous(sk, init, j);
      var was := if own.left then Lefts(sk, init) else Rights(sk, init);
      var shifted := last.sk == sk && last.left && own.left;
      SegmentGrows(was, offset, own.batch, if shifted then last.batch else [], last.batch);
      if shifted { offset := |last.batch| + offset; }
    }
  }

  lemma SegmentGrows(items: seq<bytes>, offset: nat, batch: seq<bytes>, head: seq<bytes>, tail: seq<bytes>)
    requires Segment(items, offset, batch)
    ensures Segment(head + items, |head| + offset, batch) && Segment(items + tail, offset, batch)
  {
    assert (head + items)[|head| + offset..|head| + offset + |batch|] == items[offset..offset + |batch|];
    assert (items + tail)[offset..offset + |batch|] == items[offset..offset + |batch|];
  }

  /** What the lock holder relies on; a call that is done has its reply decided. */
  predicate PhaseOk(d: Store, p: Phase) {
    match p
    case Loaded(call, before) => Items(d, call.sk) == Some(before)
    case Done(call, before, length) => ReplyOk(Reply(call, length, before, Items(d, call.sk)))
    case _ => true
  }

  /** The list the next returned call on `sk` will have started from. */
  function Current(d: Store, p: Phase, sk: bytes): Option<seq<bytes>> {
    if p.Done? && p.call.sk == sk then p.found else Items(d, sk)
  }

  predicate History(s: State, d0: Store, sk: bytes) {
    && Serial(sk, Items(d0, sk), s.replies)
    && End(sk, Items(d0, sk), s.replies) == Current(s.store, Holder(s), sk)
  }

  ghost predicate Inv(s: State, d0: Store) {
    && (forall t <- s.threads :: Active(s.threads[t]) ==> s.lock == Some(t))
    && (s.lock.Some? ==> Active(Holder(s)))
    && PhaseOk(s.store, Holder(s))
    && forall sk :: History(s, d0, sk)
  }

  lemma TurnIsSound(d: Store, p: Phase, sk: bytes)
    requires PhaseOk(d, p) && (p.Reading? || p.Loaded?)
    ensures PhaseOk(Turn(d, p).0, Turn(d, p).1)
    ensures Current(Turn(d, p).0, Turn(d, p).1, sk) == Current(d, p, sk)
  {
    hide Encodable, DecodeList, EncodeList;
    if p.Loaded? { ListRoundTrip(Extended(p.call, p.before)); }
  }

  lemma EngineKeepsInv(s: State, d0: Store, t: nat)
    requires Inv(s, d0) && Enabled(s, Engine(t))
    ensures Inv(Apply(s, Engine(t)), d0)
  {
    hide PhaseOk, Current, Items, Serial, End, Encodable;
    var s' := Apply(s, Engine(t));
    TurnIsSound(s.store, PhaseOf(s, t), []);
    forall sk ensures History(s', d0, sk) {
      assert History(s, d0, sk);
      TurnIsSound(s.store, PhaseOf(s, t), sk);
    }
  }

  lemma AppendHistory(sk: bytes, start: Option<seq<bytes>>, replies: seq<Reply>, r: Reply)
    requires Serial(sk, start, replies)
    requires r.call.sk == sk ==> ReplyOk(r) && r.before == End(sk, start, replies)
    ensures Serial(sk, start, replies + [r])
    ensures End(sk, start, replies + [r]) == if r.call.sk == sk then r.after else End(sk, start, replies)
  {
    assert (replies + [r])[..|replies|] == replies;
  }

  lemma ReturnKeepsInv(s: State, d0: Store, t: nat)
    requires Inv(s, d0) && Enabled(s, Return(t))
    ensures Inv(Apply(s, Return(t)), d0)
  {
    hide Items, Serial, End, ReplyOk;
    var p := PhaseOf(s, t);
    var s' := Apply(s, Return(t));
    forall sk ensures History(s', d0, sk) {
      assert History(s, d0, sk);
      AppendHistory(sk, Items(d0, sk), s.replies, Reply(p.call, p.length, p.found, Items(s.store, p.call.sk)));
    }
  }

  lemma StepKeepsInv(s: State, d0: Store, step: Step)
    requires Inv(s, d0) && Enabled(s, step)
    ensures Inv(Apply(s, step), d0)
  {
    if step.Engine? {
      EngineKeepsInv(s, d0, step.t);
    } else if step.Return? {
      ReturnKeepsInv(s, d0, step.t);
    } else {
      hide Items, Serial, End;
      var s' := Apply(s, step);
      forall sk ensures History(s', d0, sk) { assert History(s, d0, sk); }
    }
  }

  lemma {:induction false} RunKeepsInv(s: State, d0: Store, steps: seq<Step>)
    requires Inv(s, d0) && Runs(s, steps)
    ensures Inv(Reached(s, steps), d0)
    decreases |steps|
  {
    hide Inv, Apply, Enabled;
    if steps != [] {
      StepKeepsInv(s, d0, steps[0]);
      RunKeepsInv(Apply(s, steps[0]), d0, steps[1..]);
    }
  }

  function Start(d0: Store): State { State(d0, None, map[], []) }

  lemma StartIsOk(d0: Store)
    ensures Inv(Start(d0), d0)
  {
  }

  lemma ItemsAreEncodable(d: Store, sk: bytes)
    ensures Items(d, sk).Some? ==> Encodable(Items(d, sk).value)
  {
  }

  /** Concurrent pushes conserve: in every interleaving the returned calls on a record form a
      serial history, and once no call is in progress the record holds the initial items with
      every left batch before them, the latest first, and every right batch after them, in
      order, if and only if that list fits the record's 32-bit counts. */
  lemma PushesConserve(d0: Store, steps: seq<Step>, sk: bytes)
    requires Runs(Start(d0), steps) && Items(d0, sk).Some?
    ensures var s := Reached(Start(d0), steps);
            && Serial(sk, Items(d0, sk), s.replies)
            && var items := Shape(sk, Items(d0, sk).value, s.replies);
               s.lock.None? ==> (Items(s.store, sk) == Some(items) <==> Encodable(items))
  {
    hide Items, Serial, End, Runs, Reached, Shape, Encodable;
    RunKeepsInv(Start(d0), d0, steps) by { StartIsOk(d0); }
    var s := Reached(Start(d0), steps);
    assert History(s, d0, sk);
    var items := Shape(sk, Items(d0, sk).value, s.replies);
    if Encodable(items) { SerialShape(sk, Items(d0, sk).value, s.replies); }
    ItemsAreEncodable(s.store, sk);
  }

  /** pushEncodedList alone: the whole record is read, extended at one end and written back; an
      undecodable record fails the call and stays as it is. */
  method Push(engine: MemoryEngine, call: Call) returns (length: Option<nat>)
    modifies engine
    ensures ReplyOk(Reply(call, length, old(Items(engine.data, call.sk)), Items(engine.data, call.sk)))
    ensures forall sk :: sk != call.sk ==> Agree(old(engine.data), engine.data, sk)
  {
    hide Encodable, DecodeList, EncodeList;
    var data := engine.Get(call.sk);
    var decoded := if data.None? then Some([]) else DecodeList(data.value);
    if decoded.None? { return None; }
    var items := if call.left then call.batch + decoded.value else decoded.value + call.batch;
    ListRoundTrip(items);
    engine.Put(call.sk, EncodeList(items));
    return Some(|items|);
  }

  // ---------------------------------------------------------------- progress

  lemma NobodyIsStuck(s: State, d0: Store, t: nat)
    requires Inv(s, d0)
    ensures s.lock == Some(t) ==> Enabled(s, Engine(t)) || Enabled(s, Return(t))
    ensures s.lock.None? && PhaseOf(s, t).Waiting? ==> Enabled(s, Acquire(t))
    ensures PhaseOf(s, t).Idle? ==> forall call :: Enabled(s, Begin(t, call))
  {
    hide Items, Serial, End, PhaseOk;
  }

  /** A read, then a write unless the record does not decode: then the call returns. */
  lemma CallsAdvance(d: Store, p: Phase)
    requires p.Reading? || p.Loaded?
    ensures var p' := Turn(d, p).1;
            && (p.Reading? ==> if Items(d, p.call.sk).Some? then p'.Loaded? else p'.Done?)
            && (p.Loaded? ==> p'.Done?)
  {
  }
}
