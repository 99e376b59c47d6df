/** Physical compaction (RecordExpired in backend.go, the RocksDB filter): a driver may drop any
    record the hook calls expired, at any time, without asking. The hook reads every record as
    an envelope, also those that are none: set members, lists and collection deadlines. */
module Compaction {
  import opened Bytes
  import opened Keys
  import opened Envelope
  import opened Layout
  import opened Keyspace
  import opened RedisStorage
  import opened Effects
  import opened View
  import opened Resp
  import HashCommands
  import ListCodec
  import S = CommandSpec
  import P = Probe

  const MAGIC_COUNT: nat := 0x4B56_4C31

  /** What the driver keeps when it drops the expired records among `chosen`. */
  function Compact(d: Store, chosen: set<bytes>, now: int): Store {
    map sk <- d | !(sk in chosen && EnvelopeExpired(d[sk], now)) :: d[sk]
  }

  /** Nothing changes but that chosen envelopes go whose deadline is positive and not ahead. */
  lemma CompactLaw(d: Store, chosen: set<bytes>, now: int, sk: bytes)
    requires sk in d
    ensures var e := Unmarshal(d[sk]);
            sk !in Compact(d, chosen, now) <==> sk in chosen && e.Some? && 0 < e.value.expiresAt <= now
    ensures sk in Compact(d, chosen, now) ==> Compact(d, chosen, now)[sk] == d[sk]
    ensures Compact(d, chosen, now).Keys <= d.Keys
  {
  }

  // ---------------------------------------------------------------- core reads over whole runs

  /** Records read for what they are, without a look at any deadline: sets, lists, deadlines. */
  predicate Raw(sk: bytes) {
    |sk| > 0 && (sk[0] == KIND_SET || sk[0] == KIND_LIST || sk[0] == KIND_TTL)
  }

  /** The hook will call this record expired once the clock gets there. */
  predicate Fires(data: bytes) {
    Unmarshal(data).Some? && Unmarshal(data).value.expiresAt > 0
  }

  /** The reads of the core: one envelope (Get, Has, HGet), one raw record (SContains, LRange),
      the envelopes below a prefix (HGetAll) and the raw records below one (SMembers). */
  datatype Op =
    | Put(sk: bytes, data: bytes)
    | Delete(sk: bytes)
    | Read(sk: bytes)
    | ReadRaw(sk: bytes)
    | Scan(prefix: bytes)
    | ScanRaw(prefix: bytes)
    | Compacted(chosen: set<bytes>)

  datatype Seen = One(record: Option<bytes>) | Many(records: Store)

  datatype Timed = Timed(time: int, op: Op)

  /** Each read is used on its own kind of record, and no raw record is written that fires. */
  predicate Legal(op: Op) {
    match op
    case Put(sk, data) => Raw(sk) ==> !Fires(data)
    case Read(sk) => !Raw(sk)
    case ReadRaw(sk) => Raw(sk)
    case Scan(prefix) => |prefix| > 0 && !Raw(prefix)
    case ScanRaw(prefix) => Raw(prefix)
    case _ => true
  }

  predicate LegalRun(start: int, ops: seq<Timed>)
    decreases |ops|
  {
    ops == [] || (start <= ops[0].time && Legal(ops[0].op) && LegalRun(ops[0].time, ops[1..]))
  }

  function Live(d: Store, prefix: bytes, now: int): Store {
    map sk <- d | prefix <= sk && !EnvelopeExpired(d[sk], now) :: d[sk]
  }

  function Below(d: Store, prefix: bytes): Store {
    map sk <- d | prefix <= sk :: d[sk]
  }

  /** Envelope reads delete what they find expired. */
  function Apply(d: Store, now: int, op: Op): Store {
    match op
    case Put(sk, data) => d[sk := data]
    case Delete(sk) => d - {sk}
    case Read(sk) => if sk in d && EnvelopeExpired(d[sk], now) then d - {sk} else d
    case Scan(prefix) => map sk <- d | !(prefix <= sk && EnvelopeExpired(d[sk], now)) :: d[sk]
    case Compacted(chosen) => Compact(d, chosen, now)
    case _ => d
  }

  function Answer(d: Store, now: int, op: Op): seq<Seen> {
    match op
    case Read(sk) => [One(if sk in d && !EnvelopeExpired(d[sk], now) then Some(d[sk]) else None)]
    case ReadRaw(sk) => [One(if sk in d then Some(d[sk]) else None)]
    case Scan(prefix) => [Many(Live(d, prefix, now))]
    case ScanRaw(prefix) => [Many(Below(d, prefix))]
    case _ => []
  }

  function Reads(d: Store, ops: seq<Timed>): seq<Seen>
    decreases |ops|
  {
    if ops == [] then []
    else Answer(d, ops[0].time, ops[0].op) + Reads(Apply(d, ops[0].time, ops[0].op), ops[1..])
  }

  function WithoutCompaction(ops: seq<Timed>): seq<Timed> {
    if ops == [] then []
    else if ops[0].op.Compacted? then WithoutCompaction(ops[1..])
    else [ops[0]] + WithoutCompaction(ops[1..])
  }

  /** No raw record of the store fires, now or later. */
  predicate Quiet(d: Store) {
    forall sk <- d :: Raw(sk) ==> !Fires(d[sk])
  }

  /** What reads can see: raw records, and envelopes that have not expired. */
  function Visible(d: Store, now: int): Store {
    map sk <- d | Raw(sk) || !EnvelopeExpired(d[sk], now) :: d[sk]
  }

  lemma StaysExpired(data: bytes, now: int, t: int)
    requires EnvelopeExpired(data, now) && now <= t
    ensures EnvelopeExpired(data, t)
  {
  }

  lemma StillVisible(d: Store, d': Store, now: int, t: int, sk: bytes)
    requires Visible(d, now) == Visible(d', now) && now <= t && sk in Visible(d, t)
    ensures sk in Visible(d', t) && Visible(d', t)[sk] == Visible(d, t)[sk]
  {
    hide EnvelopeExpired, Raw;
    if EnvelopeExpired(d[sk], now) { StaysExpired(d[sk], now, t); }
    assert sk in Visible(d, now);
    assert sk in Visible(d', now);
  }

  lemma VisibleLater(d: Store, d': Store, now: int, t: int)
    requires Visible(d, now) == Visible(d', now) && now <= t
    ensures Visible(d, t) == Visible(d', t)
  {
    hide Visible;
    forall sk | sk in Visible(d, t) ensures sk in Visible(d', t) && Visible(d', t)[sk] == Visible(d, t)[sk] {
      StillVisible(d, d', now, t, sk);
    }
    forall sk | sk in Visible(d', t) ensures sk in Visible(d, t) {
      StillVisible(d', d, now, t, sk);
    }
  }

  /** What an operation does to what can be seen. */
  function ApplyVisible(v: Store, now: int, op: Op): Store {
    match op
    case Put(sk, data) => if !Raw(sk) && EnvelopeExpired(data, now) then v - {sk} else v[sk := data]
    case Delete(sk) => v - {sk}
    case _ => v
  }

  lemma QuietIsNotExpired(d: Store, now: int)
    requires Quiet(d)
    ensures forall sk <- d :: Raw(sk) ==> !EnvelopeExpired(d[sk], now)
  {
  }

  lemma RawBelow(prefix: bytes, sk: bytes)
    requires |prefix| > 0 && prefix <= sk
    ensures Raw(sk) == Raw(prefix)
  {
  }

  lemma ScanIsVisible(d: Store, now: int, prefix: bytes)
    requires |prefix| > 0 && !Raw(prefix)
    ensures Visible(Apply(d, now, Scan(prefix)), now) == Visible(d, now)
  {
    hide EnvelopeExpired, Raw;
    forall sk | sk in d && prefix <= sk ensures !Raw(sk) { RawBelow(prefix, sk); }
  }

  lemma ApplyIsVisible(d: Store, now: int, op: Op)
    requires Quiet(d) && Legal(op)
    ensures Visible(Apply(d, now, op), now) == ApplyVisible(Visible(d, now), now, op)
  {
    QuietIsNotExpired(d, now);
    hide EnvelopeExpired, Raw, Fires;
    if op.Scan? { ScanIsVisible(d, now, op.prefix); }
  }

  lemma ApplyKeepsQuiet(d: Store, now: int, op: Op)
    requires Quiet(d) && Legal(op)
    ensures Quiet(Apply(d, now, op))
  {
    hide EnvelopeExpired, Raw, Fires;
  }

  /** Every read is a function of what can be seen. */
  function AnswerVisible(v: Store, op: Op): seq<Seen> {
    match op
    case Read(sk) => [One(if sk in v then Some(v[sk]) else None)]
    case ReadRaw(sk) => [One(if sk in v then Some(v[sk]) else None)]
    case Scan(prefix) => [Many(Below(v, prefix))]
    case ScanRaw(prefix) => [Many(Below(v, prefix))]
    case _ => []
  }

  lemma AnswerIsVisible(d: Store, now: int, op: Op)
    requires Legal(op)
    ensures Answer(d, now, op) == AnswerVisible(Visible(d, now), op)
  {
    hide EnvelopeExpired, Raw;
    if op.Scan? || op.ScanRaw? {
      forall sk | sk in d && op.prefix <= sk ensures Raw(sk) == Raw(op.prefix) {
        assert |op.prefix| > 0 by { NotEmpty(op); }
        RawBelow(op.prefix, sk);
      }
      assert op.Scan? ==> Live(d, op.prefix, now) == Below(Visible(d, now), op.prefix);
      assert op.ScanRaw? ==> Below(d, op.prefix) == Below(Visible(d, now), op.prefix);
    }
  }

  lemma NotEmpty(op: Op)
    requires Legal(op) && (op.Scan? || op.ScanRaw?)
    ensures |op.prefix| > 0
  {
  }

  lemma {:induction false} QuietRuns(d: Store, d': Store, start: int, ops: seq<Timed>)
    requires LegalRun(start, ops) && Quiet(d) && Quiet(d') && Visible(d, start) == Visible(d', start)
    ensures Reads(d, ops) == Reads(d', WithoutCompaction(ops))
    decreases |ops|
  {
    hide Visible, Apply, Quiet, Legal, Answer;
    if ops != [] {
      var now, op := ops[0].time, ops[0].op;
      VisibleLater(d, d', start, now);
      ApplyIsVisible(d, now, op);
      ApplyKeepsQuiet(d, now, op);
      AnswerIsVisible(d, now, op);
      if op.Compacted? {
        QuietRuns(Apply(d, now, op), d', now, ops[1..]);
      } else {
        ApplyIsVisible(d', now, op);
        ApplyKeepsQuiet(d', now, op);
        AnswerIsVisible(d', now, op);
        QuietRuns(Apply(d, now, op), Apply(d', now, op), now, ops[1..]);
        assert ([ops[0]] + WithoutCompaction(ops[1..]))[1..] == WithoutCompaction(ops[1..]);
      }
    }
  }

  /** The reads of a run are the same with its compactions left out. */
  predicate Undisturbed(d: Store, ops: seq<Timed>) {
    Reads(d, ops) == Reads(d, WithoutCompaction(ops))
  }

  /** Compaction is invisible to every run of core reads and writes on a clock that never goes
      back if and only if no raw record of the store fires: an expired envelope is missing
      whether or not it has been dropped, and a raw record is only safe from being dropped. */
  lemma CompactionIsInvisible(d: Store, start: int)
    ensures Quiet(d) <==> forall ops :: LegalRun(start, ops) ==> Undisturbed(d, ops)
  {
    if Quiet(d) {
      forall ops | LegalRun(start, ops) ensures Undisturbed(d, ops) { QuietRuns(d, d, start, ops); }
    } else {
      var sk :| sk in d && Raw(sk) && Fires(d[sk]);
      var ops := DroppedRecordShows(d, start, sk);
    }
  }

  /** A raw record that fires is read before it is dropped and not after. */
  lemma DroppedRecordShows(d: Store, start: int, sk: bytes) returns (ops: seq<Timed>)
    requires sk in d && Raw(sk) && Fires(d[sk])
    ensures LegalRun(start, ops) && !Undisturbed(d, ops)
  {
    var deadline := Unmarshal(d[sk]).value.expiresAt;
    var t := if start < deadline then deadline else start;
    var drop, read := Timed(t, Compacted({sk})), Timed(t, ReadRaw(sk));
    ops := [drop, read];
    assert ops[1..] == [read] && [read][1..] == [];
    assert WithoutCompaction([read]) == [read];
    var d' := Compact(d, {sk}, t);
    assert Reads(d', [read]) == [One(None)] + Reads(d', []);
    assert Reads(d, [read]) == [One(Some(d[sk]))] + Reads(d, []);
    assert Reads(d, ops) == Answer(d, t, drop.op) + Reads(d', [read]);
    assert Reads(d, ops)[0] == One(None) && Reads(d, [read])[0] != One(None);
  }

  // ---------------------------------------------------------------- which records fire

  /** The hook never fires on a set member, a collection deadline, or a list whose item count
      is not the four magic bytes. */
  lemma HookSparesCollections(data: bytes)
    ensures |data| < HEADER_SIZE ==> !Fires(data)
    ensures ListCodec.DecodeList(data).Some? && FromWord32(data[..4]) != MAGIC_COUNT ==> !Fires(data)
  {
    if |data| >= 4 && data[..4] == MAGIC {
      MagicIsACount();
    }
  }

  lemma MagicIsACount()
    ensures FromWord32(MAGIC) == MAGIC_COUNT
  {
    assert MAGIC == [0x4B, 0x56, 0x4C, 0x31];
    assert MAGIC[..3][..2][..1] == [0x4B];
    assert FromBigEndian(MAGIC[..3][..2][..1]) == 0x4B;
    assert FromBigEndian(MAGIC[..3][..2]) == 0x4B56;
    assert FromBigEndian(MAGIC[..3]) == 0x4B_564C;
  }

  /** So a store of the commands is quiet unless one of its lists has exactly that many items. */
  lemma CollectionsAreQuiet(d: Store)
    requires WellFormed(d) && Plain(d)
    requires forall sk <- d :: |sk| > 0 && sk[0] == KIND_LIST ==> FromListCount(d[sk]) != MAGIC_COUNT
    ensures Quiet(d)
  {
    forall sk <- d | Raw(sk) ensures !Fires(d[sk]) {
      assert RecordOk(sk, d[sk]) && PlainRecord(sk, d[sk]);
      HookSparesCollections(d[sk]);
    }
  }

  function FromListCount(data: bytes): nat { if |data| < 4 then 0 else FromWord32(data[..4]) }

  lemma FromEight(high: bytes)
    requires |high| == 4
    ensures FromBigEndian(high + MAGIC) == FromBigEndian(high) * TWO32 + MAGIC_COUNT
  {
    var p5, p6, p7 := high + [0x4B], high + [0x4B, 0x56], high + [0x4B, 0x56, 0x4C];
    assert MAGIC == [0x4B, 0x56, 0x4C, 0x31];
    assert p5[..4] == high && p6[..5] == p5 && p7[..6] == p6 && (high + MAGIC)[..7] == p7;
    assert FromBigEndian(p5) == FromBigEndian(high) * 256 + 0x4B;
    assert FromBigEndian(p6) == FromBigEndian(p5) * 256 + 0x56;
    assert FromBigEndian(p7) == FromBigEndian(p6) * 256 + 0x4C;
  }

  lemma {:induction false} ZeroBytes(w: nat)
    ensures |BigEndian(0, w)| == w && forall i :: 0 <= i < w ==> BigEndian(0, w)[i] == 0
  {
    if w > 0 { ZeroBytes(w - 1); }
  }

  /** The front of a list record: its count, the length of its first item, and that item. */
  lemma ListFront(items: seq<bytes>)
    requires items != [] && Unmarshal(items[0]).Some? && Unmarshal(items[0]).value.expiresAt == 0
    ensures var data := ListCodec.EncodeList(items);
            && |data| >= 8 + HEADER_SIZE
            && data[..4] == Word32(|items|) && data[4..12] == Word32(|items[0]|) + MAGIC
            && FromBigEndian(data[12..14]) == 0
  {
    var data, first := ListCodec.EncodeList(items), items[0];
    assert data == Word32(|items|) + (Word32(|first|) + first + ListCodec.EncodeItems(items[1..]));
    assert data[4..8] == Word32(|first|) && data[8..12] == first[..4] == MAGIC;
    assert data[4..12] == data[4..8] + data[8..12];
    FromWord64RoundTrip(first[4..12]);
    ZeroBytes(8);
    assert data[12] == first[4] == first[4..12][0] && data[13] == first[5] == first[4..12][1];
    assert data[12..14] == [0, 0] && [0, 0][..1] == [0];
    assert FromBigEndian(data[12..14][..1]) == 0;
  }

  /** Exactly which lists the hook takes for envelopes: those of 1263946801 items whose first
      item is under 2^31 bytes. Their deadline is read off the first item's length. */
  lemma ListFires(items: seq<bytes>)
    requires ListCodec.Encodable(items) && items != []
    requires Unmarshal(items[0]).Some? && Unmarshal(items[0]).value.expiresAt == 0
    ensures Fires(ListCodec.EncodeList(items)) <==> |items| == MAGIC_COUNT && |items[0]| < TWO32 / 2
  {
    var data := ListCodec.EncodeList(items);
    ListFront(items);
    MagicIsACount();
    Word32RoundTrip(|items|);
    FromWord32RoundTrip(MAGIC);
    Word32RoundTrip(|items[0]|);
    FromEight(Word32(|items[0]|));
    hide ListCodec.EncodeList;
  }

  /** Such a list: the smallest envelope, 1263946801 times. */
  lemma MagicListIsPossible() returns (items: seq<bytes>)
    ensures ListCodec.Encodable(items) && P.ItemsOk(items) && Fires(ListCodec.EncodeList(items))
  {
    var e := Env(0, [], []);
    var data := Marshal(e).value;
    MarshalRoundTrip(e);
    items := seq(MAGIC_COUNT, _ => data);
    hide Marshal, Unmarshal, ListCodec.EncodeList;
    ListFires(items);
  }

  // ---------------------------------------------------------------- the typed keyspace

  /** The hook is false on the raw records it is shown. */
  predicate Spared(d: Store, chosen: set<bytes>, now: int) {
    forall sk <- d :: sk in chosen && Raw(sk) ==> !EnvelopeExpired(d[sk], now)
  }

  predicate Drops(chosen: set<bytes>, sk: bytes, e: Env, now: int) { sk in chosen && Expired(e, now) }

  /** The records of one key after a compaction: an expired value and expired fields may be gone. */
  function Rest(b: Bundle, k: key, chosen: set<bytes>, now: int): Bundle {
    b.(value := if b.value.Some? && Drops(chosen, ValueKey(k), b.value.value, now) then None else b.value,
    fields := map f <- b.fields | !Drops(chosen, HashKey(k, f), b.fields[f], now) :: b.fields[f])
  }

  lemma HookOnEnvelope(d: Store, sk: bytes, now: int)
    requires WellFormed(d) && sk in d && |sk| > 0 && (sk[0] == KIND_VALUE || sk[0] == KIND_HASH) && LogicalKey(sk).Some?
    ensures EnvelopeExpired(d[sk], now) <==> Expired(ToEnv(d[sk]), now)
  {
    assert RecordOk(sk, d[sk]);
  }

  lemma CompactedFields(d: Store, chosen: set<bytes>, now: int, k: key)
    requires WellFormed(d)
    ensures At(Compact(d, chosen, now), k).fields == Rest(At(d, k), k, chosen, now).fields
  {
    hide WellFormed, EnvelopeExpired, Expired;
    var d', prefix := Compact(d, chosen, now), HashPrefix(k);
    var after, rest := FieldMap(d', prefix), Rest(At(d, k), k, chosen, now).fields;
    forall f ensures f in after <==> f in rest {
      if prefix + f in d {
        NamespacedLogicalKey(KIND_HASH, k, f);
        HookOnEnvelope(d, prefix + f, now);
      }
    }
  }

  lemma CompactedValue(d: Store, chosen: set<bytes>, now: int, k: key)
    requires WellFormed(d)
    ensures At(Compact(d, chosen, now), k).value == Rest(At(d, k), k, chosen, now).value
  {
    hide WellFormed, EnvelopeExpired, Expired;
    if ValueKey(k) in d { HookOnEnvelope(d, ValueKey(k), now); }
  }

  lemma CompactedRaw(d: Store, chosen: set<bytes>, now: int, k: key)
    requires Spared(d, chosen, now)
    ensures var b, b' := At(d, k), At(Compact(d, chosen, now), k);
            b'.members == b.members && b'.items == b.items && b'.ttl == b.ttl
  {
    hide EnvelopeExpired;
    var d' := Compact(d, chosen, now);
    forall sk | Raw(sk) ensures Agree(d, d', sk) {}
    forall m ensures Agree(d, d', SetPrefix(k) + m) { assert Raw(SetPrefix(k) + m); }
    SamePrefixRecords(d, d', SetPrefix(k));
    assert Raw(ListKey(k)) && Raw(TtlKey(k));
  }

  lemma CompactedBundle(d: Store, chosen: set<bytes>, now: int, k: key)
    requires WellFormed(d) && Spared(d, chosen, now)
    ensures At(Compact(d, chosen, now), k) == Rest(At(d, k), k, chosen, now)
  {
    CompactedFields(d, chosen, now, k);
    CompactedValue(d, chosen, now, k);
    CompactedRaw(d, chosen, now, k);
    hide At, Compact, WellFormed, Spared;
  }

  /** A hash under a deadline of its own whose fields are all dropped: the deadline record stays
      behind with nothing to belong to. */
  predicate LosesLastField(b: Bundle, k: key, chosen: set<bytes>, now: int) {
    b.ttl.Some? && b.fields != map[] && forall f <- b.fields :: Drops(chosen, HashKey(k, f), b.fields[f], now)
  }

  lemma RestFields(b: Bundle, k: key, chosen: set<bytes>, now: int)
    ensures b.fields != map[] ==>
              (Rest(b, k, chosen, now).fields == map[] <==>
                  forall f <- b.fields :: Drops(chosen, HashKey(k, f), b.fields[f], now))
  {
    var rest := Rest(b, k, chosen, now).fields;
    if f :| f in b.fields && !Drops(chosen, HashKey(k, f), b.fields[f], now) { assert f in rest; }
    if rest != map[] {
      var f :| f in rest;
      assert !Drops(chosen, HashKey(k, f), b.fields[f], now);
    }
  }

  lemma RestLivesOn(b: Bundle, k: key, chosen: set<bytes>, now: int, t: int)
    requires now <= t
    ensures P.LiveEnvs(Rest(b, k, chosen, now).fields, t) == P.LiveEnvs(b.fields, t)
  {
  }

  /** The records left stand for the same entry, now and later, and they are sound unless the
      hash under a deadline is gone. */
  lemma RestMeans(b: Bundle, k: key, chosen: set<bytes>, now: int, t: int)
    requires P.Ok(b) && now <= t
    ensures P.Look(Rest(b, k, chosen, now), t) == P.Look(b, t)
    ensures P.Ok(Rest(b, k, chosen, now)) <==> !LosesLastField(b, k, chosen, now)
  {
    RestFields(b, k, chosen, now);
    RestLivesOn(b, k, chosen, now, t);
    hide LosesLastField;
    assert LosesLastField(b, k, chosen, now) <==>
        b.ttl.Some? && b.fields != map[] && Rest(b, k, chosen, now).fields == map[]
      by { LosesMeans(b, k, chosen, now); }
  }

  lemma LosesMeans(b: Bundle, k: key, chosen: set<bytes>, now: int)
    ensures LosesLastField(b, k, chosen, now) <==>
        b.ttl.Some? && b.fields != map[] && Rest(b, k, chosen, now).fields == map[]
  {
    RestFields(b, k, chosen, now);
  }

  /** Compaction changes nothing any command can see, now or later, and keeps the store invariant
      if and only if no hash under a deadline loses its last field. */
  lemma CompactionKeepsKeyspace(d: Store, chosen: set<bytes>, now: int, t: int)
    requires Inv(d) && Spared(d, chosen, now) && now <= t
    ensures View.View(Compact(d, chosen, now), t) == View.View(d, t)
    ensures Inv(Compact(d, chosen, now)) <==> forall k: key :: !LosesLastField(At(d, k), k, chosen, now)
  {
    hide At, P.Ok, P.Look, View.View, Spared, LosesLastField, Rest;
    var d' := Compact(d, chosen, now);
    assert WellFormed(d') by { hide EnvelopeExpired, RecordOk; }
    forall k: key ensures P.Look(At(d', k), t) == P.Look(At(d, k), t)
                  && (P.Ok(At(d', k)) <==> !LosesLastField(At(d, k), k, chosen, now)) {
      CompactedBundle(d, chosen, now, k);
      RestMeans(At(d, k), k, chosen, now, t);
    }
    forall k: key ensures Find(View.View(d, t), k) == P.Look(At(d', k), t) { ViewFind(d, t, k); }
    ViewIs(d', t, View.View(d, t));
  }

  /** In a plain store no field expires on its own, so compaction is safe whenever no list is
      dropped, and leaves the store plain. */
  lemma PlainCompaction(d: Store, chosen: set<bytes>, now: int, t: int)
    requires Inv(d) && Plain(d) && SparesLists(chosen) && now <= t
    ensures Keeps(d, Compact(d, chosen, now)) && View.View(Compact(d, chosen, now), t) == View.View(d, t)
  {
    hide View.View, At, P.Ok, LosesLastField;
    PlainIsSpared(d, chosen, now);
    CompactionKeepsKeyspace(d, chosen, now, t);
    forall k: key ensures !LosesLastField(At(d, k), k, chosen, now) { PlainKeepsFields(d, chosen, now, k); }
    assert Plain(Compact(d, chosen, now)) by { hide EnvelopeExpired, PlainRecord; }
  }

  predicate SparesLists(chosen: set<bytes>) {
    forall sk <- chosen :: |sk| > 0 ==> sk[0] != KIND_LIST
  }

  lemma PlainIsSpared(d: Store, chosen: set<bytes>, now: int)
    requires WellFormed(d) && Plain(d) && SparesLists(chosen)
    ensures Spared(d, chosen, now)
  {
    forall sk <- d | sk in chosen && Raw(sk) ensures !EnvelopeExpired(d[sk], now) {
      assert RecordOk(sk, d[sk]) && PlainRecord(sk, d[sk]);
      HookSparesCollections(d[sk]);
    }
  }

  lemma PlainKeepsFields(d: Store, chosen: set<bytes>, now: int, k: key)
    requires Plain(d)
    ensures !LosesLastField(At(d, k), k, chosen, now)
  {
    var b := At(d, k);
    if f :| f in b.fields {
      assert PlainRecord(HashPrefix(k) + f, d[HashPrefix(k) + f]);
      assert !Expired(b.fields[f], now);
    }
  }

  /** A list is dropped only if it has exactly the magic number of items: otherwise compaction
      does the same with the list records left out of what the driver looks at. */
  lemma ListsAreSpared(d: Store, chosen: set<bytes>, now: int)
    requires WellFormed(d)
    requires forall sk <- d :: |sk| > 0 && sk[0] == KIND_LIST ==> FromListCount(d[sk]) != MAGIC_COUNT
    ensures SparesLists(NoLists(chosen)) && Compact(d, chosen, now) == Compact(d, NoLists(chosen), now)
  {
    forall sk <- d | |sk| > 0 && sk[0] == KIND_LIST ensures !EnvelopeExpired(d[sk], now) {
      assert RecordOk(sk, d[sk]);
      HookSparesCollections(d[sk]);
    }
    hide EnvelopeExpired, WellFormed;
  }

  function NoLists(chosen: set<bytes>): set<bytes> { set sk <- chosen | |sk| > 0 ==> sk[0] != KIND_LIST }

  // ---------------------------------------------------------------- when the condition fails

  /** A compaction that takes the last field of a hash whose deadline is still ahead, and then an
      HINCRBY. The key is missing, so the reference makes a hash without a deadline; the code,
      which unlike HSET does not delete the stray deadline record first, brings the old one back. */
  method CompactThenIncrement(db: Database, chosen: set<bytes>, k: key, f: S.Arg, delta: int64) returns (r: Resp)
    requires Inv(db.engine.data) && Spared(db.engine.data, chosen, db.now)
    requires LosesLastField(At(db.engine.data, k), k, chosen, db.now) && !Passed(At(db.engine.data, k).ttl, db.now)
    modifies db.engine
    ensures var ttl, before := At(old(db.engine.data), k).ttl, Find(View.View(old(db.engine.data), db.now), k);
            var out := S.HashIncrement(before, f, delta);
            && before.None? && r == out.reply == Integer(delta)
            && out.entry.Some? && out.entry.value.deadline.None?
            && Find(View.View(db.engine.data, db.now), k) == Some(out.entry.value.(deadline := ttl))
  {
    hide At, View.View, Inv, WellFormed, P.Look, P.Ok, Spared, Compact, LosesLastField, Rest;
    hide HashCommands.IncrementRecords, S.HashIncrement;
    ghost var d := db.engine.data;
    InvAt(d, k);
    ViewFind(d, db.now, k);
    CompactedBundle(d, chosen, db.now, k);
    StrayIncrement(At(d, k), k, chosen, f, delta, db.now);
    KeptWellFormed(d, chosen, db.now);
    db.engine.data := Compact(db.engine.data, chosen, db.now);
    r := HashCommands.HIncrement(db, k, f, delta);
    ViewFind(db.engine.data, db.now, k);
  }

  lemma KeptWellFormed(d: Store, chosen: set<bytes>, now: int)
    requires WellFormed(d)
    ensures WellFormed(Compact(d, chosen, now))
  {
    hide EnvelopeExpired, RecordOk;
  }

  lemma StrayBundle(b: Bundle, k: key, chosen: set<bytes>, now: int)
    requires P.Ok(b) && LosesLastField(b, k, chosen, now)
    ensures Rest(b, k, chosen, now) == EMPTY.(ttl := b.ttl) && P.Look(b, now).None?
  {
    RestFields(b, k, chosen, now);
    assert P.LiveEnvs(b.fields, now) == map[];
  }

  function Counted(f: bytes, delta: int): map<bytes, Field> { map[f := Field(S.Decimal.Format(delta), None)] }

  lemma FreshIncrement(f: S.Arg, delta: int64)
    ensures S.HashIncrement(None, f, delta) == S.Out(Some(Entry(Hash(Counted(f, delta)), None)), Integer(delta))
  {
    var none: map<bytes, Field> := map[];
    assert none[f := Field(S.Decimal.Format(delta), None)] == Counted(f, delta);
    assert f in Counted(f, delta);
  }

  lemma StrayRecords(ttl: Option<int64>, f: S.Arg, delta: int64, now: int)
    requires !Passed(ttl, now)
    ensures var (reply, b) := HashCommands.IncrementRecords(EMPTY.(ttl := ttl), f, delta, now);
            reply == Integer(delta)
            && b == EMPTY.(ttl := ttl, fields := map[f := Env(0, P.BYTES_CODEC, S.Decimal.Format(delta))])
  {
    var stray := EMPTY.(ttl := ttl);
    assert P.LiveEnvs(map[], now) == map[];
    assert P.Type(stray, now) == (NoKind, stray);
    assert P.HashField(stray, f, now) == (Missing, stray);
    hide P.HashField, P.Type;
    var e := Env(0, P.BYTES_CODEC, S.Decimal.Format(delta));
    assert stray.fields[f := e] == map[f := e];
  }

  lemma StrayLook(ttl: Option<int64>, f: bytes, delta: int, now: int)
    requires !Passed(ttl, now)
    ensures var b := EMPTY.(ttl := ttl, fields := map[f := Env(0, P.BYTES_CODEC, S.Decimal.Format(delta))]);
            P.Look(b, now) == Some(Entry(Hash(Counted(f, delta)), ttl))
  {
    var fields := map[f := Env(0, P.BYTES_CODEC, S.Decimal.Format(delta))];
    assert P.LiveEnvs(fields, now) == fields && f in fields;
    assert P.FieldsOf(fields) == Counted(f, delta);
  }

  lemma StrayIncrement(b: Bundle, k: key, chosen: set<bytes>, f: S.Arg, delta: int64, now: int)
    requires P.Ok(b) && LosesLastField(b, k, chosen, now) && !Passed(b.ttl, now)
    ensures var out := S.HashIncrement(P.Look(b, now), f, delta);
            var (reply, b') := HashCommands.IncrementRecords(Rest(b, k, chosen, now), f, delta, now);
            && P.Look(b, now).None? && reply == out.reply == Integer(delta)
            && out.entry.Some? && out.entry.value.deadline.None?
            && P.Look(b', now) == Some(out.entry.value.(deadline := b.ttl))
  {
    StrayBundle(b, k, chosen, now);
    hide LosesLastField, Rest, P.Look, P.Ok, HashCommands.IncrementRecords, S.HashIncrement, Counted;
    FreshIncrement(f, delta);
    StrayRecords(b.ttl, f, delta, now);
    StrayLook(b.ttl, f, delta, now);
  }

  /** Such a store exists: one field that expired at 5 under a collection deadline of 100, at 10. */
  lemma StrayDeadlineIsPossible() returns (d: Store, chosen: set<bytes>, k: key, now: int64)
    ensures Inv(d) && Spared(d, chosen, now) && now >= 0
    ensures LosesLastField(At(d, k), k, chosen, now) && !Passed(At(d, k).ttl, now)
  {
    k, now := [1], 10;
    var e, f := Env(5, [], []), [2];
    var d1 := map[TtlKey(k) := Word64(100)];
    d, chosen := d1[HashKey(k, f) := Marshal(e).value], {HashKey(k, f)};
    DeadlineAlone(k, 100);
    WithField(d1, k, f, e);
    hide At, WellFormed, Marshal, Word64;
    assert !Raw(HashKey(k, f));
    var b := At(d, k);
    assert b == EMPTY.(ttl := Some(100), fields := map[f := e]);
    assert b.fields != map[] by { assert f in b.fields; }
  }

  lemma DeadlineAlone(k: key, deadline: int64)
    ensures var d := map[TtlKey(k) := Word64(deadline)];
            && WellFormed(d) && At(d, k) == EMPTY.(ttl := Some(deadline))
            && forall k2: key :: k2 != k ==> At(d, k2) == EMPTY
  {
    Word64RoundTrip(deadline);
    var none: Store := map[];
    assert none[TtlKey(k) := Word64(deadline)] == map[TtlKey(k) := Word64(deadline)];
    PutTtl(none, k, Word64(deadline));
    hide At;
    forall k2: key ensures At(none, k2) == EMPTY { EmptyIffNoRecord(none, k2); }
  }

  lemma WithField(d: Store, k: key, f: bytes, e: Env)
    requires WellFormed(d) && |e.codec| <= 65535
    ensures var d' := d[HashKey(k, f) := Marshal(e).value];
            && WellFormed(d')
            && At(d', k) == At(d, k).(fields := At(d, k).fields[f := e])
            && forall k2: key :: k2 != k ==> At(d', k2) == At(d, k2)
  {
    var data := Marshal(e).value;
    var d' := d[HashKey(k, f) := data];
    MarshalRoundTrip(e);
    assert WellFormed(d') by { NamespacedLogicalKey(KIND_HASH, k, f); }
    Others(d, d', k, HashKey(k, f));
    PutBelowPrefix(d, HashPrefix(k), f, data);
    forall k2: key | k2 != k ensures At(d', k2) == At(d, k2) {
      forall sk | Owns(k2, sk) ensures Agree(d, d', sk) {
        if sk == HashKey(k, f) { OwnersAreDisjoint(k, k2, sk); }
      }
      AtDependsOnOwned(d, d', k2);
    }
  }
}
