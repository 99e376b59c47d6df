/** One logical key at a time: what redisType does to its records, and what they mean. */
module Probe {
  import opened Bytes
  import opened Envelope
  import opened Layout
  import opened Keyspace
  import ListCodec
  import Deadline

  function LiveEnvs(fields: map<bytes, Env>, now: int): map<bytes, Env> {
    map f <- fields | !Expired(fields[f], now) :: fields[f]
  }

  /** redisType: the type it reports and the records it leaves behind. */
  function Type(b: Bundle, now: int): (Kind, Bundle) {
    if b.ttl.Some? && now >= b.ttl.value then (NoKind, EMPTY)
    else if b.value.Some? && !Expired(b.value.value, now) then (StringKind, b)
    else
      var b1 := b.(value := None);
      var live := LiveEnvs(b1.fields, now);
      if live != map[] then (HashKind, b1.(fields := live))
      else
        var b2 := if b1.fields != map[] then EMPTY else b1;
        if b2.members != {} then (SetKind, b2)
        else if b2.items.Some? then
          if b2.items.value != [] then (ListKind, b2) else (NoKind, EMPTY)
        else (NoKind, b2)
  }

  /** Records a reachable store may hold for one key: one representation at most, no
      collection deadline beside a string or beside nothing, no empty list, and list
      items that never expire on their own. */
  predicate Ok(b: Bundle) {
    && (b.value.Some? ==> b.fields == map[] && b.members == {} && b.items.None? && b.ttl.None?)
    && (b.fields != map[] ==> b.members == {} && b.items.None?)
    && (b.members != {} ==> b.items.None?)
    && (b.ttl.Some? ==> b.fields != map[] || b.members != {} || b.items.Some?)
    && (b.items.Some? ==> b.items.value != [] && ItemsOk(b.items.value))
  }

  predicate ItemsOk(items: seq<bytes>) {
    && ListCodec.Encodable(items)
    && forall i :: 0 <= i < |items| ==> Unmarshal(items[i]).Some? && ToEnv(items[i]).expiresAt <= 0
  }

  function Payloads(items: seq<bytes>): (r: seq<bytes>)
    ensures |r| == |items|
  {
    seq(|items|, i requires 0 <= i < |items| => ToEnv(items[i]).payload)
  }

  function DeadlineOf(expiresAt: int): Option<int> {
    if expiresAt > 0 then Some(expiresAt) else None
  }

  function FieldOf(e: Env): Field { Field(e.payload, DeadlineOf(e.expiresAt)) }

  function FieldsOf(fields: map<bytes, Env>): map<bytes, Field> {
    map f <- fields :: FieldOf(fields[f])
  }

  /** The typed entry a bundle stands for at time `now`. */
  function Look(b: Bundle, now: int): Option<Entry> {
    if b.ttl.Some? && now >= b.ttl.value then None
    else if b.value.Some? then
      var e := b.value.value;
      if Expired(e, now) then None
      else Some(Entry(Str(e.codec, e.payload), DeadlineOf(e.expiresAt)))
    else if b.fields != map[] then
      var live := LiveEnvs(b.fields, now);
      if live == map[] then None else Some(Entry(Hash(FieldsOf(live)), b.ttl))
    else if b.members != {} then Some(Entry(Members(b.members), b.ttl))
    else if b.items.Some? then Some(Entry(Items(Payloads(b.items.value)), b.ttl))
    else None
  }

  lemma LiveLater(fields: map<bytes, Env>, now: int, t: int)
    requires now <= t
    ensures LiveEnvs(LiveEnvs(fields, now), t) == LiveEnvs(fields, t)
    ensures LiveFields(FieldsOf(LiveEnvs(fields, now)), t) == FieldsOf(LiveEnvs(fields, t))
  {
    var live := LiveEnvs(fields, now);
    forall f | f in fields ensures f in FieldsOf(LiveEnvs(fields, t)) <==> f in LiveFields(FieldsOf(live), t) {
      assert Passed(FieldOf(fields[f]).deadline, t) <==> Expired(fields[f], t);
    }
  }

  lemma FieldsOfEmpty(fields: map<bytes, Env>)
    ensures FieldsOf(fields) == map[] <==> fields == map[]
  {
    if fields != map[] {
      var f :| f in fields;
      assert f in FieldsOf(fields);
    }
  }

  /** Looking later is the same as looking now and letting time pass. */
  lemma LookLater(b: Bundle, now: int, t: int)
    requires Ok(b) && now <= t
    ensures Look(b, t) == Later(Look(b, now), t)
  {
    LiveLater(b.fields, now, t);
    FieldsOfEmpty(LiveEnvs(b.fields, t));
    FieldsOfEmpty(LiveEnvs(b.fields, now));
    assert b.fields == map[] ==> LiveEnvs(b.fields, t) == map[];
    if LiveEnvs(b.fields, now) == map[] {
      assert LiveEnvs(LiveEnvs(b.fields, now), t) == map[];
    }
  }

  /** Probing a key reports the kind of its entry, purges only what is dead now and for
      ever after, and leaves no record at all of a key that is gone. */
  lemma TypeIsSound(b: Bundle, now: int)
    requires Ok(b)
    ensures var (kind, b') := Type(b, now);
            && Ok(b')
            && kind == KindOf(Look(b, now))
            && (kind == NoKind ==> b' == EMPTY)
            && Type(b', now) == (kind, b')
            && Look(b', now) == Look(b, now)
  {
    var live := LiveEnvs(b.fields, now);
    LiveLater(b.fields, now, now);
    assert b.fields == map[] ==> live == map[];
  }

  lemma TypeHidesNothing(b: Bundle, now: int, t: int)
    requires Ok(b) && now <= t
    ensures Look(Type(b, now).1, t) == Look(b, t)
  {
    TypeIsSound(b, now);
    LookLater(b, now, t);
    LookLater(Type(b, now).1, now, t);
  }

  // ---------------------------------------------------------------- what each helper does to a bundle

  const BYTES_CODEC: bytes := ['b' as int, 'y' as int, 't' as int, 'e' as int, 's' as int]

  function ReadString(b: Bundle, now: int): (Lookup<Env>, Bundle) {
    if b.value.None? then (Missing, b)
    else if Expired(b.value.value, now) then (Missing, EMPTY)
    else (Found(b.value.value), b)
  }

  function String(b: Bundle, now: int): (Lookup<Env>, Bundle) {
    var (kind, b1) := Type(b, now);
    if kind == NoKind then (Missing, b1)
    else if kind != StringKind then (WrongType, b1)
    else ReadString(b1, now)
  }

  function WriteString(b: Bundle, codec: bytes, payload: bytes, expiresAt: int64, now: int64): Bundle {
    if expiresAt <= 0 then b.(value := Some(Env(0, codec, payload)), ttl := None)
    else if Deadline.Sub(expiresAt, now) <= 0 then EMPTY
    else b.(value := Some(Env(Deadline.Stored(expiresAt, now, now), codec, payload)))
  }

  function Expiry(b: Bundle, now: int): (Option<int64>, Bundle) {
    var (kind, b1) := Type(b, now);
    if kind == NoKind then (None, b1)
    else if kind == StringKind then
      (if b1.value.Some? && b1.value.value.expiresAt > 0 then Some(b1.value.value.expiresAt) else None, b1)
    else (b1.ttl, b1)
  }

  function ExpireString(b: Bundle, expiresAt: int64, now: int64): (bool, Bundle) {
    match b.value
    case None => (false, b)
    case Some(e) => (true, WriteString(b, e.codec, e.payload, expiresAt, now).(ttl := None))
  }

  function SetExpiry(b: Bundle, expiresAt: int64, now: int64): (bool, Bundle) {
    var (kind, b1) := Type(b, now);
    if kind == NoKind then (false, b1)
    else if expiresAt <= now then (true, EMPTY)
    else if kind == StringKind then ExpireString(b1, expiresAt, now)
    else (true, b1.(ttl := Some(expiresAt)))
  }

  function PersistString(b: Bundle): (bool, Bundle) {
    match b.value
    case None => (false, b)
    case Some(e) => (true, b.(value := Some(e.(expiresAt := 0))))
  }

  function Persist(b: Bundle, now: int): (bool, Bundle) {
    var (kind, b1) := Type(b, now);
    if kind == NoKind then (false, b1)
    else
      var (deadline, b2) := Expiry(b1, now);
      if deadline.None? then (false, b2)
      else if kind == StringKind then PersistString(b2)
      else (true, b2.(ttl := None))
  }

  function ReadField(b: Bundle, f: bytes, now: int): (Lookup<bytes>, Bundle) {
    if f !in b.fields then (Missing, b)
    else if Expired(b.fields[f], now) then (Missing, b.(fields := b.fields - {f}))
    else (Found(b.fields[f].payload), b)
  }

  function HashField(b: Bundle, f: bytes, now: int): (Lookup<bytes>, Bundle) {
    var (kind, b1) := Type(b, now);
    if kind == NoKind then (Missing, b1)
    else if kind != HashKind then (WrongType, b1)
    else ReadField(b1, f, now)
  }

  /** Drop expired fields; a hash whose last field expired loses its deadline too. */
  function PruneHash(b: Bundle, now: int): (map<bytes, Env>, Bundle) {
    var live := LiveEnvs(b.fields, now);
    (live, if live == map[] && b.fields != map[] then EMPTY else b.(fields := live))
  }

  function HashEntries(b: Bundle, now: int): (Lookup<map<bytes, Env>>, Bundle) {
    var (kind, b1) := Type(b, now);
    if kind == NoKind then (Missing, b1)
    else if kind != HashKind then (WrongType, b1)
    else
      var (live, b2) := PruneHash(b1, now);
      (if live == map[] then Missing else Found(live), b2)
  }

  function ReadMembers(b: Bundle): (Lookup<set<bytes>>, Bundle) {
    if b.members == {} then (Missing, EMPTY) else (Found(b.members), b)
  }

  function SetMembers(b: Bundle, now: int): (Lookup<set<bytes>>, Bundle) {
    var (kind, b1) := Type(b, now);
    if kind == NoKind then (Missing, b1)
    else if kind != SetKind then (WrongType, b1)
    else ReadMembers(b1)
  }

  function LiveItems(items: seq<bytes>, now: int): (r: seq<bytes>)
    ensures |r| <= |items|
    ensures forall i :: 0 <= i < |r| ==> r[i] in items
  {
    if items == [] then []
    else
      var front := LiveItems(items[..|items| - 1], now);
      var last := items[|items| - 1];
      if Expired(ToEnv(last), now) then front else front + [last]
  }

  function List(b: Bundle, now: int): (Lookup<seq<bytes>>, Bundle) {
    var (kind, b1) := Type(b, now);
    if kind == NoKind then (Missing, b1)
    else if kind != ListKind then (WrongType, b1)
    else if b1.items.None? then (Missing, b1)
    else (Found(b1.items.value), b1)
  }

  function WriteList(b: Bundle, items: seq<bytes>): Bundle {
    if items == [] then EMPTY else b.(items := Some(items))
  }

  function ListValues(b: Bundle, now: int): (Lookup<seq<bytes>>, Bundle) {
    var (found, b1) := List(b, now);
    if !found.Found? then (found, b1)
    else
      var live := LiveItems(found.value, now);
      var b2 := if live != found.value then WriteList(b1, live) else b1;
      (if live == [] then Missing else Found(live), b2)
  }
}
