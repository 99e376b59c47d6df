/** What the record-level helpers mean on the typed entry of their key, for the bundles a
    reachable store can hold. */
module Meaning {
  import opened Bytes
  import opened Envelope
  import opened Layout
  import opened Keyspace
  import S = CommandSpec
  import P = Probe

  function Pruned(b: Bundle, now: int): Bundle { P.Type(b, now).1 }

  /** Looking a key up purges what is dead and changes nothing else. */
  ghost predicate Kept(b: Bundle, b': Bundle, now: int) {
    P.Ok(b') && P.Look(b', now) == P.Look(b, now) && (P.Look(b, now).None? ==> b' == EMPTY)
  }

  lemma PrunedIsKept(b: Bundle, now: int)
    requires P.Ok(b)
    ensures Kept(b, Pruned(b, now), now)
    ensures P.Type(b, now).0 == KindOf(P.Look(b, now))
    ensures P.Type(Pruned(b, now), now) == P.Type(b, now)
  {
    P.TypeIsSound(b, now);
  }

  function PayloadOf(r: Lookup<Env>): Lookup<bytes> {
    match r case Missing => Missing case WrongType => WrongType case Found(e) => Found(e.payload)
  }

  predicate StringOnly(b: Bundle) { b == EMPTY.(value := b.value) }

  lemma StringMeans(b: Bundle, now: int)
    requires P.Ok(b)
    ensures var (r, b') := P.String(b, now);
            && b' == Pruned(b, now) && Kept(b, b', now)
            && PayloadOf(r) == S.StringOf(P.Look(b, now))
            && (!r.WrongType? ==> StringOnly(b'))
            && (r.Found? ==> b'.value == Some(r.value))
            && (r.Found? ==> P.Look(b', now).value.deadline == P.DeadlineOf(r.value.expiresAt))
  {
    PrunedIsKept(b, now);
  }

  lemma WriteStringMeans(b: Bundle, codec: bytes, payload: bytes, expiresAt: int64, now: int64)
    requires StringOnly(b) && now >= 0
    ensures var b' := P.WriteString(b, codec, payload, expiresAt, now);
            && P.Ok(b') && StringOnly(b')
            && P.Look(b', now) == (if Passed(P.DeadlineOf(expiresAt), now) then None
                                   else Some(Entry(Str(codec, payload), P.DeadlineOf(expiresAt))))
  {
  }

  lemma ExpiryMeans(b: Bundle, now: int)
    requires P.Ok(b)
    ensures var (deadline, b') := P.Expiry(b, now);
            && b' == Pruned(b, now) && Kept(b, b', now)
            && deadline == S.DeadlineIn(P.Look(b, now))
  {
    PrunedIsKept(b, now);
  }

  /** A live deadline is in the future, hence positive on a clock past the epoch. */
  lemma LiveDeadline(b: Bundle, now: int)
    requires P.Ok(b) && now >= 0
    ensures var deadline := S.DeadlineIn(P.Look(b, now));
            && !Passed(deadline, now)
            && (deadline.Some? ==> P.DeadlineOf(deadline.value) == deadline)
  {
  }

  lemma SetExpiryMeans(b: Bundle, expiresAt: int64, now: int64)
    requires P.Ok(b) && now >= 0
    ensures var (ok, b') := P.SetExpiry(b, expiresAt, now);
            && P.Ok(b')
            && (P.Look(b', now), ok) == S.ExpireIn(P.Look(b, now), expiresAt, now)
  {
    PrunedIsKept(b, now);
    var (kind, b1) := P.Type(b, now);
    if kind == StringKind && expiresAt > now {
      WriteStringMeans(b1, b1.value.value.codec, b1.value.value.payload, expiresAt, now);
    }
  }

  lemma PersistMeans(b: Bundle, now: int)
    requires P.Ok(b)
    ensures var (ok, b') := P.Persist(b, now);
            && P.Ok(b')
            && (P.Look(b', now), ok) == S.PersistIn(P.Look(b, now))
  {
    PrunedIsKept(b, now);
    ExpiryMeans(Pruned(b, now), now);
  }

  lemma LiveFieldsMean(b: Bundle, now: int)
    requires P.Ok(b) && KindOf(P.Look(b, now)) == HashKind
    ensures var b' := Pruned(b, now);
            && b' == EMPTY.(fields := b'.fields, ttl := b'.ttl)
            && S.HashOf(P.Look(b, now)) == Found(P.FieldsOf(b'.fields))
            && P.LiveEnvs(b'.fields, now) == b'.fields != map[]
            && b'.ttl == S.DeadlineIn(P.Look(b, now))
  {
    PrunedIsKept(b, now);
    P.LiveLater(b.fields, now, now);
  }

  lemma HashFieldMeans(b: Bundle, f: bytes, now: int)
    requires P.Ok(b)
    ensures var (r, b') := P.HashField(b, f, now);
            var fields := S.FieldsIn(P.Look(b, now));
            && b' == Pruned(b, now) && Kept(b, b', now)
            && (r.WrongType? <==> S.HashOf(P.Look(b, now)).WrongType?)
            && (r.Found? <==> f in fields) && (r.Found? ==> r.value == fields[f].value)
  {
    PrunedIsKept(b, now);
    if KindOf(P.Look(b, now)) == HashKind { LiveFieldsMean(b, now); }
  }

  lemma HashEntriesMeans(b: Bundle, now: int)
    requires P.Ok(b)
    ensures var (r, b') := P.HashEntries(b, now);
            && b' == Pruned(b, now) && Kept(b, b', now)
            && (r.WrongType? <==> S.HashOf(P.Look(b, now)).WrongType?)
            && (r.Missing? <==> P.Look(b, now).None?)
            && (r.Found? ==> r.value != map[] && r.value == b'.fields)
            && (r.Found? ==> P.FieldsOf(r.value) == S.FieldsIn(P.Look(b, now)))
  {
    PrunedIsKept(b, now);
    if KindOf(P.Look(b, now)) == HashKind { LiveFieldsMean(b, now); }
  }

  lemma SetMembersMeans(b: Bundle, now: int)
    requires P.Ok(b)
    ensures var (r, b') := P.SetMembers(b, now);
            && b' == Pruned(b, now) && Kept(b, b', now)
            && r == S.SetOf(P.Look(b, now))
            && (r.Found? ==> b' == EMPTY.(members := r.value, ttl := b'.ttl) && b'.ttl == S.DeadlineIn(P.Look(b, now)))
  {
    PrunedIsKept(b, now);
  }

  /** List items that never expire on their own all stay. */
  lemma {:induction false} NothingExpires(items: seq<bytes>, now: int)
    requires P.ItemsOk(items)
    ensures P.LiveItems(items, now) == items
    decreases |items|
  {
    if items != [] {
      NothingExpires(items[..|items| - 1], now);
      assert items == items[..|items| - 1] + [items[|items| - 1]];
    }
  }

  lemma ListValuesMeans(b: Bundle, now: int)
    requires P.Ok(b)
    ensures var (r, b') := P.ListValues(b, now);
            && b' == Pruned(b, now) && Kept(b, b', now)
            && (r.WrongType? <==> S.ListOf(P.Look(b, now)).WrongType?)
            && (r.Missing? <==> P.Look(b, now).None?)
            && (r.Found? ==> b' == EMPTY.(items := Some(r.value), ttl := b'.ttl))
            && (r.Found? ==> b'.ttl == S.DeadlineIn(P.Look(b, now)))
            && (r.Found? ==> r.value != [] && P.ItemsOk(r.value) && P.Payloads(r.value) == S.ItemsIn(P.Look(b, now)))
  {
    PrunedIsKept(b, now);
    var (found, b1) := P.List(b, now);
    if found.Found? { NothingExpires(found.value, now); }
  }

  lemma WriteListMeans(b: Bundle, items: seq<bytes>, now: int)
    requires b == EMPTY.(items := b.items, ttl := b.ttl) && !Passed(b.ttl, now) && (b.items.None? ==> b.ttl.None?)
    requires items != [] ==> P.ItemsOk(items)
    ensures var b' := P.WriteList(b, items);
            && P.Ok(b')
            && P.Look(b', now) == S.ListUntil(P.Payloads(items), b.ttl)
  {
  }
}
