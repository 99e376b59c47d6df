/** The whole store as a typed keyspace. */
module View {
  import opened Bytes
  import opened Keys
  import opened Layout
  import opened Keyspace
  import opened LogicalKeys
  import opened Effects
  import P = Probe

  /** The logical keys named by the records of a store. */
  function StoredKeys(d: Store): set<key> {
    set sk <- d | LogicalKey(sk).Some? && |LogicalKey(sk).value| < TWO32 :: LogicalKey(sk).value
  }

  ghost function View(d: Store, now: int): Keyspace {
    map k <- StoredKeys(d) | P.Look(At(d, k), now).Some? :: P.Look(At(d, k), now).value
  }

  lemma NamedIffStored(d: Store, k: key)
    ensures k in StoredKeys(d) <==> At(d, k) != EMPTY
  {
    EmptyIffNoRecord(d, k);
    if k in StoredKeys(d) {
      var sk :| sk in d && LogicalKey(sk) == Some(k);
      OwnsIffLogicalKey(k, sk);
    }
    if exists sk <- d :: Owns(k, sk) {
      var sk :| sk in d && Owns(k, sk);
      OwnsIffLogicalKey(k, sk);
    }
  }

  /** Every key of the view is what its bundle looks like, and no live bundle is missing. */
  lemma ViewFind(d: Store, now: int, k: key)
    ensures Find(View(d, now), k) == P.Look(At(d, k), now)
  {
    NamedIffStored(d, k);
  }

  lemma ViewIs(d: Store, now: int, ks: Keyspace)
    requires forall k: key :: Find(ks, k) == P.Look(At(d, k), now)
    ensures View(d, now) == ks
  {
    hide View, At, P.Look;
    forall k: key ensures Find(View(d, now), k) == Find(ks, k) {
      ViewFind(d, now, k);
    }
    SameFinds(View(d, now), ks);
  }

  lemma SameFinds(a: Keyspace, b: Keyspace)
    requires forall k: key :: Find(a, k) == Find(b, k)
    ensures a == b
  {
    forall k: key ensures k in a <==> k in b { assert Find(a, k) == Find(b, k); }
    forall k <- a ensures a[k] == b[k] { assert Find(a, k) == Find(b, k); }
  }

  /** A single-key effect on the store is an assignment in the keyspace. */
  lemma ViewEffect(d: Store, d': Store, k: key, now: int, oe: Option<Entry>)
    requires Effect(d, d', k, now, oe)
    ensures View(d', now) == Assign(View(d, now), k, oe)
  {
    hide View, At, P.Look, P.Ok, WellFormed;
    var ks := Assign(View(d, now), k, oe);
    forall k2: key ensures Find(ks, k2) == P.Look(At(d', k2), now) {
      ViewFind(d, now, k2);
    }
    ViewIs(d', now, ks);
  }

  /** Looking at the store later is letting time pass in the keyspace. */
  lemma ViewLater(d: Store, now: int, t: int)
    requires Inv(d) && now <= t
    ensures View(d, t) == Tick(View(d, now), t)
  {
    hide View, At, P.Look, P.Ok, WellFormed;
    var ks := Tick(View(d, now), t);
    forall k: key ensures Find(ks, k) == P.Look(At(d, k), t) {
      ViewFind(d, now, k);
      P.LookLater(At(d, k), now, t);
    }
    ViewIs(d, t, ks);
  }
}
