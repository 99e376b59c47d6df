/** The contract every single-key command is proved against, and the store invariant. */
module Effects {
  import opened Bytes
  import opened Keys
  import opened Layout
  import opened Keyspace
  import opened Resp
  import opened CommandSpec
  import P = Probe

  /** What every reachable store keeps: records decode, and each key has at most one
      representation, no stray deadline and no empty collection. */
  ghost predicate Inv(d: Store) {
    WellFormed(d) && forall k: key :: P.Ok(At(d, k))
  }

  /** What every command does to the store: the invariant holds, and a plain store stays plain. */
  ghost predicate Keeps(d: Store, d': Store) {
    Inv(d') && (Plain(d) ==> Plain(d'))
  }

  ghost function Before(d: Store, args: seq<Arg>, now: int): Option<Entry> {
    if |args| < 2 then None else P.Look(At(d, args[1]), now)
  }

  /** Only `k` changed, its records are sound, and they stand for the entry the
      specification asks for. */
  ghost predicate Effect(d: Store, d': Store, k: key, now: int, oe: Option<Entry>) {
    WellFormed(d') && Frame(d, d', k) && P.Ok(At(d', k)) && P.Look(At(d', k), now) == oe
  }

  /** A command did what `out` says to the key named by its first argument. */
  ghost predicate Performed(d: Store, d': Store, args: seq<Arg>, now: int, out: Out, reply: Resp) {
    && reply == out.reply
    && if |args| < 2 then d' == d else Effect(d, d', args[1], now, out.entry)
  }

  /** A key without records is sound, and is no key. */
  lemma NothingLeft(now: int)
    ensures P.Ok(EMPTY) && P.Look(EMPTY, now) == None
  {
  }

  lemma InvAt(d: Store, k: key)
    requires Inv(d)
    ensures WellFormed(d) && P.Ok(At(d, k))
  {
  }

  lemma Untouched(d: Store, args: seq<Arg>, now: int, reply: Resp)
    requires Inv(d)
    ensures Performed(d, d, args, now, Out(Before(d, args, now), reply), reply)
  {
  }

  lemma EffectKeepsInv(d: Store, d': Store, k: key, now: int, oe: Option<Entry>)
    requires Inv(d) && Effect(d, d', k, now, oe)
    ensures Keeps(d, d')
  {
    hide At, WellFormed, P.Ok, P.Look, Plain;
    forall k2: key ensures P.Ok(At(d', k2)) {
      if k2 != k { assert P.Ok(At(d, k2)); }
    }
  }
}
