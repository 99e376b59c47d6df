/** Set commands of redis_commands.go. */
module SetCommands {
  import opened Bytes
  import opened Keys
  import opened Layout
  import opened Keyspace
  import opened Resp
  import opened LogicalKeys
  import opened RedisStorage
  import opened Effects
  import opened Sorting
  import opened S = CommandSpec
  import P = Probe
  import M = Meaning

  function SetBundle(members: set<bytes>, ttl: Option<int64>): Bundle {
    EMPTY.(members := members, ttl := ttl)
  }

  lemma SetLooks(members: set<bytes>, ttl: Option<int64>, now: int)
    requires !Passed(ttl, now) && (members == {} ==> ttl.None?)
    ensures P.Ok(SetBundle(members, ttl)) && P.Look(SetBundle(members, ttl), now) == SetUntil(members, ttl)
  {
  }

  ghost predicate Opened(b: Bundle, members: set<bytes>, ttl: Option<int64>, oe: Option<Entry>, now: int) {
    && b == SetBundle(members, ttl) && members == MembersIn(oe) && (members == {} <==> oe.None?)
    && ttl == DeadlineIn(oe) && !Passed(ttl, now) && (oe.None? ==> ttl.None?)
  }

  lemma PrunedSet(b: Bundle, now: int)
    requires P.Ok(b) && !SetOf(P.Look(b, now)).WrongType?
    ensures var b' := M.Pruned(b, now); Opened(b', b'.members, b'.ttl, P.Look(b, now), now)
  {
    M.PrunedIsKept(b, now);
  }

  /** After its type is known to be set or none, a key holds members under a live deadline. */
  method OpenSet(db: Database, k: key, ghost oe: Option<Entry>)
      returns (kind: Kind, ghost members: set<bytes>, ghost ttl: Option<int64>)
    requires Inv(db.engine.data) && oe == P.Look(At(db.engine.data, k), db.now)
    modifies db.engine
    ensures Effect(old(db.engine.data), db.engine.data, k, db.now, oe) && kind == KindOf(oe)
    ensures !SetOf(oe).WrongType? ==> Opened(At(db.engine.data, k), members, ttl, oe, db.now)
  {
    hide At, WellFormed, Inv, P.Ok, P.Look, P.Type;
    InvAt(db.engine.data, k);
    M.PrunedIsKept(At(db.engine.data, k), db.now);
    if !SetOf(oe).WrongType? { PrunedSet(At(db.engine.data, k), db.now); }
    kind := db.Type(k);
    members, ttl := At(db.engine.data, k).members, At(db.engine.data, k).ttl;
  }

  lemma NameOneMore(args: seq<Arg>, i: nat)
    requires 2 <= i < |args|
    ensures Named(args[2..i + 1]) == Named(args[2..i]) + {args[i]}
  {
    assert args[2..i + 1] == args[2..i] + [args[i]];
  }

  /** Members one at a time; each counts when it was not there yet. */
  method AddListed(db: Database, k: key, args: seq<Arg>, ghost members: set<bytes>, ghost ttl: Option<int64>)
      returns (added: int)
    requires WellFormed(db.engine.data) && At(db.engine.data, k) == SetBundle(members, ttl) && |args| >= 2
    modifies db.engine
    ensures Stepped(old(db.engine.data), db.engine.data, k, SetBundle(members + Named(args[2..]), ttl))
    ensures added == |members + Named(args[2..])| - |members|
  {
    hide At, WellFormed, Named;
    added := 0;
    ghost var current := members;
    assert args[2..2] == [] && Named([]) == {} by { NamedNothing(); }
    for i := 2 to |args|
      invariant current == members + Named(args[2..i])
      invariant Stepped(old(db.engine.data), db.engine.data, k, SetBundle(current, ttl))
      invariant added == |current| - |members|
    {
      NameOneMore(args, i);
      DropTwice(members, Named(args[2..i]), args[i]);
      var found := db.HasMember(k, args[i]);
      if !found {
        db.PutMember(k, args[i]);
        added := added + 1;
      }
      AddOne(current, args[i]);
      current := current + {args[i]};
    }
    assert args[2..|args|] == args[2..];
  }

  lemma AddOne(s: set<bytes>, x: bytes)
    ensures |s + {x}| == |s| + if x in s then 0 else 1
    ensures x in s ==> s + {x} == s
  {
    if x in s { assert s + {x} == s; }
  }

  lemma DropOne(s: set<bytes>, x: bytes)
    ensures |s - {x}| == |s| - if x in s then 1 else 0
    ensures x !in s ==> s - {x} == s
  {
    if x !in s { assert s - {x} == s; }
  }

  lemma DropTwice(s: set<bytes>, a: set<bytes>, x: bytes)
    ensures s - (a + {x}) == s - a - {x} && s + (a + {x}) == s + a + {x}
  {
  }

  lemma NamedNothing()
    ensures Named([]) == {}
  {
  }

  method SAdd(db: Database, args: seq<Arg>) returns (r: Resp)
    requires Inv(db.engine.data) && db.now >= 0
    modifies db.engine
    ensures Performed(old(db.engine.data), db.engine.data, args, db.now,
                      S.SAdd(Before(old(db.engine.data), args, db.now), args), r)
  {
    hide At, WellFormed, Inv, P.Ok, P.Look, Named;
    Untouched(db.engine.data, args, db.now, SyntaxError());
    if |args| < 3 { return SyntaxError(); }
    ghost var oe := P.Look(At(db.engine.data, args[1]), db.now);
    var kind, members, ttl := OpenSet(db, args[1], oe);
    if kind != NoKind && kind != SetKind { return WrongTypeError(); }
    if kind == NoKind { db.DeleteTtl(args[1]); }
    var added := AddListed(db, args[1], args, members, ttl);
    ThirdIsNamed(args);
    SetLooks(members + Named(args[2..]), ttl, db.now);
    return Integer(added);
  }

  lemma ThirdIsNamed(args: seq<Arg>)
    requires |args| >= 3
    ensures args[2] in Named(args[2..])
  {
    assert args[2..][0] == args[2];
  }

  method RemoveMember(db: Database, k: key, m: Arg, ghost members: set<bytes>, ghost ttl: Option<int64>)
      returns (n: int)
    requires WellFormed(db.engine.data) && At(db.engine.data, k) == SetBundle(members, ttl)
    modifies db.engine
    ensures Stepped(old(db.engine.data), db.engine.data, k, SetBundle(members - {m}, ttl))
    ensures n == |members| - |members - {m}|
  {
    hide At, WellFormed;
    DropOne(members, m);
    var found := db.HasMember(k, m);
    if !found { return 0; }
    db.DeleteMember(k, m);
    return 1;
  }

  method RemoveListed(db: Database, k: key, args: seq<Arg>, ghost members: set<bytes>, ghost ttl: Option<int64>)
      returns (removed: int)
    requires WellFormed(db.engine.data) && At(db.engine.data, k) == SetBundle(members, ttl) && |args| >= 2
    modifies db.engine
    ensures Stepped(old(db.engine.data), db.engine.data, k, SetBundle(members - Named(args[2..]), ttl))
    ensures removed == |members| - |members - Named(args[2..])|
  {
    hide At, WellFormed, Named, SetBundle;
    removed := 0;
    ghost var current := members;
    assert args[2..2] == [] && Named([]) == {} by { NamedNothing(); }
    for i := 2 to |args|
      invariant current == members - Named(args[2..i])
      invariant Stepped(old(db.engine.data), db.engine.data, k, SetBundle(current, ttl))
      invariant removed == |members| - |current|
    {
      NameOneMore(args, i);
      DropTwice(members, Named(args[2..i]), args[i]);
      var n := RemoveMember(db, k, args[i], current, ttl);
      removed, current := removed + n, current - {args[i]};
    }
    assert args[2..|args|] == args[2..];
  }

  lemma MembersAfterRemoval(members: set<bytes>, ttl: Option<int64>, now: int)
    requires !Passed(ttl, now)
    ensures P.SetMembers(SetBundle(members, ttl), now) ==
        (if members == {} then Missing else Found(members), SetBundle(members, ttl))
  {
  }

  method SRem(db: Database, args: seq<Arg>) returns (r: Resp)
    requires Inv(db.engine.data) && db.now >= 0
    modifies db.engine
    ensures Performed(old(db.engine.data), db.engine.data, args, db.now,
                      S.SRem(Before(old(db.engine.data), args, db.now), args), r)
  {
    hide At, WellFormed, Inv, P.Ok, P.Look, P.SetMembers, Named;
    Untouched(db.engine.data, args, db.now, SyntaxError());
    if |args| < 3 { return SyntaxError(); }
    ghost var oe := P.Look(At(db.engine.data, args[1]), db.now);
    var kind, members, ttl := OpenSet(db, args[1], oe);
    if kind == NoKind { return Integer(0); }
    if kind != SetKind { return WrongTypeError(); }
    ghost var after := members - Named(args[2..]);
    MembersAfterRemoval(after, ttl, db.now);
    SetLooks(after, if after == {} then None else ttl, db.now);
    var removed := RemoveListed(db, args[1], args, members, ttl);
    var left := db.SetMembers(args[1]);
    if !left.Found? {
      var _ := db.DeleteRaw(args[1]);
    }
    return Integer(removed);
  }

  method IsMember(db: Database, k: key, m: Arg) returns (r: Lookup<bool>)
    requires Inv(db.engine.data)
    modifies db.engine
    ensures var oe := P.Look(At(old(db.engine.data), k), db.now);
            && Effect(old(db.engine.data), db.engine.data, k, db.now, oe)
            && r == if SetOf(oe).WrongType? then WrongType else Found(m in MembersIn(oe))
  {
    hide At, WellFormed, Inv, P.Ok, P.Look;
    ghost var oe := P.Look(At(db.engine.data, k), db.now);
    var kind, members, ttl := OpenSet(db, k, oe);
    if kind == NoKind { return Found(false); }
    if kind != SetKind { return WrongType; }
    var found := db.HasMember(k, m);
    return Found(found);
  }

  method SIsMember(db: Database, args: seq<Arg>) returns (r: Resp)
    requires Inv(db.engine.data) && db.now >= 0
    modifies db.engine
    ensures Performed(old(db.engine.data), db.engine.data, args, db.now,
                      S.SIsMember(Before(old(db.engine.data), args, db.now), args), r)
  {
    hide At, WellFormed, Inv, P.Ok, P.Look, SetOf, MembersIn;
    Untouched(db.engine.data, args, db.now, SyntaxError());
    if |args| != 3 { return SyntaxError(); }
    var found := IsMember(db, args[1], args[2]);
    return if found.Found? then Flag(found.value) else WrongTypeError();
  }

  method SMIsMember(db: Database, args: seq<Arg>) returns (r: Resp)
    requires Inv(db.engine.data) && db.now >= 0
    modifies db.engine
    ensures Performed(old(db.engine.data), db.engine.data, args, db.now,
                      S.SMIsMember(Before(old(db.engine.data), args, db.now), args), r)
  {
    hide At, WellFormed, Inv, P.Ok, P.Look, SetOf, MembersIn;
    Untouched(db.engine.data, args, db.now, SyntaxError());
    if |args| < 3 { return SyntaxError(); }
    InvAt(db.engine.data, args[1]);
    ghost var oe := P.Look(At(db.engine.data, args[1]), db.now);
    var items: seq<Resp> := [];
    for i := 2 to |args|
      invariant Inv(db.engine.data)
      invariant Effect(old(db.engine.data), db.engine.data, args[1], db.now, oe)
      invariant SetOf(oe).WrongType? ==> i == 2
      invariant |items| == i - 2 && forall j :: 0 <= j < i - 2 ==> items[j] == Flag(args[j + 2] in MembersIn(oe))
    {
      ghost var d := db.engine.data;
      var found := IsMember(db, args[1], args[i]);
      EffectKeepsInv(d, db.engine.data, args[1], db.now, oe);
      if found.WrongType? { return WrongTypeError(); }
      items := items + [Flag(found == Found(true))];
    }
    assert items == seq(|args| - 2, i requires 0 <= i < |args| - 2 => Flag(args[i + 2] in MembersIn(oe)));
    return Array(items);
  }

  method OldMembers(db: Database, k: key) returns (r: Lookup<set<bytes>>)
    requires Inv(db.engine.data)
    modifies db.engine
    ensures var oe := P.Look(At(old(db.engine.data), k), db.now);
            Effect(old(db.engine.data), db.engine.data, k, db.now, oe) && r == SetOf(oe)
  {
    hide At, WellFormed, Inv, P.Ok, P.Look, P.SetMembers, SetOf;
    InvAt(db.engine.data, k);
    M.SetMembersMeans(At(db.engine.data, k), db.now);
    r := db.SetMembers(k);
  }

  method SMembers(db: Database, args: seq<Arg>) returns (r: Resp)
    requires Inv(db.engine.data) && db.now >= 0
    modifies db.engine
    ensures Performed(old(db.engine.data), db.engine.data, args, db.now,
                      S.SMembers(Before(old(db.engine.data), args, db.now), args), r)
  {
    hide At, WellFormed, Inv, P.Ok, P.Look, SetOf;
    Untouched(db.engine.data, args, db.now, SyntaxError());
    if |args| != 2 { return SyntaxError(); }
    var members := OldMembers(db, args[1]);
    if members.WrongType? { return WrongTypeError(); }
    var names := ListSet(if members.Found? then members.value else {});
    return Array(Bulks(names));
  }

  method SCard(db: Database, args: seq<Arg>) returns (r: Resp)
    requires Inv(db.engine.data) && db.now >= 0
    modifies db.engine
    ensures Performed(old(db.engine.data), db.engine.data, args, db.now,
                      S.SCard(Before(old(db.engine.data), args, db.now), args), r)
  {
    hide At, WellFormed, Inv, P.Ok, P.Look, SetOf;
    Untouched(db.engine.data, args, db.now, SyntaxError());
    if |args| != 2 { return SyntaxError(); }
    var members := OldMembers(db, args[1]);
    if members.WrongType? { return WrongTypeError(); }
    return Integer(if members.Found? then |members.value| else 0);
  }
}
