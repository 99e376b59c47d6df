/** Sets as a client sees them. */
module SetLaws {
  import opened Bytes
  import opened Keyspace
  import opened Resp
  import opened Sorting
  import opened S = CommandSpec
  import opened Client
  import opened Spelling
  import opened StringLaws
  import I = Interpreter

  predicate NoSet(oe: Option<Entry>) { oe.Some? && !oe.value.value.Members? }

  /** The members of a set, none for a missing key. */
  function SetIn(oe: Option<Entry>): set<bytes> {
    match oe case Some(Entry(Members(members), _)) => members case _ => {}
  }

  function Kept(members: set<bytes>, deadline: Option<int>): Option<Entry> {
    if members == {} then None else Some(Entry(Members(members), deadline))
  }

  lemma MeantSets(oe: Option<Entry>, words: seq<Arg>, now: int64)
    ensures Meant("SADD", oe, words, now) == SAdd(oe, words)
    ensures Meant("SREM", oe, words, now) == SRem(oe, words)
    ensures Meant("SISMEMBER", oe, words, now) == SIsMember(oe, words)
    ensures Meant("SMISMEMBER", oe, words, now) == SMIsMember(oe, words)
    ensures Meant("SMEMBERS", oe, words, now) == SMembers(oe, words)
    ensures Meant("SCARD", oe, words, now) == SCard(oe, words)
  {
    hide I.CommandOf, Ascii, Meant, S.Get, S.Set, SetNX, SetEX, GetSet, GetDel, GetEx, StrLen, Append, Increment,
         IncrementArg, Expire, Ttl, Persist, TypeName, HSet, HGet, HMGet, HList, HDel, HExists, HLen, HIncrBy, SAdd,
         SRem, SIsMember, SMIsMember, SMembers, SCard, Push, Range, LLen, Pop;
    SetNames();
    MeantIs("SADD", I.SAdd, oe, words, now);
    MeantIs("SREM", I.SRem, oe, words, now);
    MeantIs("SISMEMBER", I.SIsMember, oe, words, now);
    MeantIs("SMISMEMBER", I.SMIsMember, oe, words, now);
    MeantIs("SMEMBERS", I.SMembers, oe, words, now);
    MeantIs("SCARD", I.SCard, oe, words, now);
  }

  /** SADD: what was there and what was named, and nothing else; the reply is the growth. */
  lemma SAddLaw(oe: Option<Entry>, words: seq<Arg>, now: int64)
    requires |words| >= 3 && !NoSet(oe)
    ensures var out := Meant("SADD", oe, words, now);
            var after := SetIn(out.entry);
            && out == Out(Some(Entry(Members(after), Until(oe))), Integer(|after| - |SetIn(oe)|))
            && forall x :: x in after <==> x in SetIn(oe) || x in words[2..]
  {
    hide Meant, Ascii;
    MeantSets(oe, words, now);
    assert words[2] in words[2..] by { assert words[2..][0] == words[2]; }
    assert words[2] in Named(words[2..]);
  }

  /** SREM: what was there and not named; the reply is the loss, and an empty set is no key. */
  lemma SRemLaw(oe: Option<Entry>, words: seq<Arg>, now: int64)
    requires |words| >= 3 && !NoSet(oe)
    ensures var out := Meant("SREM", oe, words, now);
            var after := SetIn(out.entry);
            && out == Out(Kept(after, Until(oe)), Integer(|SetIn(oe)| - |after|))
            && forall x :: x in after <==> x in SetIn(oe) && x !in words[2..]
  {
    hide Meant, Ascii;
    MeantSets(oe, words, now);
  }

  lemma SIsMemberLaw(oe: Option<Entry>, words: seq<Arg>, now: int64)
    ensures Meant("SISMEMBER", oe, words, now) ==
            Out(oe, if |words| != 3 then SYNTAX
                    else if NoSet(oe) then WRONG_TYPE
                    else Integer(if words[2] in SetIn(oe) then 1 else 0))
    ensures Meant("SCARD", oe, words, now) ==
            Out(oe, if |words| != 2 then SYNTAX else if NoSet(oe) then WRONG_TYPE else Integer(|SetIn(oe)|))
  {
    hide Meant, Ascii;
    Texts();
    MeantSets(oe, words, now);
  }

  lemma SMIsMemberLaw(oe: Option<Entry>, words: seq<Arg>, now: int64)
    ensures var out := Meant("SMISMEMBER", oe, words, now);
            && out.entry == oe
            && (if |words| < 3 then out.reply == SYNTAX
                else if NoSet(oe) then out.reply == WRONG_TYPE
                else out.reply.Array? && |out.reply.items| == |words| - 2 &&
                     forall i :: 0 <= i < |words| - 2 ==>
                       out.reply.items[i] == Integer(if words[i + 2] in SetIn(oe) then 1 else 0))
  {
    hide Meant, Ascii;
    Texts();
    MeantSets(oe, words, now);
  }

  /** SMEMBERS lists the members in byte order. */
  lemma SMembersLaw(oe: Option<Entry>, words: seq<Arg>, now: int64, members: seq<bytes>)
    requires |words| == 2 && !NoSet(oe)
    requires StrictlySorted(members) && Elements(members) == SetIn(oe)
    ensures Meant("SMEMBERS", oe, words, now) == Out(oe, Array(Bulks(members)))
  {
    hide Meant, Ascii, StrictlySorted, Elements, Listing;
    ListingOf(members);
    MeantSets(oe, words, now);
  }

  lemma SetRefusals(oe: Option<Entry>, words: seq<Arg>, now: int64)
    ensures |words| < 3 ==> Meant("SADD", oe, words, now) == Meant("SREM", oe, words, now) == Out(oe, SYNTAX)
    ensures |words| >= 3 && NoSet(oe) ==>
              Meant("SADD", oe, words, now) == Meant("SREM", oe, words, now) == Out(oe, WRONG_TYPE)
    ensures |words| != 2 ==> Meant("SMEMBERS", oe, words, now) == Out(oe, SYNTAX)
    ensures |words| == 2 && NoSet(oe) ==> Meant("SMEMBERS", oe, words, now) == Out(oe, WRONG_TYPE)
  {
    hide Meant, Ascii, Listing;
    Texts();
    MeantSets(oe, words, now);
  }

  /** SISMEMBER after SADD and after SREM. */
  lemma MemberAfter(oe: Option<Entry>, words: seq<Arg>, ask: seq<Arg>, now: int64)
    requires |words| >= 3 && |ask| == 3 && !NoSet(oe)
    ensures Meant("SISMEMBER", Meant("SADD", oe, words, now).entry, ask, now).reply ==
            if ask[2] in words[2..] then Integer(1) else Meant("SISMEMBER", oe, ask, now).reply
    ensures Meant("SISMEMBER", Meant("SREM", oe, words, now).entry, ask, now).reply ==
            if ask[2] in words[2..] then Integer(0) else Meant("SISMEMBER", oe, ask, now).reply
  {
    hide Meant;
    SAddLaw(oe, words, now);
    SRemLaw(oe, words, now);
    SIsMemberLaw(oe, ask, now);
    SIsMemberLaw(Meant("SADD", oe, words, now).entry, ask, now);
    SIsMemberLaw(Meant("SREM", oe, words, now).entry, ask, now);
  }
}
