/** The commands on several keys as a client sees them: whole requests against whole keyspaces. */
module KeyLaws {
  import opened Bytes
  import opened Keys
  import opened Keyspace
  import opened Resp
  import opened Sorting
  import opened S = CommandSpec
  import opened Client
  import opened Spelling
  import opened StringLaws
  import opened HashLaws
  import Connection
  import Decimal
  import Laws
  import I = Interpreter

  /** A request whose name means a command of the whole keyspace. */
  lemma SaidIs(ks: Keyspace, now: int64, words: seq<Arg>, matcher: I.Matcher, name: string, c: I.Command)
    requires words != [] && Spells(words[0], name) && (forall x <- name :: 'A' <= x <= 'Z')
    requires I.CommandOf(Ascii(name)) == Some(c)
    ensures Said(ks, now, words, matcher) == I.Exec(ks, now, words, c, matcher)
  {
    hide I.CommandOf, I.Exec, Ascii, Upper, Spells;
    AnyCase(words[0], name);
  }

  // ---------------------------------------------------------------- MSET, MSETNX, MGET

  lemma {:induction false} UnnamedKeyIsKept(ks: Keyspace, words: seq<Arg>, i: nat, now: int, k: Arg)
    requires NoneNaming(words, i, k)
    ensures Find(I.AssignPairs(ks, words, i, now), k) == Find(ks, k)
    decreases |words| - i
  {
    if i + 1 < |words| {
      assert words[i] != k;
      UnnamedKeyIsKept(Assign(ks, words[i], StringUntil(words[i + 1], None, now)), words, i + 2, now, k);
    }
  }

  lemma {:induction false} LastIsAssigned(ks: Keyspace, words: seq<Arg>, i: nat, now: int, at: nat, k: Arg)
    requires LastNaming(words, i, at, k)
    ensures Find(I.AssignPairs(ks, words, i, now), k) == Text(words[at + 1], None)
    decreases |words| - i
  {
    BytesCodec();
    var next := Assign(ks, words[i], StringUntil(words[i + 1], None, now));
    if at == i {
      UnnamedKeyIsKept(next, words, i + 2, now, k);
    } else {
      LastIsAssigned(next, words, i + 2, now, at, k);
    }
  }

  /** Every key named holds the value of the last pair that names it; the others are as they were. */
  ghost predicate Paired(before: Keyspace, after: Keyspace, words: seq<Arg>) {
    && (forall k: Arg, at :: LastNaming(words, 1, at, k) ==> Find(after, k) == Text(words[at + 1], None))
    && (forall k: Arg :: NoneNaming(words, 1, k) ==> Find(after, k) == Find(before, k))
  }

  lemma PairsLaw(ks: Keyspace, words: seq<Arg>, now: int)
    ensures Paired(ks, I.AssignPairs(ks, words, 1, now), words)
  {
    hide I.AssignPairs, NoneNaming, Find;
    forall k: Arg, at | LastNaming(words, 1, at, k)
      ensures Find(I.AssignPairs(ks, words, 1, now), k) == Text(words[at + 1], None)
    {
      LastIsAssigned(ks, words, 1, now, at, k);
    }
    forall k: Arg | NoneNaming(words, 1, k) ensures Find(I.AssignPairs(ks, words, 1, now), k) == Find(ks, k) {
      UnnamedKeyIsKept(ks, words, 1, now, k);
    }
  }

  lemma MSetLaw(ks: Keyspace, now: int64, words: seq<Arg>, matcher: I.Matcher)
    requires words != [] && Spells(words[0], "MSET")
    ensures var (after, reply) := Said(ks, now, words, matcher);
            if |words| < 3 || |words| % 2 != 1 then after == ks && reply == SYNTAX
            else reply == OK && Paired(ks, after, words)
  {
    hide I.CommandOf, Ascii, Spells, I.AssignPairs, Paired, Said;
    Texts();
    KeyspaceNames();
    PairsLaw(ks, words, now);
    SaidIs(ks, now, words, matcher, "MSET", I.MSet);
  }

  lemma {:induction false} AnyNamedLaw(ks: Keyspace, words: seq<Arg>, i: nat)
    ensures I.AnyNamed(ks, words, i) <==> exists j :: i <= j < |words| && (j - i) % 2 == 0 && words[j] in ks
    decreases |words| - i
  {
    if i < |words| {
      AnyNamedLaw(ks, words, i + 2);
      if words[i] in ks { assert (i - i) % 2 == 0; }
      if exists j :: i + 2 <= j < |words| && (j - (i + 2)) % 2 == 0 && words[j] in ks {
        var j :| i + 2 <= j < |words| && (j - (i + 2)) % 2 == 0 && words[j] in ks;
        assert (j - i) % 2 == 0;
      }
      if exists j :: i <= j < |words| && (j - i) % 2 == 0 && words[j] in ks {
        var j :| i <= j < |words| && (j - i) % 2 == 0 && words[j] in ks;
        if j > i { assert j >= i + 2 && (j - (i + 2)) % 2 == 0; }
      }
    }
  }

  /** MSETNX assigns all or nothing: nothing as soon as one of the keys is there. */
  lemma MSetNxLaw(ks: Keyspace, now: int64, words: seq<Arg>, matcher: I.Matcher)
    requires words != [] && Spells(words[0], "MSETNX")
    ensures var (after, reply) := Said(ks, now, words, matcher);
            if |words| < 3 || |words| % 2 != 1 then after == ks && reply == SYNTAX
            else if exists j :: 1 <= j < |words| && (j - 1) % 2 == 0 && words[j] in ks then
              after == ks && reply == Integer(0)
            else reply == Integer(1) && Paired(ks, after, words)
  {
    hide I.CommandOf, Ascii, Spells, I.AssignPairs, Paired, Said, I.AnyNamed;
    Texts();
    KeyspaceNames();
    PairsLaw(ks, words, now);
    AnyNamedLaw(ks, words, 1);
    SaidIs(ks, now, words, matcher, "MSETNX", I.MSetNX);
  }

  lemma MGetLaw(ks: Keyspace, now: int64, words: seq<Arg>, matcher: I.Matcher)
    requires words != [] && Spells(words[0], "MGET")
    ensures var (after, reply) := Said(ks, now, words, matcher);
            && after == ks
            && (if |words| < 2 then reply == SYNTAX
                else if exists i :: 1 <= i < |words| && OtherType(Find(ks, words[i])) then reply == WRONG_TYPE
                else reply.Array? && |reply.items| == |words| - 1 &&
                     forall i :: 1 <= i < |words| ==> reply.items[i - 1] == Shown(Old(Find(ks, words[i]))))
  {
    hide I.CommandOf, Ascii, Spells, Said, Find;
    Texts();
    KeyspaceNames();
    SaidIs(ks, now, words, matcher, "MGET", I.MGet);
    RepliesLaw(ks, words);
  }

  lemma RepliesLaw(ks: Keyspace, words: seq<Arg>)
    requires |words| >= 1
    ensures I.AnyWrongType(ks, words) <==> exists i :: 1 <= i < |words| && OtherType(Find(ks, words[i]))
    ensures var replies := I.StringReplies(ks, words[1..]);
            forall i :: 1 <= i < |words| ==> replies[i - 1] == Shown(Old(Find(ks, words[i])))
  {
    hide Find;
    forall i | 1 <= i < |words| ensures OtherType(Find(ks, words[i])) <==> StringOf(Find(ks, words[i])).WrongType? {
    }
  }

  /** MGET after MSET tells the last value given to each key it names. */
  lemma MGetAfterMSet(ks: Keyspace, now: int64, words: seq<Arg>, ask: seq<Arg>, matcher: I.Matcher)
    requires |words| >= 3 && |words| % 2 == 1 && Spells(words[0], "MSET")
    requires |ask| >= 2 && Spells(ask[0], "MGET")
    requires forall i :: 1 <= i < |ask| ==> !NoneNaming(words, 1, ask[i])
    ensures var reply := Said(Said(ks, now, words, matcher).0, now, ask, matcher).1;
            && reply.Array? && |reply.items| == |ask| - 1
            && forall i, at :: 1 <= i < |ask| && LastNaming(words, 1, at, ask[i]) ==>
                 reply.items[i - 1] == Bulk(words[at + 1])
  {
    hide Said, Spells, Find, NoneNaming;
    var after := Said(ks, now, words, matcher).0;
    MSetLaw(ks, now, words, matcher);
    MGetLaw(after, now, ask, matcher);
    forall i | 1 <= i < |ask| ensures !OtherType(Find(after, ask[i])) {
      var at := LastIndex(words, 1, ask[i]);
      assert Find(after, ask[i]) == Text(words[at + 1], None) by { AtHolds(ks, after, words, at, ask[i]); }
    }
    forall i, at | 1 <= i < |ask| && LastNaming(words, 1, at, ask[i])
      ensures Shown(Old(Find(after, ask[i]))) == Bulk(words[at + 1])
    {
      AtHolds(ks, after, words, at, ask[i]);
    }
  }

  lemma AtHolds(before: Keyspace, after: Keyspace, words: seq<Arg>, at: nat, k: Arg)
    requires Paired(before, after, words) && LastNaming(words, 1, at, k)
    ensures at + 1 < |words| && Find(after, k) == Text(words[at + 1], None)
  {
  }

  /** A key that some pair names is named last somewhere. */
  ghost function LastIndex(words: seq<Arg>, from: nat, k: Arg): (at: nat)
    requires !NoneNaming(words, from, k) && |words| >= from && (|words| - from) % 2 == 0
    ensures LastNaming(words, from, at, k)
  {
    var j :| from <= j < |words| && (j - from) % 2 == 0 && words[j] == k;
    LastAfter(words, from, j, k);
    var at: nat :| LastNaming(words, from, at, k);
    at
  }

  lemma {:induction false} LastAfter(words: seq<Arg>, from: nat, j: nat, k: Arg)
    requires from <= j < |words| && (j - from) % 2 == 0 && words[j] == k && (|words| - from) % 2 == 0
    ensures exists at: nat :: LastNaming(words, from, at, k)
    decreases |words| - j
  {
    if n: nat :| j < n < |words| && (n - from) % 2 == 0 && words[n] == k {
      LastAfter(words, from, n, k);
    } else {
      assert LastNaming(words, from, j, k);
    }
  }

  // ---------------------------------------------------------------- DEL, EXISTS

  lemma {:induction false} RemovedLaw(ks: Keyspace, words: seq<Arg>, i: nat, k: key)
    requires i <= |words|
    ensures Find(I.RemoveNamed(ks, words, i), k) == if k in words[i..] then None else Find(ks, k)
    decreases |words| - i
  {
    if i < |words| {
      assert words[i..] == [words[i]] + words[i + 1..];
      RemovedLaw(ks - {words[i]}, words, i + 1, k);
    }
  }

  lemma {:induction false} RemovedCount(ks: Keyspace, words: seq<Arg>, i: nat)
    ensures I.CountRemoved(ks, words, i) == |ks| - |I.RemoveNamed(ks, words, i)|
    decreases |words| - i
  {
    if i < |words| {
      var next := ks - {words[i]};
      assert next.Keys == ks.Keys - {words[i]};
      assert |next| == |ks| - if words[i] in ks then 1 else 0 by {
        assert |next| == |next.Keys| && |ks| == |ks.Keys|;
        if words[i] !in ks { assert next.Keys == ks.Keys; }
      }
      RemovedCount(next, words, i + 1);
    }
  }

  /** DEL and UNLINK remove the named keys and no other; the reply is how many there were. */
  lemma DelLaw(ks: Keyspace, now: int64, words: seq<Arg>, matcher: I.Matcher)
    requires words != [] && (Spells(words[0], "DEL") || Spells(words[0], "UNLINK"))
    ensures var (after, reply) := Said(ks, now, words, matcher);
            if |words| < 2 then after == ks && reply == SYNTAX
            else reply == Integer(|ks| - |after|) &&
                 forall k: key :: Find(after, k) == if k in words[1..] then None else Find(ks, k)
  {
    hide I.CommandOf, Ascii, Spells, Said, Find, I.RemoveNamed, I.CountRemoved;
    Texts();
    KeyspaceNames();
    if Spells(words[0], "DEL") {
      SaidIs(ks, now, words, matcher, "DEL", I.Del);
    } else {
      SaidIs(ks, now, words, matcher, "UNLINK", I.Del);
    }
    RemovedCount(ks, words, 1);
    forall k: key ensures Find(I.RemoveNamed(ks, words, 1), k) == if k in words[1..] then None else Find(ks, k) {
      RemovedLaw(ks, words, 1, k);
    }
  }

  lemma {:induction false} NamedCount(ks: Keyspace, words: seq<Arg>, i: nat)
    ensures I.CountNamed(ks, words, i) == |set j | i <= j < |words| && words[j] in ks|
    decreases |words| - i
  {
    if i < |words| {
      NamedCount(ks, words, i + 1);
      var rest := set j | i + 1 <= j < |words| && words[j] in ks;
      var all := set j | i <= j < |words| && words[j] in ks;
      assert all == if words[i] in ks then rest + {i} else rest;
    }
  }

  /** EXISTS counts the arguments that name a key, one that is named twice twice. */
  lemma ExistsLaw(ks: Keyspace, now: int64, words: seq<Arg>, matcher: I.Matcher)
    requires words != [] && Spells(words[0], "EXISTS")
    ensures Said(ks, now, words, matcher) ==
            (ks, if |words| < 2 then SYNTAX else Integer(|set j | 1 <= j < |words| && words[j] in ks|))
  {
    hide I.CommandOf, Ascii, Spells, Said, I.CountNamed;
    Texts();
    KeyspaceNames();
    SaidIs(ks, now, words, matcher, "EXISTS", I.Exists);
    NamedCount(ks, words, 1);
  }

  lemma DbSizeLaw(ks: Keyspace, now: int64, words: seq<Arg>, matcher: I.Matcher)
    requires words != [] && Spells(words[0], "DBSIZE")
    ensures Said(ks, now, words, matcher) == (ks, if |words| != 1 then SYNTAX else Integer(|ks|))
  {
    hide I.CommandOf, Ascii, Spells, Said;
    Texts();
    KeyspaceNames();
    SaidIs(ks, now, words, matcher, "DBSIZE", I.DbSize);
  }

  lemma FlushLaw(ks: Keyspace, now: int64, words: seq<Arg>, matcher: I.Matcher)
    requires words != [] && (Spells(words[0], "FLUSHDB") || Spells(words[0], "FLUSHALL"))
    ensures Said(ks, now, words, matcher) == if |words| > 2 then (ks, SYNTAX) else (map[], OK)
  {
    hide I.CommandOf, Ascii, Spells, Said;
    Texts();
    KeyspaceNames();
    if Spells(words[0], "FLUSHDB") {
      SaidIs(ks, now, words, matcher, "FLUSHDB", I.Flush);
    } else {
      SaidIs(ks, now, words, matcher, "FLUSHALL", I.Flush);
    }
  }

  // ---------------------------------------------------------------- KEYS, SCAN

  /** The names of the keys that match, in byte order. */
  ghost predicate Discovered(names: seq<bytes>, ks: Keyspace, pattern: bytes, matcher: I.Matcher) {
    StrictlySorted(names) && forall name: bytes :: name in names <==> name in ks.Keys && matcher(pattern, name)
  }

  lemma NamesLaw(ks: Keyspace)
    ensures StrictlySorted(I.KeyNames(ks)) && forall name: bytes :: name in I.KeyNames(ks) <==> name in ks.Keys
  {
    var keys := set k: bytes | k in ks.Keys;
    var names := Listing(keys);
    assert forall name: bytes :: name in names <==> name in Elements(names);
  }

  lemma DiscoveredLaw(ks: Keyspace, pattern: bytes, matcher: I.Matcher)
    ensures Discovered(I.Matching(matcher, pattern, I.KeyNames(ks)), ks, pattern, matcher)
  {
    hide I.Matching, I.KeyNames, StrictlySorted;
    NamesLaw(ks);
    Laws.MatchingIsExact(matcher, pattern, I.KeyNames(ks));
  }

  lemma DiscoveredOnce(a: seq<bytes>, b: seq<bytes>, ks: Keyspace, pattern: bytes, matcher: I.Matcher)
    requires Discovered(a, ks, pattern, matcher) && Discovered(b, ks, pattern, matcher)
    ensures a == b
  {
    ListingIsUnique(a, b);
  }

  /** KEYS lists the matching names, all of them, once, in byte order. */
  lemma KeysLaw(ks: Keyspace, now: int64, words: seq<Arg>, matcher: I.Matcher, names: seq<bytes>)
    requires words != [] && Spells(words[0], "KEYS")
    requires |words| == 2 ==> Discovered(names, ks, words[1], matcher)
    ensures Said(ks, now, words, matcher) == (ks, if |words| != 2 then SYNTAX else Array(Bulks(names)))
  {
    hide I.CommandOf, Ascii, Spells, Said, Discovered, I.Matching, I.KeyNames;
    Texts();
    KeyspaceNames();
    SaidIs(ks, now, words, matcher, "KEYS", I.KeysMatching);
    if |words| == 2 {
      DiscoveredLaw(ks, words[1], matcher);
      DiscoveredOnce(names, I.Matching(matcher, words[1], I.KeyNames(ks)), ks, words[1], matcher);
    }
  }

  /** A page of at most `count` names from the cursor on, after the cursor of the next page, which
      is 0 when there is none. */
  function Page(names: seq<bytes>, cursor: nat, count: nat): Resp {
    if cursor + count < |names| then
      Array([Bulk(Decimal.Format(cursor + count)), Array(Bulks(names[cursor..cursor + count]))])
    else
      Array([Bulk(Ascii("0")), Array(Bulks(if cursor < |names| then names[cursor..] else []))])
  }

  lemma PageLaw(names: seq<bytes>, cursor: nat, count: nat)
    ensures I.ScanPage(names, cursor, count) == Page(names, cursor, count)
  {
    assert Decimal.Format(0) == [48] == Ascii("0");
    hide Decimal.Format, Ascii;
    assert Bulks([]) == [];
    if cursor < |names| { assert names[cursor..|names|] == names[cursor..]; }
  }

  lemma ScanLaw(ks: Keyspace, now: int64, words: seq<Arg>, matcher: I.Matcher, names: seq<bytes>, cursor: nat,
                o: I.ScanOptions)
    requires |words| >= 2 && Spells(words[0], "SCAN") && I.ParseNonNegative(words[1]) == Some(cursor)
    requires I.ParseScan(words, 2, I.SCAN_DEFAULTS) == Good(o) && Discovered(names, ks, o.pattern, matcher)
    ensures Said(ks, now, words, matcher) == (ks, Page(names, cursor, o.count))
  {
    hide I.CommandOf, Ascii, Spells, Said, Discovered, I.Matching, I.KeyNames, I.ScanPage, Page, I.ParseScan,
         I.ParseNonNegative;
    KeyspaceNames();
    SaidIs(ks, now, words, matcher, "SCAN", I.Scan);
    DiscoveredLaw(ks, o.pattern, matcher);
    DiscoveredOnce(names, I.Matching(matcher, o.pattern, I.KeyNames(ks)), ks, o.pattern, matcher);
    PageLaw(names, cursor, o.count);
  }

  /** SCAN on its own shows ten names at a time, whatever they are. */
  lemma ScanPlainLaw(ks: Keyspace, now: int64, words: seq<Arg>, matcher: I.Matcher, names: seq<bytes>, cursor: nat)
    requires |words| == 2 && Spells(words[0], "SCAN") && cursor <= MAX_INT64
    requires Decimal.ParseInt64(words[1]) == Some(cursor) && Discovered(names, ks, Ascii("*"), matcher)
    ensures Said(ks, now, words, matcher) == (ks, Page(names, cursor, 10))
  {
    hide Ascii, Spells, Said, Discovered, Page, Decimal.ParseInt64;
    ScanLaw(ks, now, words, matcher, names, cursor, I.ScanOptions(Ascii("*"), 10));
  }

  lemma OptionBytes()
    ensures Ascii("MATCH") != Ascii("COUNT") && Ascii("TYPE") != Ascii("COUNT") && Ascii("TYPE") != Ascii("MATCH")
  {
    assert Ascii("MATCH")[0] == 77 && Ascii("COUNT")[0] == 67 && Ascii("TYPE")[0] == 84;
  }

  /** COUNT sets the size of the page, 0 meaning ten. */
  lemma ScanCountLaw(ks: Keyspace, now: int64, words: seq<Arg>, matcher: I.Matcher, names: seq<bytes>, cursor: nat,
                     n: nat)
    requires |words| == 4 && Spells(words[0], "SCAN") && cursor <= MAX_INT64 && n <= MAX_INT64
    requires Decimal.ParseInt64(words[1]) == Some(cursor) && Discovered(names, ks, Ascii("*"), matcher)
    requires Upper(words[2]) == Ascii("COUNT") && Decimal.ParseInt64(words[3]) == Some(n)
    ensures Said(ks, now, words, matcher) == (ks, Page(names, cursor, if n == 0 then 10 else n))
  {
    OptionBytes();
    hide Ascii, Upper, Spells, Said, Discovered, Page, Decimal.ParseInt64;
    var o := I.ScanOptions(Ascii("*"), if n == 0 then 10 else n);
    assert I.ParseScan(words, 4, o) == Good(o);
    ScanLaw(ks, now, words, matcher, names, cursor, o);
  }

  /** MATCH sets the pattern, and TYPE nothing. */
  lemma ScanMatchLaw(ks: Keyspace, now: int64, words: seq<Arg>, matcher: I.Matcher, names: seq<bytes>, cursor: nat)
    requires |words| == 4 && Spells(words[0], "SCAN") && cursor <= MAX_INT64
    requires Decimal.ParseInt64(words[1]) == Some(cursor)
    requires Upper(words[2]) == Ascii("MATCH") || Upper(words[2]) == Ascii("TYPE")
    requires Discovered(names, ks, if Upper(words[2]) == Ascii("MATCH") then words[3] else Ascii("*"), matcher)
    ensures Said(ks, now, words, matcher) == (ks, Page(names, cursor, 10))
  {
    OptionBytes();
    hide Ascii, Upper, Spells, Said, Discovered, Page, Decimal.ParseInt64;
    var o := I.ScanOptions(if Upper(words[2]) == Ascii("MATCH") then words[3] else Ascii("*"), 10);
    assert I.ParseScan(words, 4, o) == Good(o);
    ScanLaw(ks, now, words, matcher, names, cursor, o);
  }

  lemma ScanRefusals(ks: Keyspace, now: int64, words: seq<Arg>, matcher: I.Matcher)
    requires words != [] && Spells(words[0], "SCAN")
    ensures |words| == 1 ==> Said(ks, now, words, matcher) == (ks, SYNTAX)
    ensures |words| >= 2 && Decimal.ParseInt64(words[1]).None? ==> Said(ks, now, words, matcher) == (ks, NOT_INTEGER)
    ensures |words| >= 2 && Decimal.ParseInt64(words[1]).Some? && Decimal.ParseInt64(words[1]).value < 0 ==>
              Said(ks, now, words, matcher) == (ks, NOT_INTEGER)
    ensures |words| == 3 && Decimal.ParseInt64(words[1]).Some? && Decimal.ParseInt64(words[1]).value >= 0 ==>
              Said(ks, now, words, matcher) == (ks, SYNTAX)
  {
    hide I.CommandOf, Ascii, Upper, Spells, Said, I.Matching, I.KeyNames, I.ScanPage, Decimal.ParseInt64;
    Texts();
    KeyspaceNames();
    SaidIs(ks, now, words, matcher, "SCAN", I.Scan);
  }
}
