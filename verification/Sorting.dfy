/** sort.Strings on distinct byte strings: the byte-wise order, the one sorted listing a
    finite set has, and the sort that produces it from any visit order. */
module Sorting {
  import opened Bytes

  predicate Less(a: bytes, b: bytes) {
    b != [] && (a == [] || a[0] < b[0] || (a[0] == b[0] && Less(a[1..], b[1..])))
  }

  lemma {:induction false} LessIsTotal(a: bytes, b: bytes)
    ensures a == b || Less(a, b) || Less(b, a)
    ensures !(Less(a, b) && Less(b, a))
    decreases |a|
  {
    if a != [] && b != [] {
      LessIsTotal(a[1..], b[1..]);
      assert a[0] == b[0] && a[1..] == b[1..] ==> a == b by {
        assert a == [a[0]] + a[1..] && b == [b[0]] + b[1..];
      }
    }
  }

  /** The first position where they differ: one ends there, or has the smaller byte. */
  predicate DifferAt(a: bytes, b: bytes, i: nat) {
    i <= |a| && i < |b| && a[..i] == b[..i] && (i == |a| || a[i] < b[i])
  }

  /** Byte order: decided at the first difference, and a prefix comes before what extends it. */
  lemma {:induction false} LessIsFirstDifference(a: bytes, b: bytes)
    ensures Less(a, b) <==> exists i: nat :: DifferAt(a, b, i)
    decreases |a|
  {
    if Less(a, b) {
      if a == [] || a[0] < b[0] {
        assert DifferAt(a, b, 0);
      } else {
        LessIsFirstDifference(a[1..], b[1..]);
        var i: nat :| DifferAt(a[1..], b[1..], i);
        assert a[..i + 1] == [a[0]] + a[1..][..i] && b[..i + 1] == [b[0]] + b[1..][..i];
        assert DifferAt(a, b, i + 1);
      }
    }
    if i: nat :| DifferAt(a, b, i) {
      if i > 0 {
        assert a[0] == a[..i][0] == b[..i][0] == b[0];
        assert a[1..][..i - 1] == a[..i][1..] && b[1..][..i - 1] == b[..i][1..];
        assert DifferAt(a[1..], b[1..], i - 1);
        LessIsFirstDifference(a[1..], b[1..]);
      }
    }
  }

  lemma {:induction false} LessIsTransitive(a: bytes, b: bytes, c: bytes)
    requires Less(a, b) && Less(b, c)
    ensures Less(a, c)
    decreases |a|
  {
    if a != [] && a[0] == b[0] == c[0] {
      LessIsTransitive(a[1..], b[1..], c[1..]);
    }
  }

  ghost predicate StrictlySorted(s: seq<bytes>) {
    forall i, j :: 0 <= i < j < |s| ==> Less(s[i], s[j])
  }

  ghost function Elements(s: seq<bytes>): set<bytes> { set x | x in s }

  /** A set has one strictly sorted listing. */
  lemma {:induction false} ListingIsUnique(a: seq<bytes>, b: seq<bytes>)
    requires StrictlySorted(a) && StrictlySorted(b) && Elements(a) == Elements(b)
    ensures a == b
    decreases |a|
  {
    assert a != [] ==> a[0] in Elements(a);
    assert b != [] ==> b[0] in Elements(b);
    if a != [] && b != [] {
      FirstIsLeast(a, b);
      FirstIsLeast(b, a);
      LessIsTotal(a[0], b[0]);
      TailElements(a);
      TailElements(b);
      ListingIsUnique(a[1..], b[1..]);
      assert a == [a[0]] + a[1..] && b == [b[0]] + b[1..];
    }
  }

  lemma FirstIsLeast(a: seq<bytes>, b: seq<bytes>)
    requires a != [] && b != [] && StrictlySorted(a) && Elements(a) == Elements(b)
    ensures a[0] == b[0] || Less(a[0], b[0])
  {
    assert b[0] in Elements(b);
    var i :| 0 <= i < |a| && a[i] == b[0];
  }

  lemma TailElements(a: seq<bytes>)
    requires a != [] && StrictlySorted(a)
    ensures Elements(a[1..]) == Elements(a) - {a[0]} && StrictlySorted(a[1..])
  {
    LessIsTotal(a[0], a[0]);
    forall x | x in Elements(a) && x != a[0] ensures x in a[1..] {
      var i :| 0 <= i < |a| && a[i] == x;
      assert a[1..][i - 1] == x;
    }
  }

  ghost predicate IsLeast(m: bytes, s: set<bytes>) {
    m in s && forall x <- s :: x == m || Less(m, x)
  }

  lemma {:induction false} LeastExists(s: set<bytes>)
    requires s != {}
    ensures exists m :: IsLeast(m, s)
    decreases |s|
  {
    var x :| x in s;
    if s == {x} {
      assert IsLeast(x, s);
    } else {
      var rest := s - {x};
      assert s == rest + {x};
      LeastExists(rest);
      var m :| IsLeast(m, rest);
      LessIsTotal(m, x);
      if Less(m, x) {
        assert IsLeast(m, s);
      } else {
        forall y <- rest ensures Less(x, y) {
          if y != m { LessIsTransitive(x, m, y); }
        }
        assert IsLeast(x, s);
      }
    }
  }

  lemma LeastFirst(m: bytes, s: set<bytes>, rest: seq<bytes>)
    requires IsLeast(m, s) && StrictlySorted(rest) && Elements(rest) == s - {m}
    ensures StrictlySorted([m] + rest) && Elements([m] + rest) == s
  {
    forall j | 0 <= j < |rest| ensures Less(m, rest[j]) {
      assert rest[j] in Elements(rest);
    }
    assert forall x :: x in [m] + rest <==> x == m || x in Elements(rest);
  }

  /** The sorted listing of a finite set. */
  ghost function Listing(s: set<bytes>): (r: seq<bytes>)
    ensures StrictlySorted(r) && Elements(r) == s && |r| == |s|
    decreases |s|
  {
    if s == {} then []
    else
      LeastExists(s);
      var m :| IsLeast(m, s);
      var rest := Listing(s - {m});
      LeastFirst(m, s, rest);
      [m] + rest
  }

  lemma ListingOf(r: seq<bytes>)
    requires StrictlySorted(r)
    ensures r == Listing(Elements(r))
  {
    ListingIsUnique(r, Listing(Elements(r)));
  }

  /** Where `x` belongs in a sorted listing that does not hold it. */
  method Position(r: seq<bytes>, x: bytes) returns (i: nat)
    requires StrictlySorted(r) && x !in r
    ensures i <= |r|
    ensures forall j :: 0 <= j < i ==> Less(r[j], x)
    ensures forall j :: i <= j < |r| ==> Less(x, r[j])
  {
    i := 0;
    while i < |r| && Less(r[i], x)
      invariant i <= |r|
      invariant forall j :: 0 <= j < i ==> Less(r[j], x)
    {
      i := i + 1;
    }
    forall j | i <= j < |r| ensures Less(x, r[j]) {
      LessIsTotal(r[i], x);
      if i < j { LessIsTransitive(x, r[i], r[j]); }
    }
  }

  lemma InsertionIsSorted(r: seq<bytes>, x: bytes, i: nat)
    requires StrictlySorted(r) && i <= |r|
    requires forall j :: 0 <= j < i ==> Less(r[j], x)
    requires forall j :: i <= j < |r| ==> Less(x, r[j])
    ensures StrictlySorted(r[..i] + [x] + r[i..])
    ensures Elements(r[..i] + [x] + r[i..]) == Elements(r) + {x}
  {
    var s := r[..i] + [x] + r[i..];
    forall a, b | 0 <= a < b < |s| ensures Less(s[a], s[b]) {
      if a < i && b > i { assert s[b] == r[b - 1]; }
    }
    assert r == r[..i] + r[i..];
  }

  /** Sorting distinct strings, in whatever order they were visited, lists their set. */
  method Sort(xs: seq<bytes>) returns (r: seq<bytes>)
    requires forall i, j :: 0 <= i < j < |xs| ==> xs[i] != xs[j]
    ensures r == Listing(Elements(xs))
  {
    r := [];
    for n := 0 to |xs|
      invariant StrictlySorted(r) && Elements(r) == Elements(xs[..n])
    {
      assert xs[n] !in xs[..n];
      assert xs[n] !in r by { assert xs[n] !in Elements(r); }
      var i := Position(r, xs[n]);
      InsertionIsSorted(r, xs[n], i);
      r := r[..i] + [xs[n]] + r[i..];
      assert xs[..n + 1] == xs[..n] + [xs[n]];
    }
    assert xs[..|xs|] == xs;
    ListingOf(r);
  }

  /** Visit a set in an arbitrary order, as ranging over a map does, then sort. */
  method ListSet(s: set<bytes>) returns (r: seq<bytes>)
    ensures r == Listing(s)
  {
    var xs: seq<bytes> := [];
    var rest := s;
    while rest != {}
      invariant forall i :: 0 <= i < |xs| ==> xs[i] in s && xs[i] !in rest
      invariant forall x <- s :: x in rest || x in xs
      invariant forall i, j :: 0 <= i < j < |xs| ==> xs[i] != xs[j]
      invariant rest <= s
      decreases |rest|
    {
      var x :| x in rest;
      xs, rest := xs + [x], rest - {x};
    }
    assert Elements(xs) == s;
    r := Sort(xs);
  }

  lemma ListingMembers(s: set<bytes>)
    ensures forall i :: 0 <= i < |Listing(s)| ==> Listing(s)[i] in s
    ensures forall x <- s :: x in Listing(s)
    ensures forall i, j :: 0 <= i < j < |Listing(s)| ==> Listing(s)[i] != Listing(s)[j]
  {
    var r := Listing(s);
    assert forall x :: x in Elements(r) <==> x in r;
    assert forall i :: 0 <= i < |r| ==> r[i] in Elements(r);
    forall i, j | 0 <= i < j < |r| ensures r[i] != r[j] {
      LessIsTotal(r[i], r[j]);
    }
  }
}
