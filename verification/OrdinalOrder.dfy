// Ordinal comparison of identifiers, and the one sorted listing of a set of them.

module OrdinalOrder {
  /** StringComparer.Ordinal. */
  predicate Less(a: string, b: string) {
    if b == [] then false
    else if a == [] then true
    else if a[0] != b[0] then a[0] < b[0]
    else Less(a[1..], b[1..])
  }

  lemma {:induction false} LessIrreflexive(a: string)
    ensures !Less(a, a)
  {
    if a != [] { LessIrreflexive(a[1..]); }
  }

  lemma {:induction false} LessTotal(a: string, b: string)
    ensures a == b || Less(a, b) || Less(b, a)
    ensures !(Less(a, b) && Less(b, a))
  {
    if a != [] && b != [] && a[0] == b[0] {
      LessTotal(a[1..], b[1..]);
      if a[1..] == b[1..] { assert a == [a[0]] + a[1..] == b; }
    }
  }

  lemma {:induction false} LessTransitive(a: string, b: string, c: string)
    requires Less(a, b) && Less(b, c)
    ensures Less(a, c)
  {
    if a != [] && a[0] == b[0] == c[0] { LessTransitive(a[1..], b[1..], c[1..]); }
  }

  /** Strictly increasing, so without repetition. */
  predicate Ascending(s: seq<string>) { forall i, j :: 0 <= i < j < |s| ==> Less(s[i], s[j]) }

  function Elements(s: seq<string>): set<string> { set x | x in s }

  lemma AscendingPrepend(x: string, s: seq<string>)
    requires Ascending(s) && forall y :: y in s ==> Less(x, y)
    ensures Ascending([x] + s)
  {
    hide Less;
  }

  /** A set has only one ascending listing. */
  lemma {:induction false} ListingUnique(a: seq<string>, b: seq<string>)
    requires Ascending(a) && Ascending(b) && Elements(a) == Elements(b)
    ensures a == b
  {
    hide Less;
    NoElements(a);
    NoElements(b);
    if a != [] && b != [] {
      SameHead(a, b);
      SameTail(a, b);
      ListingUnique(a[1..], b[1..]);
      assert a == [a[0]] + a[1..] && b == [b[0]] + b[1..];
    }
  }

  lemma NoElements(s: seq<string>)
    ensures Elements(s) == {} <==> s == []
  {
    if s != [] { assert s[0] in Elements(s); }
  }

  lemma SameHead(a: seq<string>, b: seq<string>)
    requires Ascending(a) && Ascending(b) && Elements(a) == Elements(b) && a != [] && b != []
    ensures a[0] == b[0]
  {
    hide Less;
    assert a[0] in Elements(b) && b[0] in Elements(a);
    var i :| 0 <= i < |b| && b[i] == a[0];
    var j :| 0 <= j < |a| && a[j] == b[0];
    LessTotal(a[0], b[0]);
  }

  lemma SameTail(a: seq<string>, b: seq<string>)
    requires Ascending(a) && Ascending(b) && Elements(a) == Elements(b) && a != [] && b != [] && a[0] == b[0]
    ensures Elements(a[1..]) == Elements(b[1..])
  {
    HeadNotInTail(a);
    HeadNotInTail(b);
    hide Less;
    assert Elements(a[1..]) == Elements(a) - {a[0]};
    assert Elements(b[1..]) == Elements(b) - {b[0]};
  }

  lemma HeadNotInTail(a: seq<string>)
    requires Ascending(a) && a != []
    ensures a[0] !in a[1..] && Elements(a[1..]) == Elements(a) - {a[0]}
  {
    hide Less;
    assert a == [a[0]] + a[1..];
    forall i | 1 <= i < |a| ensures a[i] != a[0] { LessTotal(a[0], a[i]); LessIrreflexive(a[0]); }
  }

  lemma Split(x: string, s: seq<string>)
    ensures Elements([x] + s) == {x} + Elements(s)
  {
    assert forall y :: y in [x] + s <==> y == x || y in s;
  }

  function Insert(x: string, s: seq<string>): (r: seq<string>)
    ensures Elements(r) == Elements(s) + {x}
    ensures |r| == |s| + 1
  {
    if s == [] || Less(x, s[0]) then [x] + s
    else
      Split(s[0], s[1..]);
      Split(s[0], Insert(x, s[1..]));
      assert s == [s[0]] + s[1..];
      [s[0]] + Insert(x, s[1..])
  }

  /** Stands for the library's sort of a list without repetitions. */
  function Sorted(s: seq<string>): (r: seq<string>)
    ensures Elements(r) == Elements(s) && |r| == |s|
  {
    if s == [] then []
    else
      assert s == [s[0]] + s[1..];
      Insert(s[0], Sorted(s[1..]))
  }

  predicate NoRepeats(s: seq<string>) { forall i, j :: 0 <= i < j < |s| ==> s[i] != s[j] }

  lemma {:induction false} InsertAscends(x: string, s: seq<string>)
    requires Ascending(s) && x !in s
    ensures Ascending(Insert(x, s))
  {
    if s != [] && !Less(x, s[0]) {
      LessTotal(x, s[0]);
      InsertAscends(x, s[1..]);
      hide Less;
      forall y | y in Insert(x, s[1..]) ensures Less(s[0], y) {
        assert y in Elements(Insert(x, s[1..]));
      }
      AscendingPrepend(s[0], Insert(x, s[1..]));
    } else if s != [] {
      forall y | y in s ensures Less(x, y) {
        if y != s[0] { LessTransitive(x, s[0], y); }
      }
      AscendingPrepend(x, s);
    }
  }

  lemma {:induction false} SortedAscends(s: seq<string>)
    requires NoRepeats(s)
    ensures Ascending(Sorted(s))
  {
    if s != [] {
      SortedAscends(s[1..]);
      assert s[0] !in s[1..];
      assert s[0] !in Elements(s[1..]);
      InsertAscends(s[0], Sorted(s[1..]));
    }
  }

  /** The ascending listing of a set. */
  ghost function Listing(s: set<string>): (r: seq<string>)
    ensures Ascending(r) && Elements(r) == s && |r| == |s|
  {
    ListingExists(s);
    var r :| Ascending(r) && Elements(r) == s && |r| == |s|;
    r
  }

  lemma {:induction false} ListingExists(s: set<string>)
    ensures exists r :: Ascending(r) && Elements(r) == s && |r| == |s|
  {
    if s == {} {
      assert Ascending([]) && Elements([]) == s;
    } else {
      var x :| x in s;
      ListingExists(s - {x});
      var r :| Ascending(r) && Elements(r) == s - {x} && |r| == |s - {x}|;
      assert x !in r by { assert x !in Elements(r); }
      InsertAscends(x, r);
      assert Elements(Insert(x, r)) == s;
    }
  }

  /** Sorting any repetition-free enumeration of a set gives its listing. */
  lemma SortedIsListing(s: seq<string>)
    requires NoRepeats(s)
    ensures Sorted(s) == Listing(Elements(s))
  {
    SortedAscends(s);
    ListingUnique(Sorted(s), Listing(Elements(s)));
  }
}
