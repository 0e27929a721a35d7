// The environment block of a launch context: built sorted and bounded from a
// list of entries, and scanned back from a double-NUL-terminated snapshot.

module LaunchSpec {
  import opened Words
  import opened Sequences

  /** UTF-16 code units. */
  type Unit = x: int | 0 <= x < 0x1_0000
  type Entry = seq<Unit>

  const MAX_UNITS: nat := 65536
  const MAX_ENTRIES: nat := 1024
  const MAX_PATH: nat := 260
  const EQUALS: Unit := 0x3d
  const COLON: Unit := 0x3a

  predicate Letter(c: Unit) { 0x41 <= c <= 0x5a || 0x61 <= c <= 0x7a }

  predicate NulFree(s: Entry) { forall i :: 0 <= i < |s| ==> s[i] != 0 }

  predicate AbsoluteDrivePath(p: Entry) {
    |p| >= 3 && Letter(p[0]) && p[1] == COLON && (p[2] == 0x5c || p[2] == 0x2f) && NulFree(p)
  }

  function Find(s: Entry, c: Unit, from: nat): (r: Option<nat>)
    ensures r.Some? ==> from <= r.value < |s| && s[r.value] == c
    decreases |s| - from
  {
    if from >= |s| then None else if s[from] == c then Some(from) else Find(s, c, from + 1)
  }

  /** The name in front of the separating equals sign; a leading one belongs to the name. */
  function Key(e: Entry): Entry {
    match Find(e, EQUALS, if e != [] && e[0] == EQUALS then 1 else 0)
    case None => []
    case Some(at) => e[..at]
  }

  predicate ValidEntry(e: Entry) {
    if e == [] || |e| > 32767 || !NulFree(e) then false
    else
      var name := Key(e);
      if name == [] then false
      else if name[0] == EQUALS then
        |name| == 3 && name[2] == COLON && Letter(name[1]) && AbsoluteDrivePath(e[4..])
      else true
  }

  // ---- The block ------------------------------------------------------------

  function Packed(es: seq<Entry>): Entry {
    if es == [] then [] else es[0] + [0] + Packed(es[1..])
  }

  function Block(es: seq<Entry>): Entry {
    Packed(es) + if es == [] then [0, 0] else [0]
  }

  function Units(es: seq<Entry>): nat {
    if es == [] then 0 else |es[0]| + 1 + Units(es[1..])
  }

  lemma {:induction false} PackedUnits(es: seq<Entry>)
    ensures |Packed(es)| == Units(es)
  {
    if es != [] { PackedUnits(es[1..]); }
  }

  lemma {:induction false} PackedAppend(a: seq<Entry>, b: seq<Entry>)
    ensures Packed(a + b) == Packed(a) + Packed(b)
  {
    if a == [] {
      assert a + b == b;
    } else {
      PackedAppend(a[1..], b);
      assert (a + b)[1..] == a[1..] + b;
    }
  }

  /** The count is one unit per terminator more than the characters, and does not depend on
      the order. */
  lemma {:induction false} UnitsAppend(a: seq<Entry>, b: seq<Entry>)
    ensures Units(a + b) == Units(a) + Units(b)
  {
    if a == [] {
      assert a + b == b;
    } else {
      UnitsAppend(a[1..], b);
      assert (a + b)[1..] == a[1..] + b;
    }
  }

  lemma WithoutFirst(a: seq<Entry>)
    requires a != []
    ensures multiset(a[1..]) == multiset(a) - multiset{a[0]}
  {
    assert a == [a[0]] + a[1..];
  }

  lemma WithoutOne(b: seq<Entry>, i: nat)
    requires i < |b|
    ensures multiset(b[..i] + b[i + 1..]) == multiset(b) - multiset{b[i]}
  {
    assert b == b[..i] + [b[i]] + b[i + 1..];
  }

  lemma {:induction false} UnitsOfPermutation(a: seq<Entry>, b: seq<Entry>)
    requires multiset(a) == multiset(b)
    ensures Units(a) == Units(b)
  {
    if a == [] {
      assert |multiset(b)| == 0;
    } else {
      var x := a[0];
      assert x in multiset(b);
      var i :| 0 <= i < |b| && b[i] == x;
      var rest := b[..i] + b[i + 1..];
      assert b == b[..i] + ([x] + b[i + 1..]);
      WithoutFirst(a);
      WithoutOne(b, i);
      UnitsOfPermutation(a[1..], rest);
      UnitsAppend(b[..i], [x] + b[i + 1..]);
      UnitsAppend([x], b[i + 1..]);
      UnitsAppend(b[..i], b[i + 1..]);
      assert Units([x]) == |x| + 1;
    }
  }

  // ---- Ordering ---------------------------------------------------------------

  /** compare(left, right) == CSTR_LESS_THAN, a total preorder's strict part. */
  type Less = (Entry, Entry) -> bool

  ghost predicate TotalPreorder(less: Less) {
    && (forall a, b :: less(a, b) ==> !less(b, a))
    && (forall a, b, c :: !less(b, a) && !less(c, b) ==> !less(c, a))
  }

  ghost predicate Ordered(less: Less, es: seq<Entry>) {
    forall i, j :: 0 <= i < j < |es| ==> !less(Key(es[j]), Key(es[i]))
  }

  ghost predicate StrictlyOrdered(less: Less, es: seq<Entry>) {
    forall i, j :: 0 <= i < j < |es| ==> less(Key(es[i]), Key(es[j]))
  }

  /** No two entries share a key, as the comparison sees keys. */
  ghost predicate KeysDiffer(less: Less, es: seq<Entry>) {
    forall i, j :: 0 <= i < |es| && 0 <= j < |es| && i != j ==>
      less(Key(es[i]), Key(es[j])) || less(Key(es[j]), Key(es[i]))
  }

  ghost predicate SameKey(less: Less, a: Entry, b: Entry) { !less(Key(a), Key(b)) && !less(Key(b), Key(a)) }

  /** Differing keys, told on the bag of entries. */
  ghost predicate BagDiffers(less: Less, m: multiset<Entry>) {
    forall a, b :: a in m && b in m && SameKey(less, a, b) ==> a == b && m[a] == 1
  }

  lemma DifferIsBag(less: Less, es: seq<Entry>)
    requires TotalPreorder(less)
    ensures KeysDiffer(less, es) <==> BagDiffers(less, multiset(es))
  {
    hide Key;
    if KeysDiffer(less, es) {
      forall a, b | a in multiset(es) && b in multiset(es) && SameKey(less, a, b)
        ensures a == b && multiset(es)[a] == 1
      {
        var i :| 0 <= i < |es| && es[i] == a;
        var j :| 0 <= j < |es| && es[j] == b;
        assert i == j;
        if multiset(es)[a] >= 2 {
          var x, y := TwoPlaces(es, a);
        }
      }
    } else {
      var i, j :| 0 <= i < |es| && 0 <= j < |es| && i != j && SameKey(less, es[i], es[j]);
      if es[i] == es[j] {
        OccursTwice(es, if i < j then i else j, if i < j then j else i);
      }
      assert es[i] in multiset(es) && es[j] in multiset(es);
    }
  }

  /** Ordered with differing keys is strictly ordered, and the other way round. */
  lemma StrictIsDiffering(less: Less, es: seq<Entry>)
    requires TotalPreorder(less) && Ordered(less, es)
    ensures StrictlyOrdered(less, es) <==> KeysDiffer(less, es)
  {
    hide Key;
  }

  /** A bag of entries has only one strictly ordered listing. */
  lemma {:induction false} ListingUnique(less: Less, a: seq<Entry>, b: seq<Entry>)
    requires TotalPreorder(less) && StrictlyOrdered(less, a) && StrictlyOrdered(less, b) && multiset(a) == multiset(b)
    ensures a == b
  {
    hide Key;
    if a == [] {
      assert |multiset(b)| == 0;
    } else {
      assert |multiset(a)| == |a| && |multiset(b)| == |b|;
      FirstIsLeast(less, a, b);
      assert a == [a[0]] + a[1..] && b == [b[0]] + b[1..];
      WithoutFirst(a);
      WithoutFirst(b);
      ListingUnique(less, a[1..], b[1..]);
    }
  }

  lemma FirstIsLeast(less: Less, a: seq<Entry>, b: seq<Entry>)
    requires TotalPreorder(less) && StrictlyOrdered(less, a) && StrictlyOrdered(less, b) && multiset(a) == multiset(b)
    requires a != [] && b != []
    ensures a[0] == b[0]
  {
    hide Key;
    assert a[0] in multiset(b) && b[0] in multiset(a);
    var i :| 0 <= i < |b| && b[i] == a[0];
    var j :| 0 <= j < |a| && a[j] == b[0];
    assert i > 0 ==> less(Key(b[0]), Key(a[0]));
    assert j > 0 ==> less(Key(a[0]), Key(b[0]));
  }

  // ---- Acceptance ----------------------------------------------------------------

  ghost predicate Accepted(less: Less, directory: Entry, es: seq<Entry>) {
    && AbsoluteDrivePath(directory) && |directory| < MAX_PATH
    && |es| <= MAX_ENTRIES && (forall e :: e in es ==> ValidEntry(e)) && |Block(es)| <= MAX_UNITS
    && KeysDiffer(less, es)
  }

  // ---- Packing is unambiguous -------------------------------------------------------

  ghost predicate Proper(es: seq<Entry>) { forall e :: e in es ==> e != [] && NulFree(e) }

  /** s is the packing of es followed by a terminator, and anything. */
  ghost predicate Packs(s: Entry, es: seq<Entry>) {
    Proper(es) && |Packed(es)| < |s| && s[..|Packed(es)| + 1] == Packed(es) + [0]
  }

  /** What the scan's limits leave: at most so many entries, the last one's terminator below
      the last but one unit. */
  ghost predicate Within(es: seq<Entry>) { |es| <= MAX_ENTRIES && |Packed(es)| < MAX_UNITS }

  /** What has been scanned is the front of any packing. */
  lemma {:induction false} ScannedIsFront(s: Entry, a: seq<Entry>, es: seq<Entry>)
    requires Proper(a) && |Packed(a)| <= |s| && s[..|Packed(a)|] == Packed(a) && Packs(s, es)
    ensures a <= es
    decreases |a|
  {
    if a != [] {
      FirstEntry(s, a, es);
      var n := |a[0]| + 1;
      var t := s[n..];
      TailPacked(s, a, n);
      TailPacks(s, es, n);
      ScannedIsFront(t, a[1..], es[1..]);
      assert a == [a[0]] + a[1..] && es == [es[0]] + es[1..];
    }
  }

  lemma FirstEntry(s: Entry, a: seq<Entry>, es: seq<Entry>)
    requires a != [] && Proper(a) && |Packed(a)| <= |s| && s[..|Packed(a)|] == Packed(a) && Packs(s, es)
    ensures es != [] && es[0] == a[0]
  {
    var p, q := Packed(a), Packed(es);
    assert a[0] in a && p[0] == a[0][0] == s[0];
    if es == [] {
      PackedPrefix(s, es);
    } else {
      assert es[0] in es;
      SameFirst(s, a, es);
    }
  }

  lemma SameFirst(s: Entry, a: seq<Entry>, es: seq<Entry>)
    requires a != [] && es != [] && NulFree(a[0]) && NulFree(es[0])
    requires |Packed(a)| <= |s| && s[..|Packed(a)|] == Packed(a)
    requires |Packed(es)| <= |s| && s[..|Packed(es)|] == Packed(es)
    ensures es[0] == a[0]
  {
    var m, n := |a[0]|, |es[0]|;
    assert forall k :: 0 <= k < m ==> s[k] == s[..|Packed(a)|][k] == a[0][k];
    assert forall k :: 0 <= k < n ==> s[k] == s[..|Packed(es)|][k] == es[0][k];
    assert s[m] == s[..|Packed(a)|][m] == 0 && s[n] == s[..|Packed(es)|][n] == 0;
  }

  lemma TailPacked(s: Entry, a: seq<Entry>, n: nat)
    requires a != [] && n == |a[0]| + 1 && |Packed(a)| <= |s| && s[..|Packed(a)|] == Packed(a)
    ensures |Packed(a[1..])| <= |s[n..]| && s[n..][..|Packed(a[1..])|] == Packed(a[1..])
  {
    assert Packed(a) == (a[0] + [0]) + Packed(a[1..]);
    assert s[n..][..|Packed(a[1..])|] == s[..|Packed(a)|][n..];
  }

  lemma TailPacks(s: Entry, es: seq<Entry>, n: nat)
    requires es != [] && n == |es[0]| + 1 && Packs(s, es)
    ensures Packs(s[n..], es[1..])
  {
    var p, q := Packed(es), Packed(es[1..]);
    assert p == (es[0] + [0]) + q;
    assert Proper(es[1..]);
    hide Packed, Proper;
    var t := s[..|p| + 1];
    assert t[n..] == q + [0] by { assert p + [0] == (es[0] + [0]) + (q + [0]); }
    assert s[n..][..|q| + 1] == t[n..];
  }

  /** A snapshot has one reading. */
  lemma PackingUnique(s: Entry, a: seq<Entry>, b: seq<Entry>)
    requires Packs(s, a) && Packs(s, b)
    ensures a == b
  {
    PackedPrefix(s, a);
    PackedPrefix(s, b);
    ScannedIsFront(s, a, b);
    ScannedIsFront(s, b, a);
  }

  lemma PackedPrefix(s: Entry, a: seq<Entry>)
    requires Packs(s, a)
    ensures |Packed(a)| <= |s| && s[..|Packed(a)|] == Packed(a) && s[|Packed(a)|] == 0
  {
    assert s[..|Packed(a)| + 1][..|Packed(a)|] == s[..|Packed(a)|];
    assert s[|Packed(a)|] == s[..|Packed(a)| + 1][|Packed(a)|];
  }
}
