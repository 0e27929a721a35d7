// The launch context in the words of its format: what a drive path, an entry and a block
// look like, and which error the first thing that does not look so ends in.

module LaunchGrammar {
  import opened Words
  import opened LaunchSpec
  import opened LaunchContext

  /** The unit of an ASCII character. */
  function Code(c: char): Unit { (c as int) % 128 }

  predicate IsLetter(u: Unit) { Code('A') <= u <= Code('Z') || Code('a') <= u <= Code('z') }

  // ---- Paths and entries ------------------------------------------------------------

  ghost predicate DrivePathOf(p: Entry, letter: Unit, slash: Unit, rest: Entry) {
    && IsLetter(letter) && (slash == Code('\\') || slash == Code('/')) && 0 !in rest
    && p == [letter, Code(':'), slash] + rest
  }

  /** A letter, a colon, a slash of either kind, and anything without a NUL. */
  ghost predicate IsDrivePath(p: Entry) { exists letter, slash, rest :: DrivePathOf(p, letter, slash, rest) }

  /** NAME=VALUE: the name is not empty and has no equals sign behind its first unit. */
  ghost predicate Named(e: Entry, name: Entry, value: Entry) {
    name != [] && Code('=') !in name[1..] && e == name + [Code('=')] + value
  }

  ghost predicate IsVariable(e: Entry) {
    exists name, value :: Named(e, name, value) && name[0] != Code('=')
  }

  /** The current directory of a drive: =L:= and a drive path. */
  ghost predicate IsDriveDirectory(e: Entry) {
    exists letter, path :: DriveDirectoryOf(e, letter, path)
  }

  ghost predicate DriveDirectoryOf(e: Entry, letter: Unit, path: Entry) {
    IsLetter(letter) && IsDrivePath(path) && e == [Code('='), letter, Code(':'), Code('=')] + path
  }

  lemma DrivePathMeans(p: Entry)
    ensures AbsoluteDrivePath(p) <==> IsDrivePath(p)
  {
    if AbsoluteDrivePath(p) {
      assert p == [p[0], Code(':'), p[2]] + p[3..];
      assert DrivePathOf(p, p[0], p[2], p[3..]);
    }
    if IsDrivePath(p) {
      var letter, slash, rest :| DrivePathOf(p, letter, slash, rest);
      assert forall i :: 3 <= i < |p| ==> p[i] == rest[i - 3];
    }
  }

  lemma {:induction false} FindMeans(s: Entry, c: Unit, from: nat)
    ensures Find(s, c, from).None? <==> forall k :: from <= k < |s| ==> s[k] != c
    ensures Find(s, c, from).Some? ==> forall k :: from <= k < Find(s, c, from).value ==> s[k] != c
    decreases |s| - from
  {
    if from < |s| && s[from] != c { FindMeans(s, c, from + 1); }
  }

  /** The key is the name in front of the first equals sign that can separate. */
  lemma KeyIs(e: Entry, name: Entry, value: Entry)
    requires Named(e, name, value)
    ensures Key(e) == name
  {
    var from := if e[0] == EQUALS then 1 else 0;
    FindMeans(e, EQUALS, from);
    assert e[|name|] == EQUALS;
    assert forall k :: 1 <= k < |name| ==> e[k] == name[1..][k - 1];
    hide Find;
  }

  /** There is no key exactly when there is no such name. */
  lemma NoKey(e: Entry)
    ensures Key(e) == [] <==> !exists name, value :: Named(e, name, value)
  {
    if Key(e) != [] {
      var at := |Key(e)|;
      FindMeans(e, EQUALS, if e[0] == EQUALS then 1 else 0);
      assert e == e[..at] + [Code('=')] + e[at + 1..];
      assert Named(e, e[..at], e[at + 1..]);
    }
    if name, value :| Named(e, name, value) { KeyIs(e, name, value); }
  }

  /** The accepted entries: variables, and the current directories of drives. */
  lemma ValidEntryMeans(e: Entry)
    ensures ValidEntry(e) <==> 1 <= |e| <= 32767 && 0 !in e && (IsVariable(e) || IsDriveDirectory(e))
  {
    NoKey(e);
    if 1 <= |e| <= 32767 && 0 !in e {
      if ValidEntry(e) {
        var name, value :| Named(e, name, value);
        KeyIs(e, name, value);
        if name[0] == Code('=') { DirectoryForm(e); }
      }
      if name, value :| Named(e, name, value) && name[0] != Code('=') { KeyIs(e, name, value); }
      if letter, path :| DriveDirectoryOf(e, letter, path) {
        var name := [Code('='), letter, Code(':')];
        assert Named(e, name, path);
        KeyIs(e, name, path);
        assert e[4..] == path;
        DrivePathMeans(path);
      }
    }
    hide Key, IsVariable, IsDriveDirectory, AbsoluteDrivePath;
  }

  lemma DirectoryForm(e: Entry)
    requires ValidEntry(e) && Key(e) != [] && Key(e)[0] == Code('=')
    ensures IsDriveDirectory(e)
  {
    var name := Key(e);
    FindMeans(e, EQUALS, 1);
    assert e[..3] == name && e[3] == EQUALS;
    DrivePathMeans(e[4..]);
    assert e == [Code('='), e[1], Code(':'), Code('=')] + e[4..];
    assert DriveDirectoryOf(e, e[1], e[4..]);
  }

  // ---- Blocks ------------------------------------------------------------------------

  /** A block of proper entries ends in two NULs, and has no two before. */
  lemma BlockEnds(es: seq<Entry>)
    requires Proper(es)
    ensures var b := Block(es);
            && |b| == (if es == [] then 2 else Units(es) + 1) && b[|b| - 1] == 0 && b[|b| - 2] == 0
            && forall k :: 0 <= k < |b| - 2 ==> !(b[k] == 0 && b[k + 1] == 0)
  {
    PackedUnits(es);
    PackedShape(es);
    if es != [] { EndsInNul(es); }
    hide Packed;
  }

  lemma {:induction false} EndsInNul(es: seq<Entry>)
    requires es != []
    ensures Packed(es) != [] && Packed(es)[|Packed(es)| - 1] == 0
  {
    if |es| > 1 { EndsInNul(es[1..]); }
  }

  lemma {:induction false} PackedShape(es: seq<Entry>)
    requires Proper(es)
    ensures Packed(es) != [] ==> Packed(es)[0] != 0
    ensures forall k :: 0 <= k < |Packed(es)| - 1 ==> !(Packed(es)[k] == 0 && Packed(es)[k + 1] == 0)
  {
    if es != [] {
      var e, rest := es[0], Packed(es[1..]);
      assert e in es;
      assert Proper(es[1..]);
      PackedShape(es[1..]);
      assert Packed(es) == e + [0] + rest;
      var p := e + [0] + rest;
      forall k | 0 <= k < |p| - 1 ensures !(p[k] == 0 && p[k + 1] == 0) {
        if k > |e| { assert p[k] == rest[k - |e| - 1] && p[k + 1] == rest[k - |e|]; }
      }
    }
  }

  // ---- Errors --------------------------------------------------------------------------

  ghost predicate IsEntry(e: Entry) { 1 <= |e| <= 32767 && 0 !in e && (IsVariable(e) || IsDriveDirectory(e)) }

  /** Entry k is an entry, and with it the block, units before the first one, is not yet too
      long. */
  ghost predicate Fits(es: seq<Entry>, units: nat, k: nat)
    requires k < |es|
  {
    IsEntry(es[k]) && units + Units(es[..k + 1]) <= 65536
  }

  /** Entry i is the first that does not fit. */
  ghost predicate FaultAt(es: seq<Entry>, units: nat, i: nat) {
    i < |es| && !Fits(es, units, i) && forall k :: 0 <= k < i ==> Fits(es, units, k)
  }

  /** A block has one terminator of its own, and two when it is empty. */
  ghost predicate FirstFault(es: seq<Entry>, i: nat) { FaultAt(es, if es == [] then 2 else 1, i) }

  lemma FitsNext(es: seq<Entry>, units: nat, k: nat)
    requires k + 1 < |es|
    ensures Fits(es, units, k + 1) <==> Fits(es[1..], units + |es[0]| + 1, k)
  {
    UnitsFirst(es, k + 2);
    hide IsEntry, Units;
  }

  lemma FitsFirst(es: seq<Entry>, units: nat)
    requires es != []
    ensures Fits(es, units, 0) <==> ValidEntry(es[0]) && units + |es[0]| + 1 <= 65536
  {
    ValidEntryIsEntry(es[0]);
    UnitsFirst(es, 1);
    hide IsEntry, ValidEntry;
  }

  lemma {:induction false} ErrorsTellWhy(es: seq<Entry>, units: nat, i: nat)
    requires FaultAt(es, units, i)
    ensures EntriesError(es, units) ==
            Some(if IsEntry(es[i]) then "launch_environment_limit" else "launch_environment_entry")
    decreases i
  {
    hide ValidEntry, IsEntry;
    FitsFirst(es, units);
    ValidEntryIsEntry(es[0]);
    if i > 0 {
      var rest, more := es[1..], units + |es[0]| + 1;
      hide Fits;
      assert Fits(es, units, 0);
      FitsNext(es, units, i - 1);
      forall k | 0 <= k < i - 1 ensures Fits(rest, more, k) { FitsNext(es, units, k); }
      ErrorsTellWhy(rest, more, i - 1);
    }
  }

  lemma UnitsFirst(es: seq<Entry>, n: nat)
    requires 0 < n <= |es|
    ensures Units(es[..n]) == |es[0]| + 1 + Units(es[1..][..n - 1])
  {
    assert es[..n][1..] == es[1..][..n - 1];
  }

  lemma {:induction false} NoFault(es: seq<Entry>, units: nat)
    requires forall k :: 0 <= k < |es| ==> Fits(es, units, k)
    ensures EntriesError(es, units) == None
  {
    hide ValidEntry, Fits;
    if es != [] {
      var rest, more := es[1..], units + |es[0]| + 1;
      assert Fits(es, units, 0);
      FitsFirst(es, units);
      forall k | 0 <= k < |rest| ensures Fits(rest, more, k) { FitsNext(es, units, k); }
      NoFault(rest, more);
    }
  }

  lemma ValidEntryIsEntry(e: Entry)
    ensures ValidEntry(e) <==> IsEntry(e)
  {
    ValidEntryMeans(e);
    hide ValidEntry, IsVariable, IsDriveDirectory;
  }

  const VERBATIM: Entry := [Code('\\'), Code('\\'), Code('?'), Code('\\')]

  ghost predicate IsFinalPath(v: Entry, p: Entry) { v == VERBATIM + p && IsDrivePath(p) && |p| < 260 }

  /** The final path as the system spells it: the prefix \\?\ and a drive path. */
  ghost predicate Resolved(path: Option<Entry>) {
    path.Some? && |path.value| < 32768 && exists p :: IsFinalPath(path.value, p)
  }

  lemma ResolvedMeans(w: World)
    ensures w.Resolves() <==> Resolved(w.finalPath)
  {
    hide AbsoluteDrivePath, IsDrivePath, IsFinalPath;
    if w.finalPath.Some? {
      var v := w.finalPath.value;
      FinalPathIs(v);
      if |v| >= 4 { DrivePathMeans(v[4..]); }
    }
  }

  /** Only what follows the prefix can be the drive path. */
  lemma FinalPathIs(v: Entry)
    ensures (exists p :: IsFinalPath(v, p)) <==>
            |v| >= 4 && v[..4] == [0x5c, 0x5c, 0x3f, 0x5c] && IsDrivePath(v[4..]) && |v| - 4 < 260
  {
    hide IsDrivePath;
    assert VERBATIM == [0x5c, 0x5c, 0x3f, 0x5c];
    if p :| IsFinalPath(v, p) { assert v[..4] == VERBATIM && v[4..] == p; }
    if |v| >= 4 && v[..4] == VERBATIM && IsDrivePath(v[4..]) && |v| - 4 < 260 {
      assert v == VERBATIM + v[4..];
      assert IsFinalPath(v, v[4..]);
    }
  }

  /** The error of a preparation, from the first thing that is wrong on. */
  lemma PrepareTellsWhy(less: Less, path: Entry, es: seq<Entry>, w: World, i: nat)
    requires TotalPreorder(less)
    ensures PrepareError(less, path, es, w) ==
              if !IsDrivePath(path) || |path| >= 260 then Some("launch_directory_input")
              else if |es| > 1024 then Some("launch_environment_limit")
              else if FirstFault(es, i) then
                Some(if IsEntry(es[i]) then "launch_environment_limit" else "launch_environment_entry")
              else if exists k: nat :: FirstFault(es, k) then PrepareError(less, path, es, w)
              else if !KeysDiffer(less, es) then Some("launch_environment_duplicate")
              else if w.hash(Block(Listing(less, es))).None? then Some("launch_environment_hash_failed")
              else if !w.opens then Some("launch_directory_unavailable")
              else if !Resolved(w.finalPath) then Some("launch_directory_resolution")
              else None
  {
    DrivePathMeans(path);
    ResolvedMeans(w);
    var base := if es == [] then 2 else 1;
    if FirstFault(es, i) { ErrorsTellWhy(es, base, i); }
    if !exists k: nat :: FirstFault(es, k) { NoFirstFault(es); }
    hide AbsoluteDrivePath, IsDrivePath, IsEntry, Block, Listing, KeysDiffer, EntriesError, Resolved;
  }

  lemma NoFirstFault(es: seq<Entry>)
    requires !exists k: nat :: FirstFault(es, k)
    ensures EntriesError(es, if es == [] then 2 else 1) == None
  {
    hide Fits, FaultAt;
    var units := if es == [] then 2 else 1;
    assert forall k: nat :: FaultAt(es, units, k) <==> FirstFault(es, k);
    FaultlessTo(es, units, |es|);
    NoFault(es, units);
  }

  lemma {:induction false} FaultlessTo(es: seq<Entry>, units: nat, n: nat)
    requires n <= |es| && forall k: nat :: !FaultAt(es, units, k)
    ensures forall k :: 0 <= k < n ==> Fits(es, units, k)
  {
    hide Fits;
    if n > 0 {
      FaultlessTo(es, units, n - 1);
      assert !FaultAt(es, units, n - 1);
    }
  }
}
