// The code of the launch context: sorting and packing the entries, the scan of a
// snapshot, and the object that is ready only after both.

module LaunchContext {
  import opened Words
  import opened LaunchSpec

  // ---- Building -------------------------------------------------------------

  /** Stands for the library's sort; ties may come out either way. */
  method SortByKey(less: Less, es: seq<Entry>) returns (ordered: seq<Entry>)
    requires TotalPreorder(less)
    ensures multiset(ordered) == multiset(es) && Ordered(less, ordered)
  {
    hide Key;
    ordered := [];
    for i := 0 to |es|
      invariant multiset(ordered) == multiset(es[..i]) && Ordered(less, ordered)
    {
      assert es[..i + 1] == es[..i] + [es[i]];
      ordered := InsertByKey(less, ordered, es[i]);
    }
    assert es[..|es|] == es;
  }

  method InsertByKey(less: Less, es: seq<Entry>, e: Entry) returns (r: seq<Entry>)
    requires TotalPreorder(less) && Ordered(less, es)
    ensures multiset(r) == multiset(es) + multiset{e} && Ordered(less, r)
  {
    hide Key;
    var at := |es|;
    while at > 0 && less(Key(e), Key(es[at - 1]))
      invariant 0 <= at <= |es|
      invariant forall k :: at <= k < |es| ==> less(Key(e), Key(es[k]))
    {
      at := at - 1;
    }
    r := es[..at] + [e] + es[at..];
    assert es == es[..at] + es[at..];
    InsertedOrdered(less, es, e, at);
  }

  lemma InsertedOrdered(less: Less, es: seq<Entry>, e: Entry, at: nat)
    requires TotalPreorder(less) && Ordered(less, es) && at <= |es|
    requires at > 0 ==> !less(Key(e), Key(es[at - 1]))
    requires forall k :: at <= k < |es| ==> less(Key(e), Key(es[k]))
    ensures Ordered(less, es[..at] + [e] + es[at..])
  {
    hide Key;
    var r := es[..at] + [e] + es[at..];
    forall k | 0 <= k < at ensures !less(Key(e), Key(es[k])) {
      if k < at - 1 { assert !less(Key(es[at - 1]), Key(es[k])); }
    }
    forall i, j | 0 <= i < j < |r| ensures !less(Key(r[j]), Key(r[i])) {
      if j < at {
        assert r[i] == es[i] && r[j] == es[j];
      } else if i > at {
        assert r[i] == es[i - 1] && r[j] == es[j - 1];
      } else if i < at < j {
        assert r[i] == es[i] && r[j] == es[j - 1];
      }
    }
  }

  /** Neighbours decide whether keys repeat. */
  method NeighboursDiffer(less: Less, ordered: seq<Entry>) returns (ok: bool)
    requires TotalPreorder(less) && Ordered(less, ordered)
    ensures ok <==> StrictlyOrdered(less, ordered)
  {
    hide Key;
    for i := 1 to if |ordered| == 0 then 1 else |ordered|
      invariant forall k :: 1 <= k < i ==> less(Key(ordered[k - 1]), Key(ordered[k]))
    {
      if !less(Key(ordered[i - 1]), Key(ordered[i])) {
        return false;
      }
    }
    forall i, j | 0 <= i < j < |ordered| ensures less(Key(ordered[i]), Key(ordered[j])) {
      assert less(Key(ordered[j - 1]), Key(ordered[j]));
      if i < j - 1 { assert !less(Key(ordered[j - 1]), Key(ordered[i])); }
    }
    return true;
  }

  /** What the first loop finds: an entry that is not valid, or one that no longer fits. */
  function EntriesError(es: seq<Entry>, units: nat): (r: Option<string>) {
    if es == [] then None
    else if !ValidEntry(es[0]) then Some("launch_environment_entry")
    else if units + |es[0]| + 1 > MAX_UNITS then Some("launch_environment_limit")
    else EntriesError(es[1..], units + |es[0]| + 1)
  }

  lemma {:induction false} NoEntriesError(es: seq<Entry>, units: nat)
    requires units <= MAX_UNITS
    ensures EntriesError(es, units).None? <==> (forall e :: e in es ==> ValidEntry(e)) && units + Units(es) <= MAX_UNITS
  {
    hide ValidEntry;
    if es != [] {
      if ValidEntry(es[0]) && units + |es[0]| + 1 <= MAX_UNITS {
        NoEntriesError(es[1..], units + |es[0]| + 1);
        assert es == [es[0]] + es[1..];
        assert forall e :: e in es <==> e == es[0] || e in es[1..];
      }
    }
  }

  method CheckEntries(es: seq<Entry>) returns (error: Option<string>, units: nat)
    ensures error == EntriesError(es, if es == [] then 2 else 1)
    ensures error.None? ==> units == |Block(es)|
  {
    hide ValidEntry;
    units := if |es| == 0 then 2 else 1;
    PackedUnits(es);
    assert es[0..] == es;
    for i := 0 to |es|
      invariant units <= MAX_UNITS
      invariant EntriesError(es, if es == [] then 2 else 1) == EntriesError(es[i..], units)
      invariant units + Units(es[i..]) == |Block(es)|
    {
      assert es[i..][0] == es[i] && es[i..][1..] == es[i + 1..];
      if !ValidEntry(es[i]) {
        return Some("launch_environment_entry"), units;
      }
      if |es[i]| + 1 > MAX_UNITS - units {
        return Some("launch_environment_limit"), units;
      }
      units := units + |es[i]| + 1;
    }
    return None, units;
  }

  method PackBlock(ordered: seq<Entry>) returns (block: Entry)
    ensures block == Block(ordered)
  {
    block := [];
    for i := 0 to |ordered|
      invariant block == Packed(ordered[..i])
    {
      assert ordered[..i + 1] == ordered[..i] + [ordered[i]];
      PackedAppend(ordered[..i], [ordered[i]]);
      block := block + ordered[i];
      block := block + [0];
      assert Packed([ordered[i]]) == ordered[i] + [0];
    }
    assert ordered[..|ordered|] == ordered;
    block := block + [0];
    if |ordered| == 0 { block := block + [0]; }
  }

  // ---- Scanning --------------------------------------------------------------------

  /** Position end is the terminator of an empty entry. */
  predicate StopsAt(s: Entry, end: nat) { end < |s| && s[end] == 0 && (end > 0 ==> s[end - 1] == 0) }

  /** The capture loop over a double-NUL-terminated snapshot: the entries when they are
      within the limits, nothing when they are not; it never reads past the terminator. */
  method Capture(s: Entry, ghost end: nat) returns (r: Option<seq<Entry>>)
    requires StopsAt(s, end)
    ensures r.Some? ==> Packs(s, r.value) && Within(r.value)
    ensures r.None? ==> forall es :: Packs(s, es) ==> !Within(es)
  {
    hide Packed, Packs, Proper, Within, NulFree;
    var entries: seq<Entry> := [];
    var offset := 0;
    NothingScanned(s);
    while s[offset] != 0
      invariant 0 <= offset <= end && offset < MAX_UNITS && |entries| <= MAX_ENTRIES
      invariant Scanned(s, entries, offset)
      decreases end - offset
    {
      if |entries| == MAX_ENTRIES {
        TooMany(s, entries, offset);
        return None;
      }
      var begin := offset;
      while s[offset] != 0
        invariant begin <= offset < end && (offset == begin || offset < MAX_UNITS - 1)
        invariant forall k :: begin <= k < offset ==> s[k] != 0
        decreases end - offset
      {
        offset := offset + 1;
        if offset >= MAX_UNITS - 1 {
          TooLong(s, entries, begin, offset);
          return None;
        }
      }
      EntryScanned(s, entries, begin, offset);
      entries := entries + [s[begin..offset]];
      offset := offset + 1;
    }
    AllScanned(s, entries, offset);
    return Some(entries);
  }

  ghost predicate Scanned(s: Entry, es: seq<Entry>, offset: nat) {
    offset <= |s| && Proper(es) && offset == |Packed(es)| && s[..offset] == Packed(es)
  }

  lemma NothingScanned(s: Entry)
    ensures Scanned(s, [], 0)
  {}

  lemma EntryScanned(s: Entry, es: seq<Entry>, begin: nat, offset: nat)
    requires Scanned(s, es, begin) && begin < offset < |s| && s[offset] == 0
    requires forall k :: begin <= k < offset ==> s[k] != 0
    ensures Scanned(s, es + [s[begin..offset]], offset + 1)
  {
    var e := s[begin..offset];
    PackedAppend(es, [e]);
    assert Packed([e]) == e + [0];
    assert NulFree(e) && e != [];
    hide Packed, NulFree;
    assert s[..offset + 1] == s[..begin] + (e + [0]);
  }

  lemma AllScanned(s: Entry, es: seq<Entry>, offset: nat)
    requires Scanned(s, es, offset) && offset < |s| && s[offset] == 0 && |es| <= MAX_ENTRIES && offset < MAX_UNITS
    ensures Packs(s, es) && Within(es)
  {
    hide Packed, Proper;
    assert s[..offset + 1] == s[..offset] + [0];
  }

  lemma TooMany(s: Entry, es: seq<Entry>, offset: nat)
    requires Scanned(s, es, offset) && offset < |s| && s[offset] != 0 && |es| == MAX_ENTRIES
    ensures forall fs :: Packs(s, fs) ==> !Within(fs)
  {
    forall fs | Packs(s, fs) ensures !Within(fs) {
      ScannedIsFront(s, es, fs);
      PackedPrefix(s, fs);
      assert fs != es;
    }
  }

  lemma TooLong(s: Entry, es: seq<Entry>, begin: nat, offset: nat)
    requires Scanned(s, es, begin) && begin < offset <= |s| && offset >= MAX_UNITS - 1
    requires forall k :: begin <= k < offset ==> s[k] != 0
    ensures forall fs :: Packs(s, fs) ==> !Within(fs)
  {
    forall fs | Packs(s, fs) ensures !Within(fs) {
      ScannedIsFront(s, es, fs);
      PackedPrefix(s, fs);
      assert fs != es;
      EntryReaches(s, es, fs, begin, offset);
    }
  }

  /** The entry that begins at begin reaches at least to offset. */
  lemma EntryReaches(s: Entry, es: seq<Entry>, fs: seq<Entry>, begin: nat, offset: nat)
    requires Packs(s, fs) && es < fs && begin == |Packed(es)| && begin < offset <= |s|
    requires forall k :: begin <= k < offset ==> s[k] != 0
    ensures |Packed(fs)| >= offset + 1
  {
    var tail := fs[|es|..];
    assert fs == es + tail;
    PackedAppend(es, tail);
    PackedPrefix(s, fs);
    var e := tail[0];
    assert Packed(tail) == e + [0] + Packed(tail[1..]);
    hide Packed, Packs;
    var at := begin + |e|;
    assert Packed(fs)[at] == 0;
    assert s[at] == s[..|Packed(fs)|][at] == 0;
  }

  // ---- Build and scan ------------------------------------------------------------------

  lemma AcceptedIsProper(less: Less, directory: Entry, es: seq<Entry>)
    requires Accepted(less, directory, es)
    ensures Proper(es) && Within(es)
  {
    PackedUnits(es);
    hide Key, AbsoluteDrivePath;
  }

  lemma BlockPacks(es: seq<Entry>)
    requires Proper(es)
    ensures Packs(Block(es), es) && StopsAt(Block(es), |Packed(es)|)
  {
    hide NulFree;
    if es != [] {
      var init, e := es[..|es| - 1], es[|es| - 1];
      assert es == init + [e];
      PackedAppend(init, [e]);
      assert Packed([e]) == e + [0];
    }
  }

  /** The scan of a built block returns the very entries it was built from, and meets no
      limit: nothing else satisfies the scan's contract. */
  lemma BlockReadsBack(less: Less, directory: Entry, ordered: seq<Entry>, r: Option<seq<Entry>>)
    requires Accepted(less, directory, ordered)
    requires r.Some? ==> Packs(Block(ordered), r.value) && Within(r.value)
    requires r.None? ==> forall es :: Packs(Block(ordered), es) ==> !Within(es)
    ensures r == Some(ordered)
  {
    hide Packed, Packs, Proper, Within, Accepted, Block;
    AcceptedIsProper(less, directory, ordered);
    BlockPacks(ordered);
    if r.Some? { PackingUnique(Block(ordered), r.value, ordered); }
  }

  // ---- The object --------------------------------------------------------------------------

  /** What the system answers: the hash of a block, whether the directory could be opened as
      one, and its final path. */
  datatype World = World(hash: Entry -> Option<seq<byte>>, opens: bool, finalPath: Option<Entry>) {
    /** \\?\ in front of an ordinary drive path. */
    predicate Resolves() {
      && finalPath.Some? && 0 < |finalPath.value| < 32768
      && |finalPath.value| >= 4 && finalPath.value[..4] == [0x5c, 0x5c, 0x3f, 0x5c]
      && AbsoluteDrivePath(finalPath.value[4..]) && |finalPath.value| - 4 < MAX_PATH
    }
  }

  ghost predicate Built(less: Less, es: seq<Entry>, ordered: seq<Entry>) {
    multiset(ordered) == multiset(es) && StrictlyOrdered(less, ordered)
  }

  lemma {:induction false} OrderedExists(less: Less, es: seq<Entry>) returns (r: seq<Entry>)
    requires TotalPreorder(less)
    ensures multiset(r) == multiset(es) && Ordered(less, r)
  {
    hide Key, TotalPreorder, Ordered;
    if es == [] {
      NothingOrdered(less);
      r := [];
    } else {
      var init, e := es[..|es| - 1], es[|es| - 1];
      var o := OrderedExists(less, init);
      var at := Position(less, o, e, |o|);
      InsertedOrdered(less, o, e, at);
      InsertedBag(es, o, at);
      r := o[..at] + [e] + o[at..];
    }
  }

  lemma NothingOrdered(less: Less)
    ensures Ordered(less, [])
  {}

  lemma InsertedBag(es: seq<Entry>, o: seq<Entry>, at: nat)
    requires es != [] && at <= |o| && multiset(o) == multiset(es[..|es| - 1])
    ensures multiset(o[..at] + [es[|es| - 1]] + o[at..]) == multiset(es)
  {
    assert o == o[..at] + o[at..];
    assert es == es[..|es| - 1] + [es[|es| - 1]];
  }

  lemma {:induction false} Position(less: Less, es: seq<Entry>, e: Entry, n: nat) returns (at: nat)
    requires n <= |es| && forall k :: n <= k < |es| ==> less(Key(e), Key(es[k]))
    ensures at <= |es| && (at > 0 ==> !less(Key(e), Key(es[at - 1])))
    ensures forall k :: at <= k < |es| ==> less(Key(e), Key(es[k]))
  {
    hide Key;
    if n > 0 && less(Key(e), Key(es[n - 1])) { at := Position(less, es, e, n - 1); } else { at := n; }
  }

  /** The one strictly ordered listing of entries with differing keys. */
  ghost function Listing(less: Less, es: seq<Entry>): (r: seq<Entry>)
    requires TotalPreorder(less) && KeysDiffer(less, es)
    ensures Built(less, es, r)
  {
    assert exists o :: Built(less, es, o) by {
      var o := OrderedExists(less, es);
      DuplicatesFound(less, es, o);
      assert Built(less, es, o);
    }
    var r :| Built(less, es, r);
    r
  }

  /** Everything is accepted and the system cooperates. */
  ghost predicate Prepares(less: Less, path: Entry, entries: seq<Entry>, w: World)
    requires TotalPreorder(less)
  {
    Accepted(less, path, entries) && w.hash(Block(Listing(less, entries))).Some? && w.opens && w.Resolves()
  }

  /** The error path and entries end in: the first thing that is not as it should be. */
  ghost function BlockError(less: Less, path: Entry, entries: seq<Entry>): Option<string> {
    if !AbsoluteDrivePath(path) || |path| >= MAX_PATH then Some("launch_directory_input")
    else if |entries| > MAX_ENTRIES then Some("launch_environment_limit")
    else if EntriesError(entries, if entries == [] then 2 else 1).Some? then
      EntriesError(entries, if entries == [] then 2 else 1)
    else if !KeysDiffer(less, entries) then Some("launch_environment_duplicate")
    else None
  }

  lemma NoBlockError(less: Less, path: Entry, entries: seq<Entry>)
    ensures BlockError(less, path, entries).None? <==> Accepted(less, path, entries)
    ensures BlockError(less, path, entries).Some? ==> BlockError(less, path, entries).value != ""
  {
    EntriesAccepted(entries);
    if EntriesError(entries, if entries == [] then 2 else 1).Some? { ErrorIsNamed(entries); }
    hide KeysDiffer, ValidEntry, AbsoluteDrivePath, EntriesError, Block;
  }

  /** The error a preparation ends in. */
  ghost function PrepareError(less: Less, path: Entry, entries: seq<Entry>, w: World): Option<string>
    requires TotalPreorder(less)
  {
    NoBlockError(less, path, entries);
    if BlockError(less, path, entries).Some? then BlockError(less, path, entries)
    else if w.hash(Block(Listing(less, entries))).None? then Some("launch_environment_hash_failed")
    else if !w.opens then Some("launch_directory_unavailable")
    else if !w.Resolves() then Some("launch_directory_resolution")
    else None
  }

  /** There is no error exactly when everything is accepted and the system cooperates. */
  lemma PreparesWithoutError(less: Less, path: Entry, entries: seq<Entry>, w: World)
    requires TotalPreorder(less)
    ensures PrepareError(less, path, entries, w).None? <==> Prepares(less, path, entries, w)
  {
    NoBlockError(less, path, entries);
    hide Accepted, BlockError, TotalPreorder, Listing, Block;
  }

  /** Everything before the hash: the checks, the sorting and the packing. */
  method BuildBlock(less: Less, path: Entry, entries: seq<Entry>)
    returns (fault: Option<string>, count: nat, block: Entry)
    requires TotalPreorder(less)
    ensures fault == BlockError(less, path, entries)
    ensures fault.None? ==> KeysDiffer(less, entries) && block == Block(Listing(less, entries)) && count == |entries|
  {
    hide Packed, Block, EntriesError, Ordered, StrictlyOrdered, KeysDiffer, ValidEntry, AbsoluteDrivePath, Listing;
    count, block := 0, [];
    if !AbsoluteDrivePath(path) || |path| >= MAX_PATH { return Some("launch_directory_input"), count, block; }
    if |entries| > MAX_ENTRIES { return Some("launch_environment_limit"), count, block; }
    var units;
    fault, units := CheckEntries(entries);
    if fault.Some? { return; }
    var ordered := SortByKey(less, entries);
    var differ := NeighboursDiffer(less, ordered);
    DuplicatesFound(less, entries, ordered);
    if !differ { return Some("launch_environment_duplicate"), count, block; }
    OneListing(less, entries, ordered);
    block := PackBlock(ordered);
    count := |ordered|;
  }

  /** A reading of the snapshot within the limits that is prepared successfully. */
  ghost predicate Admissible(less: Less, path: Entry, snapshot: Entry, w: World, es: seq<Entry>)
    requires TotalPreorder(less)
  {
    Packs(snapshot, es) && Within(es) && Prepares(less, path, es, w)
  }

  class LaunchContext {
    var directory: Entry
    var environment: Entry
    var hash: seq<byte>
    var entryCount: nat
    var ready: bool
    var error: string

    /** The constructor over given entries: ready exactly when everything is accepted and the
        system cooperates; then the environment is the block of the one strictly ordered
        listing of the entries, and otherwise nothing but the error is set. */
    constructor (less: Less, path: Entry, entries: seq<Entry>, w: World)
      requires TotalPreorder(less)
      ensures ready <==> Prepares(less, path, entries, w)
      ensures ready ==> Holds(less, entries, w)
      ensures !ready ==> Blank() && PrepareError(less, path, entries, w) == Some(error)
    {
      directory, environment, hash, entryCount, ready := [], [], [], 0, false;
      error := "launch_context_not_prepared";
      new;
      Prepare(less, path, entries, w);
    }

    /** The constructor over the process environment; None when it cannot be had. */
    constructor Capturing(less: Less, path: Entry, snapshot: Option<Entry>, w: World, ghost end: nat)
      requires TotalPreorder(less) && (snapshot.Some? ==> StopsAt(snapshot.value, end))
      ensures ready <==> snapshot.Some? && exists es :: Admissible(less, path, snapshot.value, w, es)
      ensures ready ==> forall es :: Admissible(less, path, snapshot.value, w, es) ==> Holds(less, es, w)
      ensures !ready ==> Blank()
      ensures snapshot.None? ==> error == "launch_environment_capture_failed"
      ensures snapshot.Some? && !ready ==>
                if exists es :: Packs(snapshot.value, es) && Within(es)
                then forall es :: Packs(snapshot.value, es) ==> PrepareError(less, path, es, w) == Some(error)
                else error == "launch_environment_limit"
    {
      directory, environment, hash, entryCount, ready := [], [], [], 0, false;
      error := "launch_context_not_prepared";
      new;
      hide Packs, Within, Prepares, Holds, StopsAt, PrepareError;
      if snapshot.None? { error := "launch_environment_capture_failed"; return; }
      var entries := Capture(snapshot.value, end);
      if entries.None? { error := "launch_environment_limit"; return; }
      forall es | Packs(snapshot.value, es) ensures es == entries.value {
        PackingUnique(snapshot.value, es, entries.value);
      }
      Prepare(less, path, entries.value, w);
      assert ready <==> Admissible(less, path, snapshot.value, w, entries.value);
    }

    ghost predicate Blank()
      reads this
    {
      environment == [] && entryCount == 0 && directory == [] && hash == [] && error != ""
    }

    ghost predicate Holds(less: Less, entries: seq<Entry>, w: World)
      reads this
    {
      && TotalPreorder(less) && KeysDiffer(less, entries) && w.finalPath.Some? && |w.finalPath.value| >= 4
      && environment == Block(Listing(less, entries)) && Some(hash) == w.hash(environment)
      && entryCount == |entries| && directory == w.finalPath.value[4..] && error == ""
    }

    method Prepare(less: Less, path: Entry, entries: seq<Entry>, w: World)
      requires TotalPreorder(less) && !ready && Blank()
      modifies this
      ensures ready <==> Prepares(less, path, entries, w)
      ensures ready ==> Holds(less, entries, w)
      ensures !ready ==> Blank() && PrepareError(less, path, entries, w) == Some(error)
    {
      PreparesWithoutError(less, path, entries, w);
      NoBlockError(less, path, entries);
      hide Block, Accepted, BlockError, Prepares, KeysDiffer, Listing, TotalPreorder;
      var fault, count, block := BuildBlock(less, path, entries);
      if fault.Some? { error := fault.value; return; }
      var digest := w.hash(block);
      if digest.None? { error := "launch_environment_hash_failed"; return; }
      if !w.opens { error := "launch_directory_unavailable"; return; }
      if !w.Resolves() { error := "launch_directory_resolution"; return; }
      directory := w.finalPath.value[4..];
      environment := block;
      hash := digest.value;
      entryCount := count;
      ready := true;
      error := "";
    }
  }

  lemma EntriesAccepted(es: seq<Entry>)
    ensures EntriesError(es, if es == [] then 2 else 1).None? <==>
              (forall e :: e in es ==> ValidEntry(e)) && |Block(es)| <= MAX_UNITS
  {
    PackedUnits(es);
    NoEntriesError(es, if es == [] then 2 else 1);
    hide ValidEntry;
  }

  lemma {:induction false} ErrorNamed(es: seq<Entry>, units: nat)
    requires EntriesError(es, units).Some?
    ensures EntriesError(es, units).value != ""
  {
    hide ValidEntry;
    if ValidEntry(es[0]) && units + |es[0]| + 1 <= MAX_UNITS { ErrorNamed(es[1..], units + |es[0]| + 1); }
  }

  lemma ErrorIsNamed(es: seq<Entry>)
    requires EntriesError(es, if es == [] then 2 else 1).Some?
    ensures EntriesError(es, if es == [] then 2 else 1).value != ""
  {
    ErrorNamed(es, if es == [] then 2 else 1);
  }

  /** The duplicate test of the sorted list tells whether keys repeat in the given one. */
  lemma DuplicatesFound(less: Less, es: seq<Entry>, ordered: seq<Entry>)
    requires TotalPreorder(less) && multiset(ordered) == multiset(es) && Ordered(less, ordered)
    ensures StrictlyOrdered(less, ordered) <==> KeysDiffer(less, es)
  {
    StrictIsDiffering(less, ordered);
    DifferIsBag(less, ordered);
    DifferIsBag(less, es);
  }

  lemma OneListing(less: Less, es: seq<Entry>, ordered: seq<Entry>)
    requires TotalPreorder(less) && KeysDiffer(less, es) && Built(less, es, ordered)
    ensures ordered == Listing(less, es) && |ordered| == |es|
  {
    ListingUnique(less, ordered, Listing(less, es));
    assert |multiset(ordered)| == |ordered| && |multiset(es)| == |es|;
  }

  /** The block depends on the entries alone, not on the order they come in. */
  lemma BlockIsCanonical(less: Less, a: seq<Entry>, b: seq<Entry>)
    requires TotalPreorder(less) && multiset(a) == multiset(b) && KeysDiffer(less, a)
    ensures KeysDiffer(less, b) && Listing(less, a) == Listing(less, b)
  {
    DifferIsBag(less, a);
    DifferIsBag(less, b);
    ListingUnique(less, Listing(less, a), Listing(less, b));
  }

  /** A captured environment that was prepared before is prepared to the same block again. */
  lemma PrepareIsIdempotent(less: Less, directory: Entry, es: seq<Entry>)
    requires TotalPreorder(less) && Accepted(less, directory, es)
    ensures var listing := Listing(less, es);
            Accepted(less, directory, listing) && Listing(less, listing) == listing && Packs(Block(listing), listing)
  {
    var listing := Listing(less, es);
    ListingAccepted(less, directory, es, listing);
    ListingUnique(less, listing, Listing(less, listing));
    AcceptedIsProper(less, directory, listing);
    BlockPacks(listing);
  }

  lemma ListingAccepted(less: Less, directory: Entry, es: seq<Entry>, listing: seq<Entry>)
    requires TotalPreorder(less) && Accepted(less, directory, es) && Built(less, es, listing)
    ensures Accepted(less, directory, listing) && |Block(listing)| == |Block(es)|
  {
    UnitsOfPermutation(listing, es);
    PackedUnits(listing);
    PackedUnits(es);
    DifferIsBag(less, es);
    DifferIsBag(less, listing);
    hide Key, AbsoluteDrivePath, ValidEntry, Packed, KeysDiffer;
    assert |multiset(listing)| == |listing| && |multiset(es)| == |es|;
    forall e | e in listing ensures ValidEntry(e) { assert e in multiset(listing); assert e in es; }
    assert listing == [] <==> es == [];
  }
}
