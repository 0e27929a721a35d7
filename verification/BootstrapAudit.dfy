// The relocation part of the bootstrap artifact audit: unique file-backed reads,
// the walk over the relocation blocks, and the offsets each export gets.

module BootstrapAudit {
  import opened Words
  import opened Relocation
  import opened Sequences

  datatype Section = Section(rva: u32, rawSize: u32, raw: u32)

  datatype Failure = RvaNotUniqueFileBacked | RelocationDirectorySize | RelocationHeader | RelocationBlock
                   | UnsupportedRelocation | RelocationTarget | ExportPrefixPartialRelocation
                   | RelocationTargetOverlap | PreferredImageBase

  datatype Result<T> = Ok(value: T) | Refused(why: Failure)

  /** The artifact and its section table, checked to lie inside it. */
  datatype File = File(data: seq<byte>, sections: seq<Section>) {
    predicate Valid() {
      forall s :: s in sections ==> s.raw + s.rawSize <= |data|
    }
  }

  // ---- Reads ---------------------------------------------------------------

  predicate Backs(s: Section, rva: nat, length: nat) { s.rva <= rva && rva + length <= s.rva + s.rawSize }

  /** The list of every section's answer. */
  function Matches(sections: seq<Section>, rva: nat, length: nat): seq<nat> {
    if sections == [] then []
    else
      var s := sections[0];
      (if Backs(s, rva, length) then [s.raw + rva - s.rva] else []) + Matches(sections[1..], rva, length)
  }

  function Offset(sections: seq<Section>, rva: nat, length: nat): Option<nat> {
    var m := Matches(sections, rva, length);
    if length > 0 && |m| == 1 then Some(m[0]) else None
  }

  ghost predicate OnlyBackedBy(sections: seq<Section>, rva: nat, length: nat, i: nat) {
    && i < |sections| && Backs(sections[i], rva, length)
    && forall j :: 0 <= j < |sections| && Backs(sections[j], rva, length) ==> j == i
  }

  lemma {:induction false} NoMatches(sections: seq<Section>, rva: nat, length: nat)
    ensures Matches(sections, rva, length) == [] <==> forall s :: s in sections ==> !Backs(s, rva, length)
  {
    if sections != [] {
      NoMatches(sections[1..], rva, length);
      assert forall s :: s in sections <==> s == sections[0] || s in sections[1..];
    }
  }

  /** The match is unique exactly when one section backs the range. */
  lemma {:induction false} OffsetOf(sections: seq<Section>, rva: nat, length: nat, i: nat)
    requires OnlyBackedBy(sections, rva, length, i)
    ensures Matches(sections, rva, length) == [sections[i].raw + rva - sections[i].rva]
  {
    if i == 0 {
      NoMatches(sections[1..], rva, length);
      forall s | s in sections[1..] ensures !Backs(s, rva, length) {
        var j :| 0 <= j < |sections[1..]| && sections[1..][j] == s;
        assert sections[j + 1] == s;
      }
    } else {
      assert !Backs(sections[0], rva, length);
      forall j | 0 <= j < |sections[1..]| && Backs(sections[1..][j], rva, length) ensures j == i - 1 {
        assert sections[j + 1] == sections[1..][j];
      }
      OffsetOf(sections[1..], rva, length, i - 1);
    }
  }

  lemma {:induction false} OneMatch(sections: seq<Section>, rva: nat, length: nat) returns (i: nat)
    requires |Matches(sections, rva, length)| == 1
    ensures OnlyBackedBy(sections, rva, length, i)
  {
    if Backs(sections[0], rva, length) {
      i := 0;
      NoMatches(sections[1..], rva, length);
      forall j | 0 < j < |sections| ensures !Backs(sections[j], rva, length) {
        assert sections[j] == sections[1..][j - 1];
      }
    } else {
      i := OneMatch(sections[1..], rva, length);
      forall j | 0 <= j < |sections| && Backs(sections[j], rva, length) ensures j == i + 1 {
        if j > 0 { assert sections[1..][j - 1] == sections[j]; }
      }
      i := i + 1;
    }
  }

  /** A unique hit never reads outside the artifact, so the bounds test of a number read
      through an RVA cannot fail. */
  lemma OffsetInBounds(f: File, rva: nat, length: nat)
    requires f.Valid() && Offset(f.sections, rva, length).Some?
    ensures Offset(f.sections, rva, length).value + length <= |f.data|
  {
    hide Matches;
    var i := OneMatch(f.sections, rva, length);
    OffsetOf(f.sections, rva, length, i);
  }

  function Half(low: byte, high: byte): nat {
    var l: int, h: int := low, high;
    l + 0x100 * h
  }

  function Number16(f: File, rva: nat): Option<nat>
    requires f.Valid()
  {
    match Offset(f.sections, rva, 2)
    case None => None
    case Some(at) =>
      OffsetInBounds(f, rva, 2);
      Some(Half(f.data[at], f.data[at + 1]))
  }

  function Number32(f: File, rva: nat): Option<u32>
    requires f.Valid()
  {
    match Offset(f.sections, rva, 4)
    case None => None
    case Some(at) =>
      OffsetInBounds(f, rva, 4);
      Some(Join(f.data[at], f.data[at + 1], f.data[at + 2], f.data[at + 3]))
  }

  // ---- The relocation directory ---------------------------------------------

  /** What a record means on its own: nothing, a target, or a refusal. */
  predicate Disjoint(rva: nat, target: nat) { target + 4 <= rva || target >= rva + PREFIX }
  predicate Inside(rva: nat, target: nat) { rva <= target && target + 4 <= rva + PREFIX }

  /** Why a record is refused, in the order of the tests; None when it is not. */
  function RecordFault(imageSize: u32, rvas: seq<u32>, page: u32, value: nat): Option<Failure> {
    var kind, target := value / 4096, page + value % 4096;
    if kind == 0 then None
    else if kind != 3 then Some(UnsupportedRelocation)
    else if target > imageSize - 4 then Some(RelocationTarget)
    else if exists e :: 0 <= e < |rvas| && Straddles(rvas[e], target) then Some(ExportPrefixPartialRelocation)
    else None
  }

  predicate Straddles(rva: nat, target: nat) { !Disjoint(rva, target) && !Inside(rva, target) }

  predicate RecordAllowed(imageSize: u32, rvas: seq<u32>, page: u32, value: nat) {
    value / 4096 == 0 ||
    (value / 4096 == 3 && page + value % 4096 <= imageSize - 4 &&
     forall e :: 0 <= e < |rvas| ==> Disjoint(rvas[e], page + value % 4096) || Inside(rvas[e], page + value % 4096))
  }

  lemma FaultlessIsAllowed(imageSize: u32, rvas: seq<u32>, page: u32, value: nat)
    ensures RecordFault(imageSize, rvas, page, value) == None <==> RecordAllowed(imageSize, rvas, page, value)
  {
    hide Disjoint, Inside;
    var target := page + value % 4096;
    assert forall e :: 0 <= e < |rvas| ==>
             (Straddles(rvas[e], target) <==> !(Disjoint(rvas[e], target) || Inside(rvas[e], target)));
  }

  function RecordTargets(page: u32, value: nat): seq<nat> {
    if value / 4096 == 0 then [] else [page + value % 4096]
  }

  /** The targets of n records starting at rva, or why the first bad one is refused. */
  function Records(f: File, imageSize: u32, rvas: seq<u32>, page: u32, rva: nat, n: nat): Result<seq<nat>>
    requires f.Valid()
    decreases n
  {
    if n == 0 then Ok([])
    else
      match Number16(f, rva)
      case None => Refused(RvaNotUniqueFileBacked)
      case Some(value) =>
        match RecordFault(imageSize, rvas, page, value)
        case Some(why) => Refused(why)
        case None => Prepend(RecordTargets(page, value), Records(f, imageSize, rvas, page, rva + 2, n - 1))
  }

  function Prepend(a: seq<nat>, b: Result<seq<nat>>): Result<seq<nat>> {
    match b case Refused(why) => b case Ok(v) => Ok(a + v)
  }

  lemma PrependEmpty(o: Result<seq<nat>>)
    ensures Prepend([], o) == o
  {
    if o.Ok? { assert [] + o.value == o.value; }
  }

  lemma PrependNothing(a: seq<nat>)
    ensures Prepend(a, Ok([])) == Ok(a)
  {
    assert a + [] == a;
  }

  lemma PrependRefused(a: seq<nat>)
    ensures forall why :: Prepend(a, Refused(why)) == Refused(why)
  {}

  lemma PrependTwice(a: seq<nat>, b: seq<nat>, o: Result<seq<nat>>)
    ensures Prepend(a, Prepend(b, o)) == Prepend(a + b, o)
  {
    if o.Ok? { assert a + (b + o.value) == a + b + o.value; }
  }

  predicate BlockShaped(page: u32, size: u32, left: nat) {
    size >= 8 && size % 4 == 0 && size <= left && page % 4096 == 0
  }

  /** The targets of the whole directory, in file order, or why the walk stops. */
  function Targets(f: File, imageSize: u32, rvas: seq<u32>, rva: nat, left: nat): Result<seq<nat>>
    requires f.Valid()
    decreases left
  {
    if left == 0 then Ok([])
    else if left < 8 then Refused(RelocationHeader)
    else
      match Number32(f, rva)
      case None => Refused(RvaNotUniqueFileBacked)
      case Some(page) =>
        match Number32(f, rva + 4)
        case None => Refused(RvaNotUniqueFileBacked)
        case Some(size) =>
          if !BlockShaped(page, size, left) then Refused(RelocationBlock)
          else
            match Records(f, imageSize, rvas, page, rva + 8, (size - 8) / 2)
            case Refused(why) => Refused(why)
            case Ok(ts) => Prepend(ts, Targets(f, imageSize, rvas, rva + size, left - size))
  }

  /** The offsets of the targets inside one export's prefix. */
  function OffsetsIn(rva: u32, ts: seq<nat>): seq<nat> {
    if ts == [] then []
    else
      var t := ts[|ts| - 1];
      OffsetsIn(rva, ts[..|ts| - 1]) + if Inside(rva, t) then [t - rva] else []
  }

  // ---- Sorting and spacing ----------------------------------------------------

  predicate Apart(s: seq<nat>) {
    forall i, j :: 0 <= i < j < |s| ==> s[i] + 4 <= s[j] || s[j] + 4 <= s[i]
  }

  predicate Ordered(s: seq<nat>) { forall i, j :: 0 <= i < j < |s| ==> s[i] <= s[j] }

  function Insert(x: nat, s: seq<nat>): (r: seq<nat>)
    ensures |r| == |s| + 1
  {
    if s == [] || x <= s[0] then [x] + s else [s[0]] + Insert(x, s[1..])
  }

  /** Stands for the language's sort. */
  function Sort(s: seq<nat>): (r: seq<nat>)
    ensures |r| == |s|
  {
    if s == [] then [] else Insert(s[0], Sort(s[1..]))
  }

  lemma {:induction false} InsertBag(x: nat, s: seq<nat>)
    ensures multiset(Insert(x, s)) == multiset(s) + multiset{x}
  {
    if s != [] && x > s[0] {
      InsertBag(x, s[1..]);
      assert s == [s[0]] + s[1..];
    }
  }

  lemma {:induction false} InsertKeeps(x: nat, s: seq<nat>)
    requires Ordered(s)
    ensures Ordered(Insert(x, s)) && multiset(Insert(x, s)) == multiset(s) + multiset{x}
  {
    InsertBag(x, s);
    if s != [] && x > s[0] {
      InsertKeeps(x, s[1..]);
      AboveAll(s[0], x, s[1..], Insert(x, s[1..]));
    }
  }

  lemma AboveAll(low: nat, x: nat, s: seq<nat>, t: seq<nat>)
    requires multiset(t) == multiset(s) + multiset{x} && low < x && Ordered(t)
    requires forall k :: 0 <= k < |s| ==> low <= s[k]
    ensures Ordered([low] + t)
  {
    forall k | 0 <= k < |t| ensures low <= t[k] {
      assert t[k] in multiset(t);
      assert t[k] == x || t[k] in s;
    }
  }

  lemma {:induction false} SortKeeps(s: seq<nat>)
    ensures Ordered(Sort(s)) && multiset(Sort(s)) == multiset(s)
  {
    if s != [] {
      SortKeeps(s[1..]);
      InsertKeeps(s[0], Sort(s[1..]));
      assert s == [s[0]] + s[1..];
    }
  }

  ghost predicate Clashes(m: multiset<nat>) {
    exists x, y :: Near(x, y) && x in m && y in m && (x != y || m[x] >= 2)
  }

  predicate Near(x: nat, y: nat) { x < y + 4 && y < x + 4 }

  /** Being pairwise apart does not depend on the order. */
  lemma ApartIsClashFree(s: seq<nat>)
    ensures Apart(s) <==> !Clashes(multiset(s))
  {
    if Clashes(multiset(s)) {
      var x, y :| Near(x, y) && x in multiset(s) && y in multiset(s) && (x != y || multiset(s)[x] >= 2);
      if x == y {
        var i, j := TwoPlaces(s, x);
        assert !(s[i] + 4 <= s[j] || s[j] + 4 <= s[i]);
      } else {
        var i :| 0 <= i < |s| && s[i] == x;
        var j :| 0 <= j < |s| && s[j] == y;
        var lo, hi := if i < j then i else j, if i < j then j else i;
        assert lo < hi && !(s[lo] + 4 <= s[hi] || s[hi] + 4 <= s[lo]);
      }
    }
    if !Apart(s) {
      var i, j :| 0 <= i < j < |s| && !(s[i] + 4 <= s[j] || s[j] + 4 <= s[i]);
      assert Near(s[i], s[j]);
      if s[i] == s[j] { OccursTwice(s, i, j); }
    }
  }

  lemma SortApart(s: seq<nat>)
    ensures Apart(Sort(s)) <==> Apart(s)
  {
    SortKeeps(s);
    ApartIsClashFree(s);
    ApartIsClashFree(Sort(s));
  }

  /** zip(ordered, ordered[1:]) compared pairwise. */
  method AdjacentApart(s: seq<nat>) returns (ok: bool)
    requires Ordered(s)
    ensures ok <==> Apart(s)
  {
    for i := 0 to |s| - (if s == [] then 0 else 1)
      invariant forall k :: 0 <= k < i ==> s[k] + 4 <= s[k + 1]
    {
      if s[i + 1] < s[i] + 4 {
        assert !(s[i] + 4 <= s[i + 1] || s[i + 1] + 4 <= s[i]);
        return false;
      }
    }
    forall i, j | 0 <= i < j < |s| ensures s[i] + 4 <= s[j] {
      assert s[i] + 4 <= s[i + 1] <= s[j];
    }
    return true;
  }

  // ---- The walk ------------------------------------------------------------------

  /** What the audit demands of the relocations, all at once. */
  ghost predicate Sound(f: File, imageSize: u32, rvas: seq<u32>, rva: u32, size: u32, preferred: u32)
    requires f.Valid()
  {
    && 0 < size <= 1024 * 1024
    && Targets(f, imageSize, rvas, rva, size).Ok?
    && Apart(Targets(f, imageSize, rvas, rva, size).value)
    && preferred > 0 && preferred % 65536 == 0
  }

  /** The reason of a refusal: the directory's size, the first fault of the walk, then the
      spacing of the targets and the preferred base. */
  ghost function AuditFault(f: File, imageSize: u32, rvas: seq<u32>, rva: u32, size: u32): Failure
    requires f.Valid()
  {
    if !(0 < size <= 1024 * 1024) then RelocationDirectorySize
    else
      match Targets(f, imageSize, rvas, rva, size)
      case Refused(why) => why
      case Ok(ts) => if !Apart(ts) then RelocationTargetOverlap else PreferredImageBase
  }

  ghost predicate Collected(rvas: seq<u32>, offsets: seq<seq<nat>>, ts: seq<nat>) {
    |offsets| == |rvas| && forall e :: 0 <= e < |rvas| ==> offsets[e] == OffsetsIn(rvas[e], ts)
  }

  /** One record against every export. */
  method Classify(rvas: seq<u32>, offsets: seq<seq<nat>>, ghost ts: seq<nat>, target: nat)
      returns (r: Option<seq<seq<nat>>>)
    requires Collected(rvas, offsets, ts)
    ensures r.None? <==> exists e :: 0 <= e < |rvas| && Straddles(rvas[e], target)
    ensures r.Some? ==> Collected(rvas, r.value, ts + [target])
  {
    var out := offsets;
    assert (ts + [target])[..|ts|] == ts;
    for e := 0 to |rvas|
      invariant |out| == |rvas|
      invariant forall k :: 0 <= k < e ==> out[k] == OffsetsIn(rvas[k], ts + [target])
      invariant forall k :: e <= k < |rvas| ==> out[k] == offsets[k]
      invariant forall k :: 0 <= k < e ==> !Straddles(rvas[k], target)
    {
      if target + 4 <= rvas[e] || target >= rvas[e] + PREFIX {
        continue;
      }
      if !(rvas[e] <= target && target + 4 <= rvas[e] + PREFIX) {
        assert Straddles(rvas[e], target);
        return None;
      }
      out := out[e := out[e] + [target - rvas[e]]];
    }
    return Some(out);
  }

  /** Accepted exactly when the relocations are sound; then every export has the sorted
      offsets of the targets in its prefix. */
  method Audit(f: File, imageSize: u32, rvas: seq<u32>, relocRva: u32, relocSize: u32, preferred: u32)
    returns (r: Result<seq<seq<nat>>>)
    requires f.Valid()
    ensures r.Ok? <==> Sound(f, imageSize, rvas, relocRva, relocSize, preferred)
    ensures r.Refused? ==> r.why == AuditFault(f, imageSize, rvas, relocRva, relocSize)
    ensures r.Ok? ==> |r.value| == |rvas|
    ensures r.Ok? ==> forall e :: 0 <= e < |rvas| ==>
              r.value[e] == Sort(OffsetsIn(rvas[e], Targets(f, imageSize, rvas, relocRva, relocSize).value))
  {
    hide Number16, Number32, Offset, Matches, Inside, Disjoint, OffsetsIn, Sort, Apart, Ordered, Records, Collected,
         Prepend;
    if !(0 < relocSize <= 1024 * 1024) {
      return Refused(RelocationDirectorySize);
    }
    var consumed := 0;
    var targets: seq<nat> := [];
    var offsets: seq<seq<nat>> := seq(|rvas|, i => []);
    NothingCollected(rvas, offsets);
    ghost var whole := Targets(f, imageSize, rvas, relocRva, relocSize);
    PrependEmpty(whole);
    while consumed < relocSize
      invariant 0 <= consumed <= relocSize
      invariant whole == Prepend(targets, Targets(f, imageSize, rvas, relocRva + consumed, relocSize - consumed))
      invariant Collected(rvas, offsets, targets)
      decreases relocSize - consumed
    {
      PrependRefused(targets);
      if relocSize - consumed < 8 {
        return Refused(RelocationHeader);
      }
      var page := Number32(f, relocRva + consumed);
      if page == None { return Refused(RvaNotUniqueFileBacked); }
      var size := Number32(f, relocRva + consumed + 4);
      if size == None { return Refused(RvaNotUniqueFileBacked); }
      if !(size.value >= 8 && size.value % 4 == 0 && size.value <= relocSize - consumed && page.value % 4096 == 0) {
        return Refused(RelocationBlock);
      }
      ghost var before := targets;
      var failure;
      failure, targets, offsets :=
        WalkBlock(f, imageSize, rvas, page.value, relocRva + consumed, size.value, targets, offsets);
      if failure.Some? {
        return Refused(failure.value);
      }
      PrependTwice(before, targets[|before|..], Targets(f, imageSize, rvas, relocRva + consumed + size.value,
                                                        relocSize - consumed - size.value));
      consumed := consumed + size.value;
    }
    PrependNothing(targets);
    var ordered := Sort(targets);
    SortKeeps(targets);
    SortApart(targets);
    var apart := AdjacentApart(ordered);
    if !apart {
      return Refused(RelocationTargetOverlap);
    }
    if !(preferred > 0 && preferred % 65536 == 0) {
      return Refused(PreferredImageBase);
    }
    CollectedIs(rvas, offsets, targets);
    return Ok(seq(|offsets|, i requires 0 <= i < |offsets| => Sort(offsets[i])));
  }

  lemma NothingCollected(rvas: seq<u32>, offsets: seq<seq<nat>>)
    requires |offsets| == |rvas| && forall e :: 0 <= e < |offsets| ==> offsets[e] == []
    ensures Collected(rvas, offsets, [])
  {}

  lemma CollectedIs(rvas: seq<u32>, offsets: seq<seq<nat>>, ts: seq<nat>)
    requires Collected(rvas, offsets, ts)
    ensures |offsets| == |rvas| && forall e :: 0 <= e < |rvas| ==> offsets[e] == OffsetsIn(rvas[e], ts)
  {}

  /** One record: skipped, refused, or entered in the lists. */
  method WalkRecord(f: File, imageSize: u32, rvas: seq<u32>, page: u32, rva: nat,
                    before: seq<nat>, offsetsBefore: seq<seq<nat>>)
    returns (failure: Option<Failure>, targets: seq<nat>, offsets: seq<seq<nat>>)
    requires f.Valid() && Collected(rvas, offsetsBefore, before)
    ensures failure == match Number16(f, rva)
                       case None => Some(RvaNotUniqueFileBacked)
                       case Some(value) => RecordFault(imageSize, rvas, page, value)
    ensures failure.None? ==>
              targets == before + RecordTargets(page, Number16(f, rva).value) && Collected(rvas, offsets, targets)
  {
    hide Number16, Inside, Disjoint, Collected;
    targets, offsets := before, offsetsBefore;
    var value := Number16(f, rva);
    if value == None { return Some(RvaNotUniqueFileBacked), targets, offsets; }
    var kind, target := value.value / 4096, page + value.value % 4096;
    if kind != 0 {
      if kind != 3 { return Some(UnsupportedRelocation), targets, offsets; }
      if !(target <= imageSize - 4) { return Some(RelocationTarget), targets, offsets; }
      var sorted := Classify(rvas, offsets, targets, target);
      if sorted == None { return Some(ExportPrefixPartialRelocation), targets, offsets; }
      offsets := sorted.value;
      targets := targets + [target];
    }
    return None, targets, offsets;
  }

  lemma RecordsStep(f: File, imageSize: u32, rvas: seq<u32>, page: u32, rva: nat, n: nat)
    requires f.Valid() && n > 0
    ensures Records(f, imageSize, rvas, page, rva, n) ==
              if Number16(f, rva).None? then Refused(RvaNotUniqueFileBacked)
              else if RecordFault(imageSize, rvas, page, Number16(f, rva).value).Some?
              then Refused(RecordFault(imageSize, rvas, page, Number16(f, rva).value).value)
              else Prepend(RecordTargets(page, Number16(f, rva).value),
                           Records(f, imageSize, rvas, page, rva + 2, n - 1))
  {
    hide Number16, RecordFault, RecordTargets, Prepend;
  }

  method WalkBlock(f: File, imageSize: u32, rvas: seq<u32>, page: u32, rva: nat, size: u32,
                   before: seq<nat>, offsetsBefore: seq<seq<nat>>)
    returns (failure: Option<Failure>, targets: seq<nat>, offsets: seq<seq<nat>>)
    requires f.Valid() && size >= 8 && size % 4 == 0 && Collected(rvas, offsetsBefore, before)
    ensures match Records(f, imageSize, rvas, page, rva + 8, (size - 8) / 2)
            case Refused(why) => failure == Some(why)
            case Ok(ts) => failure == None
    ensures failure.None? ==>
              targets == before + Records(f, imageSize, rvas, page, rva + 8, (size - 8) / 2).value &&
              Collected(rvas, offsets, targets)
  {
    hide Number16, Collected, RecordFault, RecordTargets, Records, Prepend;
    targets, offsets := before, offsetsBefore;
    ghost var n: nat := (size - 8) / 2;
    ghost var all := Records(f, imageSize, rvas, page, rva + 8, n);
    ghost var got: seq<nat> := [];
    PrependEmpty(all);
    var i := 8;
    while i < size
      invariant 8 <= i && size - i == 2 * n
      invariant targets == before + got
      invariant all == Prepend(got, Records(f, imageSize, rvas, page, rva + i, n))
      invariant Collected(rvas, offsets, targets)
    {
      RecordsStep(f, imageSize, rvas, page, rva + i, n);
      PrependRefused(got);
      failure, targets, offsets := WalkRecord(f, imageSize, rvas, page, rva + i, targets, offsets);
      if failure.Some? { return; }
      ghost var more := RecordTargets(page, Number16(f, rva + i).value);
      PrependTwice(got, more, Records(f, imageSize, rvas, page, rva + i + 2, n - 1));
      got := got + more;
      i := i + 2;
      n := n - 1;
    }
    assert Records(f, imageSize, rvas, page, rva + i, 0) == Ok([]) by { NoRecords(f, imageSize, rvas, page, rva + i); }
    PrependNothing(got);
    return None, targets, offsets;
  }

  lemma NoRecords(f: File, imageSize: u32, rvas: seq<u32>, page: u32, rva: nat)
    requires f.Valid()
    ensures Records(f, imageSize, rvas, page, rva, 0) == Ok([])
  {}
}
