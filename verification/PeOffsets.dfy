// From RVAs to file offsets over an accepted image.

module PeOffsets {
  import opened Words
  import opened PeImage

  /** The raw part of s holds the bytes [rva, rva + length). */
  predicate Holds(s: PeSection, rva: u32, length: nat) {
    rva >= s.rva && Fits(rva - s.rva, length, s.raw_size)
  }

  function OffsetIn(s: PeSection, rva: u32): nat
    requires rva >= s.rva
  {
    s.raw_offset + (rva - s.rva)
  }

  ghost predicate OnlyHolder(l: PeLayout, rva: u32, length: nat, i: nat)
    requires l.section_count <= MAX_SECTIONS
  {
    && i < l.section_count && Holds(l.sections[i], rva, length)
    && forall j {:trigger l.sections[j]} :: 0 <= j < l.section_count && Holds(l.sections[j], rva, length) ==> j == i
  }

  /** The specification of raw_offset as a function. */
  ghost function Raw(l: PeLayout, rva: u32, length: nat): Option<nat> {
    if length == 0 || l.section_count > MAX_SECTIONS || !exists i: nat :: OnlyHolder(l, rva, length, i) then None
    else
      var i: nat :| OnlyHolder(l, rva, length, i);
      Some(OffsetIn(l.sections[i], rva))
  }

  lemma RawIs(l: PeLayout, rva: u32, length: nat, i: nat)
    requires length > 0 && l.section_count <= MAX_SECTIONS && OnlyHolder(l, rva, length, i)
    ensures Raw(l, rva, length) == Some(OffsetIn(l.sections[i], rva))
  {
    hide Fits;
  }

  /** raw_offset: the offset in the one section that holds the range, on any layout. */
  method RawOffset(l: PeLayout, rva: u32, length: nat) returns (r: Option<nat>)
    ensures r == Raw(l, rva, length)
  {
    hide Fits;
    if length == 0 || l.section_count > MAX_SECTIONS {
      return None;
    }
    r := None;
    ghost var at: nat := 0;
    for i := 0 to l.section_count
      invariant r.None? ==> forall j {:trigger l.sections[j]} :: 0 <= j < i ==> !Holds(l.sections[j], rva, length)
      invariant r.Some? ==> at < i && Holds(l.sections[at], rva, length) && r.value == OffsetIn(l.sections[at], rva)
      invariant r.Some? ==> (forall j {:trigger l.sections[j]} ::
                               0 <= j < i && Holds(l.sections[j], rva, length) ==> j == at)
    {
      var s := l.sections[i];
      if Holds(s, rva, length) {
        if r.Some? {
          Ambiguous(l, rva, length, at, i);
          return None;
        }
        r := Some(OffsetIn(s, rva));
        at := i;
      }
    }
    if r.Some? { RawIs(l, rva, length, at); }
  }

  lemma Ambiguous(l: PeLayout, rva: u32, length: nat, i: nat, j: nat)
    requires i < j < l.section_count <= MAX_SECTIONS && Holds(l.sections[i], rva, length)
             && Holds(l.sections[j], rva, length)
    ensures !exists k: nat :: OnlyHolder(l, rva, length, k)
  {}

  // ---- Accepted images ---------------------------------------------------------

  /** What parse_pe32 guarantees of the layout of a file of this size. */
  ghost predicate Accepted(l: PeLayout, size: nat) {
    && 1 <= l.section_count <= MAX_SECTIONS && LayoutOk(l, size)
    && var ss := l.sections[..l.section_count];
       AllOk(ss, l, size) && Apart(ss) && EntryFound(ss, l.entry_rva)
  }

  lemma {:induction false} SectionOkIgnores(ss: seq<PeSection>, l: PeLayout, m: PeLayout, size: nat)
    requires m == l.(sections := m.sections) && l.section_alignment != 0 && l.file_alignment != 0
    requires AllOk(ss, l, size)
    ensures AllOk(ss, m, size)
  {}

  lemma VerdictAccepts(ss: seq<PeSection>, l: PeLayout, size: nat)
    requires l.section_alignment != 0 && l.file_alignment != 0
    ensures Verdict(ss, l, size, NoError) <==> AllOk(ss, l, size) && Apart(ss) && EntryFound(ss, l.entry_rva)
  {
    hide SectionOk, Collide, HoldsEntry;
  }

  /** Every file the parser accepts yields such a layout. */
  lemma ParsedIsAccepted(b: seq<byte>, r: PeResult)
    ensures ParsesTo(b, r) && r.error == NoError ==> Accepted(r.layout, |b|)
  {
    if ParsesTo(b, r) && r.error == NoError {
      hide ReadHeader, LayoutOk, Verdict, AllOk, Apart, EntryFound, Blanks;
      var h := ReadHeader(b);
      var ss := Table(b, h, h.layout.section_count);
      Aligned(h.layout, |b|);
      VerdictAccepts(ss, h.layout, |b|);
      LayoutIgnores(h.layout, r.layout, |b|);
      SectionOkIgnores(ss, h.layout, r.layout, |b|);
      assert r.layout.sections[..h.layout.section_count] == ss;
    }
  }

  lemma LayoutIgnores(l: PeLayout, m: PeLayout, size: nat)
    requires m == l.(sections := m.sections) && LayoutOk(l, size)
    ensures LayoutOk(m, size)
  {}

  /** The parser's refusals are unique: the table decides the error. */
  lemma VerdictUnique(ss: seq<PeSection>, l: PeLayout, size: nat, e: PeError, f: PeError)
    requires l.section_alignment != 0 && l.file_alignment != 0 && Verdict(ss, l, size, e) && Verdict(ss, l, size, f)
    ensures e == f
  {
    hide SectionOk, Collide, HoldsEntry;
    if !(AllOk(ss, l, size) && Apart(ss)) {
      var i: nat :| FaultAt(ss, l, size, i, e);
      var j: nat :| FaultAt(ss, l, size, j, f);
      if i < j { FirstFault(ss, l, size, i, e, j); }
      if j < i { FirstFault(ss, l, size, j, f, i); }
    }
  }

  lemma FirstFault(ss: seq<PeSection>, l: PeLayout, size: nat, i: nat, e: PeError, j: nat)
    requires l.section_alignment != 0 && l.file_alignment != 0 && i < j <= |ss| && FaultAt(ss, l, size, i, e)
    ensures !(AllOk(ss[..j], l, size) && Apart(ss[..j]))
  {
    hide SectionOk, Collide;
    assert ss[..j][i] == ss[i];
    if SectionOk(ss[i], l, size) {
      var k :| 0 <= k < i && Collide(ss[i], ss[k]);
      assert ss[..j][k] == ss[k];
    }
  }

  /** Sections of an accepted image share no virtual and no file byte. */
  lemma SectionsDisjoint(l: PeLayout, size: nat, i: nat, j: nat, x: nat)
    requires Accepted(l, size) && i < l.section_count && j < l.section_count && i != j
    ensures var s, t := l.sections[i], l.sections[j];
            && !(s.rva <= x < s.rva + s.Extent() && t.rva <= x < t.rva + t.Extent())
            && !(s.raw_offset <= x < s.raw_offset + s.raw_size && t.raw_offset <= x < t.raw_offset + t.raw_size)
  {
    hide LayoutOk, SectionOk, HoldsEntry;
    var ss := l.sections[..l.section_count];
    var hi, lo := if i < j then j else i, if i < j then i else j;
    assert !Collide(ss[hi], ss[lo]);
  }

  /** On an accepted image a range of at least one byte is never in two sections. */
  lemma HolderUnique(l: PeLayout, size: nat, rva: u32, length: nat, i: nat)
    requires Accepted(l, size) && length > 0 && i < l.section_count && Holds(l.sections[i], rva, length)
    ensures OnlyHolder(l, rva, length, i)
  {
    hide Accepted;
    AcceptedCount(l, size);
    forall j {:trigger l.sections[j]} | 0 <= j < l.section_count && Holds(l.sections[j], rva, length) ensures j == i {
      if j != i { SectionsDisjoint(l, size, i, j, rva); }
    }
  }

  lemma AcceptedCount(l: PeLayout, size: nat)
    requires Accepted(l, size)
    ensures 1 <= l.section_count <= MAX_SECTIONS && LayoutOk(l, size)
  {}

  lemma AcceptedSection(l: PeLayout, size: nat, i: nat)
    requires Accepted(l, size) && i < l.section_count
    ensures l.section_alignment != 0 && l.file_alignment != 0 && SectionOk(l.sections[i], l, size)
  {
    hide SectionOk;
    assert l.sections[..l.section_count][i] == l.sections[i];
  }

  /** So there raw_offset answers exactly when some section holds the range, and no matter
      which section is named, with that section's offset. */
  lemma NeverAmbiguous(l: PeLayout, size: nat, rva: u32, length: nat)
    requires Accepted(l, size) && length > 0
    ensures Raw(l, rva, length).Some? <==>
              exists i {:trigger l.sections[i]} :: 0 <= i < l.section_count && Holds(l.sections[i], rva, length)
    ensures forall i {:trigger l.sections[i]} :: 0 <= i < l.section_count && Holds(l.sections[i], rva, length) ==>
              Raw(l, rva, length) == Some(OffsetIn(l.sections[i], rva))
  {
    hide Accepted, Raw, OnlyHolder, Fits;
    AcceptedCount(l, size);
    forall i {:trigger l.sections[i]} | 0 <= i < l.section_count && Holds(l.sections[i], rva, length)
      ensures Raw(l, rva, length) == Some(OffsetIn(l.sections[i], rva))
    {
      HolderUnique(l, size, rva, length, i);
      RawIs(l, rva, length, i);
    }
    if Raw(l, rva, length).Some? { var i := RawHolder(l, rva, length); }
  }

  lemma RawHolder(l: PeLayout, rva: u32, length: nat) returns (i: nat)
    requires Raw(l, rva, length).Some?
    ensures length > 0 && i < l.section_count <= MAX_SECTIONS && Holds(l.sections[i], rva, length)
    ensures Raw(l, rva, length) == Some(OffsetIn(l.sections[i], rva))
  {
    hide Fits;
    i :| OnlyHolder(l, rva, length, i);
  }

  /** Every answer lies behind the headers and inside the file, with the whole range. */
  lemma RawInFile(l: PeLayout, size: nat, rva: u32, length: nat)
    requires Accepted(l, size) && Raw(l, rva, length).Some?
    ensures l.headers_size <= Raw(l, rva, length).value && Raw(l, rva, length).value + length <= size
  {
    hide Accepted, Raw, LayoutOk;
    var i := RawHolder(l, rva, length);
    AcceptedSection(l, size, i);
    InFile(l.sections[i], l, size, rva, length);
  }

  lemma InFile(s: PeSection, l: PeLayout, size: nat, rva: u32, length: nat)
    requires l.section_alignment != 0 && l.file_alignment != 0 && SectionOk(s, l, size) && length > 0
             && Holds(s, rva, length)
    ensures l.headers_size <= OffsetIn(s, rva) && OffsetIn(s, rva) + length <= size
    ensures OffsetIn(s, rva) + length <= s.raw_offset + s.raw_size
  {}

  /** The entry point has a file offset. */
  lemma RawAtEntry(l: PeLayout, size: nat)
    requires Accepted(l, size)
    ensures Raw(l, l.entry_rva, 1).Some?
  {
    NeverAmbiguous(l, size, l.entry_rva, 1);
    hide LayoutOk, Raw, SectionOk, Collide;
    var ss := l.sections[..l.section_count];
    var s :| s in ss && HoldsEntry(s, l.entry_rva);
    var i :| 0 <= i < |ss| && ss[i] == s;
    assert Holds(l.sections[i], l.entry_rva, 1);
  }

  /** Distinct RVAs never share a file byte, whatever lengths they are asked with. */
  lemma RawInjective(l: PeLayout, size: nat, a: u32, an: nat, b: u32, bn: nat)
    requires Accepted(l, size) && Raw(l, a, an).Some? && Raw(l, b, bn).Some?
    ensures Raw(l, a, an) == Raw(l, b, bn) <==> a == b
  {
    hide Accepted, Raw, LayoutOk;
    var i := RawHolder(l, a, an);
    var j := RawHolder(l, b, bn);
    AcceptedSection(l, size, i);
    AcceptedSection(l, size, j);
    if i != j {
      SectionsDisjoint(l, size, i, j, OffsetIn(l.sections[i], a));
      SectionsDisjoint(l, size, i, j, a);
      InFile(l.sections[i], l, size, a, an);
      InFile(l.sections[j], l, size, b, bn);
    }
  }
}
