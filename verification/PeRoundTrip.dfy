// What the parser accepts, in terms of files written part by part: it reads back the
// fields of every file, names the first thing wrong with a bad one, and accepts no byte
// string that is not such a file.

module PeRoundTrip {
  import opened Words
  import opened PeImage
  import opened PeWriter
  import PeOffsets

  // ---- Loadable files ---------------------------------------------------------------

  ghost predicate Multiple(n: nat, d: nat) { exists q: nat :: n == q * d }

  ghost predicate PowerUpTo(n: nat, k: nat) { exists m: nat :: m <= k && n == Pow2(m) }

  /** Alignments, sizes and base of an image of at most 256 MB. */
  ghost predicate LayoutSuits(l: PeLayout, size: nat) {
    && PowerUpTo(l.file_alignment, 16) && 512 <= l.file_alignment
    && PowerUpTo(l.section_alignment, 31) && l.file_alignment <= l.section_alignment
    && 0 < l.image_size <= 0x1000_0000 && Multiple(l.image_size, l.section_alignment)
    && 0 < l.headers_size <= size && l.headers_size <= l.image_size && Multiple(l.headers_size, l.file_alignment)
    && 0 < l.image_base && Multiple(l.image_base, 0x1_0000) && l.image_base + l.image_size <= 0x1_0000_0000
  }

  /** A section within the image, its raw bytes within the file, both behind the headers. */
  ghost predicate SectionSuits(s: PeSection, l: PeLayout, size: nat) {
    var extent := if s.virtual_size < s.raw_size then s.raw_size else s.virtual_size;
    && 0 < extent && l.headers_size <= s.rva && s.rva + extent <= l.image_size && Multiple(s.rva, l.section_alignment)
    && s.raw_offset + s.raw_size <= size
    && (0 < s.raw_size ==> l.headers_size <= s.raw_offset && Multiple(s.raw_offset, l.file_alignment)
                           && Multiple(s.raw_size, l.file_alignment))
  }

  predicate In(x: nat, at: nat, length: nat) { at <= x < at + length }

  predicate InMemory(s: PeSection, x: nat) { In(x, s.rva, s.virtual_size) || In(x, s.rva, s.raw_size) }

  predicate OnDisk(s: PeSection, x: nat) { In(x, s.raw_offset, s.raw_size) }

  ghost predicate ShareAByte(s: PeSection, t: PeSection) {
    (exists x: nat :: InMemory(s, x) && InMemory(t, x)) || exists x: nat :: OnDisk(s, x) && OnDisk(t, x)
  }

  /** The entry point in the raw bytes of an executable section. */
  ghost predicate Starts(s: PeSection, entry: u32) {
    Bit(s.characteristics, 29) && s.rva <= entry < s.rva + s.raw_size
  }

  lemma {:induction false} LowBitsOfPower(k: nat)
    ensures LowBits(Pow2(k), k) == 0
  {
    if k > 0 {
      LowBitsOfPower(k - 1);
      assert Pow2(k) % 2 == 0 && Pow2(k) / 2 == Pow2(k - 1);
    }
  }

  lemma PowerMeans(n: u32)
    ensures Power2(n) <==> PowerUpTo(n, 31)
  {
    hide And, LowBits;
    if Power2(n) {
      var k := PowerOfTwo(n);
      if k > 31 {
        Pow2Values();
        if k > 32 { Pow2Monotone(32, k); }
      }
    }
    if k: nat :| k <= 31 && n == Pow2(k) {
      AndLowMask(n, k);
      LowBitsOfPower(k);
    }
  }

  lemma SmallPower(n: u32)
    requires n <= 65536
    ensures PowerUpTo(n, 31) <==> PowerUpTo(n, 16)
  {
    if k: nat :| k <= 31 && n == Pow2(k) {
      Pow2Values();
      if k > 16 { Pow2Monotone(16, k); }
    }
  }

  lemma LargePower(n: u32)
    ensures PowerUpTo(n, 16) ==> n <= 65536
  {
    if k: nat :| k <= 16 && n == Pow2(k) {
      Pow2Values();
      if k < 16 { Pow2Monotone(k, 16); }
    }
  }

  lemma MultipleMeans(n: nat, d: nat)
    requires d > 0
    ensures n % d == 0 <==> Multiple(n, d)
  {
    if n % d == 0 { assert n == (n / d) * d; }
    if q: nat :| n == q * d { NoRemainder(q, d); }
  }

  lemma NoRemainder(q: nat, d: nat)
    requires d > 0
    ensures (q * d) % d == 0
  {
    var p, r := (q * d) / d, (q * d) % d;
    assert q * d == p * d + r;
    if p < q {
      assert q * d - p * d == (q - p) * d;
      Times(q - p, d);
    } else if q < p {
      assert p * d - q * d == (p - q) * d;
      Times(p - q, d);
    }
  }

  lemma Times(n: nat, d: nat)
    requires n > 0
    ensures n * d >= d
  {}

  lemma LayoutMeans(l: PeLayout, size: nat)
    ensures LayoutOk(l, size) <==> LayoutSuits(l, size)
  {
    PowerMeans(l.file_alignment);
    PowerMeans(l.section_alignment);
    if l.file_alignment <= 65536 { SmallPower(l.file_alignment); }
    LargePower(l.file_alignment);
    if l.file_alignment > 0 { MultipleMeans(l.headers_size, l.file_alignment); }
    if l.section_alignment > 0 { MultipleMeans(l.image_size, l.section_alignment); }
    MultipleMeans(l.image_base, 65536);
    hide Power2, PowerUpTo, Multiple;
  }

  lemma SectionMeans(s: PeSection, l: PeLayout, size: nat)
    requires l.section_alignment != 0 && l.file_alignment != 0
    ensures SectionOk(s, l, size) <==> SectionSuits(s, l, size)
  {
    MultipleMeans(s.rva, l.section_alignment);
    MultipleMeans(s.raw_offset, l.file_alignment);
    MultipleMeans(s.raw_size, l.file_alignment);
    hide Multiple;
  }

  lemma OverlapMeans(a: nat, an: nat, b: nat, bn: nat)
    ensures Overlaps(a, an, b, bn) <==> exists x: nat :: In(x, a, an) && In(x, b, bn)
  {
    if Overlaps(a, an, b, bn) {
      var x := if a < b then b else a;
      assert In(x, a, an) && In(x, b, bn);
    }
  }

  lemma CollideMeans(s: PeSection, t: PeSection)
    ensures Collide(s, t) <==> ShareAByte(s, t)
  {
    OverlapMeans(s.rva, s.Extent(), t.rva, t.Extent());
    OverlapMeans(s.raw_offset, s.raw_size, t.raw_offset, t.raw_size);
    assert forall x: nat :: InMemory(s, x) <==> In(x, s.rva, s.Extent());
    assert forall x: nat :: InMemory(t, x) <==> In(x, t.rva, t.Extent());
    hide Overlaps, In;
    if x: nat :| In(x, s.rva, s.Extent()) && In(x, t.rva, t.Extent()) {
      assert InMemory(s, x) && InMemory(t, x);
    }
    if x: nat :| OnDisk(s, x) && OnDisk(t, x) {
      assert In(x, s.raw_offset, s.raw_size) && In(x, t.raw_offset, t.raw_size);
    }
    if x: nat :| In(x, s.raw_offset, s.raw_size) && In(x, t.raw_offset, t.raw_size) {
      assert OnDisk(s, x) && OnDisk(t, x);
    }
  }

  // ---- The headers ------------------------------------------------------------------

  /** The layout a file declares; the sections are added when the table is read. */
  function Declared(f: PeFile): PeLayout
    requires f.Valid() && |f.sections| <= 96
  {
    PeLayout(f.timestamp, f.image_base, f.entry, f.image_size, f.headers_size, f.section_alignment, f.file_alignment,
             f.characteristics, f.dll, |f.sections|, Blanks(96))
  }

  /** The first thing wrong with the file header's counts or with the optional header. */
  ghost function OptionalFault(f: PeFile): PeError
    requires f.Valid()
  {
    if !(1 <= |f.sections| <= 96) then SectionCount
    else if !Bit(f.characteristics, 1) || Bit(f.characteristics, 13) then ExecutableKind
    else if f.magic != 0x10b then Architecture
    else if |f.directories| > 16 then OptionalHeader
    else if |f.directories| > 14 && f.directories[14] != [0, 0, 0, 0, 0, 0, 0, 0] then ExecutableKind
    else if !LayoutSuits(Declared(f), |Write(f)|) || TableStart(f) + 40 * |f.sections| > f.headers_size then ImageLayout
    else NoError
  }

  /** The first thing wrong with the headers of a written file. */
  ghost function HeaderFault(f: PeFile): PeError
    requires f.Valid()
  {
    if |Write(f)| > 0x1000_0000 then FileSize
    else if f.mz != 0x5a4d then DosSignature
    else if f.signature != 0x4550 then PeSignature
    else if f.machine != 0x14c then Architecture
    else OptionalFault(f)
  }

  ghost predicate ReadAs(h: Header, f: PeFile, fault: PeError)
    requires f.Valid()
  {
    if fault != NoError then h == Refused(fault)
    else |f.sections| <= 96 && h == Header(TableStart(f), Declared(f))
  }

  lemma HeaderRead(f: PeFile)
    requires f.Valid()
    ensures ReadAs(ReadHeader(Write(f)), f, HeaderFault(f))
  {
    hide Write, TableStart, Bit, U16, U32, Optional, OptionalFault, Declared;
    FileSizes(f);
    ReadsFront(f);
    if |Write(f)| <= 0x1000_0000 { OptionalRead(f); }
  }

  lemma OptionalRead(f: PeFile)
    requires f.Valid() && |Write(f)| <= 0x1000_0000
    ensures Pe(f) + 24 <= |Write(f)| && ReadAs(Optional(Write(f), Pe(f)), f, OptionalFault(f))
  {
    hide Write, LayoutSuits, LayoutOk, Bit, U16, U32, OptionalSize, Blanks, TableStart;
    FileSizes(f);
    OptionalSizeIs(f);
    ReadsFront(f);
    ReadsWindows(f);
    if |f.directories| > 14 { ReadsDirectory(f); }
    if |f.sections| <= 96 { LayoutMeans(Declared(f), |Write(f)|); }
  }

  lemma OptionalSizeIs(f: PeFile)
    requires f.Valid()
    ensures OptionalSize(f) == 96 + 8 * |f.directories| + |f.padding| && TableStart(f) == Pe(f) + 24 + OptionalSize(f)
  {}

  // ---- The whole file ----------------------------------------------------------------

  function Sections(f: PeFile): seq<PeSection> { Listed(f.sections) }

  /** A file whose sections suit its headers, share no byte, and hold the entry point. */
  ghost predicate Loadable(f: PeFile)
    requires f.Valid()
  {
    && HeaderFault(f) == NoError
    && (forall i :: 0 <= i < |f.sections| ==> SectionSuits(Sections(f)[i], Declared(f), |Write(f)|))
    && (forall i, j :: 0 <= j < i < |f.sections| ==> !ShareAByte(Sections(f)[i], Sections(f)[j]))
    && exists i :: 0 <= i < |f.sections| && Starts(Sections(f)[i], f.entry)
  }

  /** Section i is the first that does not suit or shares a byte with an earlier one. */
  ghost predicate FirstBad(f: PeFile, i: nat)
    requires f.Valid() && |f.sections| <= 96
  {
    && i < |f.sections|
    && (forall k :: 0 <= k < i ==> SectionSuits(Sections(f)[k], Declared(f), |Write(f)|))
    && (forall k, j :: 0 <= j < k < i ==> !ShareAByte(Sections(f)[k], Sections(f)[j]))
    && (!SectionSuits(Sections(f)[i], Declared(f), |Write(f)|) ||
        exists j :: 0 <= j < i && ShareAByte(Sections(f)[i], Sections(f)[j]))
  }

  /** The parser on a written file: the headers' fault, or that of the first bad section, or
      a missing entry point; and exactly for a loadable file its own layout, the declared
      sections first and blank ones behind. */
  lemma WrittenIsParsed(f: PeFile, r: PeResult)
    requires f.Valid() && ParsesTo(Write(f), r)
    ensures HeaderFault(f) != NoError ==> r.error == HeaderFault(f)
    ensures HeaderFault(f) == NoError ==> |f.sections| <= 96
    ensures HeaderFault(f) == NoError ==> forall i: nat :: FirstBad(f, i) ==>
              r.error == if SectionSuits(Sections(f)[i], Declared(f), |Write(f)|) then SectionOverlap else SectionBounds
    ensures r.error == NoError <==> Loadable(f)
    ensures Loadable(f) ==>
              && r.layout == Declared(f).(sections := r.layout.sections)
              && r.layout.sections[..|f.sections|] == Sections(f)
              && forall i :: |f.sections| <= i < 96 ==>
                   r.layout.sections[i] == PeSection([0, 0, 0, 0, 0, 0, 0, 0], 0, 0, 0, 0, 0)
    ensures !Loadable(f) ==> r.layout == BLANK_LAYOUT
  {
    HeaderRead(f);
    if HeaderFault(f) == NoError {
      TableRead(f);
      var ss, l := Sections(f), Declared(f);
      AlignmentsSet(f);
      VerdictMeans(f, r.error);
      if r.error == NoError { FilledIs(ss); }
    }
    hide Verdict, Write, TableStart, Declared, Blanks, FirstBad, HeaderFault, OptionalFault, ReadHeader;
  }

  lemma TableRead(f: PeFile)
    requires f.Valid() && HeaderFault(f) == NoError
    ensures |f.sections| <= 96 && ReadHeader(Write(f)) == Header(TableStart(f), Declared(f))
    ensures Table(Write(f), ReadHeader(Write(f)), |f.sections|) == Sections(f)
  {
    hide Write, TableStart, Declared, HeaderFault, ReadHeader, Table;
    HeaderRead(f);
    TableReads(f, ReadHeader(Write(f)), |f.sections|);
    assert f.sections[..|f.sections|] == f.sections;
  }

  lemma AlignmentsSet(f: PeFile)
    requires f.Valid() && HeaderFault(f) == NoError
    ensures |f.sections| <= 96 && Declared(f).section_alignment != 0 && Declared(f).file_alignment != 0
    ensures LayoutSuits(Declared(f), |Write(f)|)
  {
    hide Write, TableStart, Bit, LayoutSuits, Declared;
    assert LayoutSuits(Declared(f), |Write(f)|);
    AlignmentsOf(Declared(f), |Write(f)|);
  }

  lemma AlignmentsOf(l: PeLayout, size: nat)
    requires LayoutSuits(l, size)
    ensures l.section_alignment != 0 && l.file_alignment != 0
  {}

  lemma FilledIs(ss: seq<PeSection>)
    requires |ss| <= 96
    ensures Filled(ss)[..|ss|] == ss
    ensures forall i :: |ss| <= i < 96 ==> Filled(ss)[i] == PeSection([0, 0, 0, 0, 0, 0, 0, 0], 0, 0, 0, 0, 0)
  {
    forall i | |ss| <= i < 96 ensures Filled(ss)[i] == BLANK_SECTION { BlanksAre(96 - |ss|, i - |ss|); }
    hide Blanks;
  }

  lemma SectionsMean(ss: seq<PeSection>, l: PeLayout, size: nat)
    requires l.section_alignment != 0 && l.file_alignment != 0
    ensures forall i :: 0 <= i < |ss| ==> (SectionOk(ss[i], l, size) <==> SectionSuits(ss[i], l, size))
    ensures forall i, j :: 0 <= i < |ss| && 0 <= j < |ss| ==> (Collide(ss[i], ss[j]) <==> ShareAByte(ss[i], ss[j]))
    ensures EntryFound(ss, l.entry_rva) <==> exists i :: 0 <= i < |ss| && Starts(ss[i], l.entry_rva)
  {
    hide SectionOk, SectionSuits, Collide, ShareAByte;
    forall i | 0 <= i < |ss| ensures SectionOk(ss[i], l, size) <==> SectionSuits(ss[i], l, size) {
      SectionMeans(ss[i], l, size);
    }
    forall i, j | 0 <= i < |ss| && 0 <= j < |ss| ensures Collide(ss[i], ss[j]) <==> ShareAByte(ss[i], ss[j]) {
      CollideMeans(ss[i], ss[j]);
    }
    forall s ensures HoldsEntry(s, l.entry_rva) <==> Starts(s, l.entry_rva) { EntryMeans(s, l.entry_rva); }
    hide HoldsEntry, Starts;
    if EntryFound(ss, l.entry_rva) {
      var s :| s in ss && HoldsEntry(s, l.entry_rva);
      var i :| 0 <= i < |ss| && ss[i] == s;
    }
  }

  lemma EntryMeans(s: PeSection, entry: u32)
    ensures HoldsEntry(s, entry) <==> Starts(s, entry)
  {
    hide Bit;
  }

  /** The verdict on the table in the file's own terms. */
  lemma VerdictMeans(f: PeFile, error: PeError)
    requires f.Valid() && HeaderFault(f) == NoError && |f.sections| <= 96
    requires Declared(f).section_alignment != 0 && Declared(f).file_alignment != 0
    requires Verdict(Sections(f), Declared(f), |Write(f)|, error)
    ensures error == NoError <==> Loadable(f)
    ensures forall i: nat :: FirstBad(f, i) ==>
              error == if SectionSuits(Sections(f)[i], Declared(f), |Write(f)|) then SectionOverlap else SectionBounds
  {
    var ss, l, size := Sections(f), Declared(f), |Write(f)|;
    hide Verdict, Declared, Write, SectionSuits, FirstBad, Loadable, HeaderFault, Listed;
    PeOffsets.VerdictAccepts(ss, l, size);
    TableAccepted(f, ss, l, size);
    forall i: nat | FirstBad(f, i)
      ensures error == if SectionSuits(ss[i], l, size) then SectionOverlap else SectionBounds
    {
      BadDecides(f, ss, l, size, i, error);
    }
  }

  lemma TableAccepted(f: PeFile, ss: seq<PeSection>, l: PeLayout, size: nat)
    requires f.Valid() && |f.sections| <= 96 && ss == Sections(f) && l == Declared(f) && size == |Write(f)|
    requires HeaderFault(f) == NoError && l.section_alignment != 0 && l.file_alignment != 0
    ensures Loadable(f) <==> AllOk(ss, l, size) && Apart(ss) && EntryFound(ss, l.entry_rva)
  {
    TableMeans(ss, l, size);
    assert l.entry_rva == f.entry;
    hide AllOk, Apart, EntryFound, SectionSuits, ShareAByte, HeaderFault, Write, Starts, Declared, Listed;
  }

  lemma TableMeans(ss: seq<PeSection>, l: PeLayout, size: nat)
    requires l.section_alignment != 0 && l.file_alignment != 0
    ensures AllOk(ss, l, size) <==> forall i :: 0 <= i < |ss| ==> SectionSuits(ss[i], l, size)
    ensures Apart(ss) <==> forall i, j :: 0 <= j < i < |ss| ==> !ShareAByte(ss[i], ss[j])
    ensures EntryFound(ss, l.entry_rva) <==> exists i :: 0 <= i < |ss| && Starts(ss[i], l.entry_rva)
  {
    SectionsMean(ss, l, size);
    hide SectionOk, SectionSuits, Collide, ShareAByte, Starts, EntryFound;
    if AllOk(ss, l, size) {
      forall i | 0 <= i < |ss| ensures SectionSuits(ss[i], l, size) { assert ss[i] in ss; }
    }
  }

  lemma BadDecides(f: PeFile, ss: seq<PeSection>, l: PeLayout, size: nat, i: nat, error: PeError)
    requires f.Valid() && |f.sections| <= 96 && ss == Sections(f) && l == Declared(f) && size == |Write(f)|
    requires FirstBad(f, i) && l.section_alignment != 0 && l.file_alignment != 0 && Verdict(ss, l, size, error)
    ensures error == if SectionSuits(ss[i], l, size) then SectionOverlap else SectionBounds
  {
    BadIsFault(f, ss, l, size, i);
    hide Verdict, Declared, Write, SectionSuits, FirstBad, FaultAt, Listed;
    var e := if SectionSuits(ss[i], l, size) then SectionOverlap else SectionBounds;
    FaultDecides(ss, l, size, i, e);
    PeOffsets.VerdictUnique(ss, l, size, e, error);
  }

  lemma BadIsFault(f: PeFile, ss: seq<PeSection>, l: PeLayout, size: nat, i: nat)
    requires f.Valid() && |f.sections| <= 96 && ss == Sections(f) && l == Declared(f) && size == |Write(f)|
    requires FirstBad(f, i) && l.section_alignment != 0 && l.file_alignment != 0
    ensures FaultAt(ss, l, size, i, if SectionSuits(ss[i], l, size) then SectionOverlap else SectionBounds)
  {
    SectionsMean(ss, l, size);
    hide SectionOk, SectionSuits, Collide, ShareAByte, Write, Declared, Listed;
    assert forall k :: 0 <= k < i ==> ss[..i][k] == ss[k];
  }
}
