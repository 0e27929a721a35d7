// The bounded PE32 parser and the translation of RVAs into file offsets, after
// the Microsoft PE Format specification, "Optional Header (Image Only)" and
// "Section Table (Section Headers)".  Every read below is in bounds because
// every definition is well formed.

module PeImage {
  import opened Words

  const MAX_IMAGE_BYTES: nat := 256 * 1024 * 1024
  const MAX_SECTIONS: nat := 96

  type u16 = x: int | 0 <= x < 0x1_0000

  datatype PeSection = PeSection(name: seq<byte>, virtual_size: u32, rva: u32, raw_size: u32, raw_offset: u32,
                                 characteristics: u32) {
    function Extent(): nat { if virtual_size < raw_size then raw_size else virtual_size }
    predicate Executable() { Bit(characteristics, 29) }
  }

  const BLANK_SECTION := PeSection([0, 0, 0, 0, 0, 0, 0, 0], 0, 0, 0, 0, 0)

  function Blanks(n: nat): (r: seq<PeSection>)
    ensures |r| == n
  {
    if n == 0 then [] else Blanks(n - 1) + [BLANK_SECTION]
  }

  /** std::array<PeSection, 96>. */
  type SectionArray = s: seq<PeSection> | |s| == 96 witness Blanks(96)

  datatype PeLayout = PeLayout(timestamp: u32, image_base: u32, entry_rva: u32, image_size: u32, headers_size: u32,
                               section_alignment: u32, file_alignment: u32,
                               characteristics: u16, dll_characteristics: u16, section_count: u16,
                               sections: SectionArray)

  const BLANK_LAYOUT := PeLayout(0, 0, 0, 0, 0, 0, 0, 0, 0, 0, Blanks(96))

  datatype PeError = NoError | FileSize | DosSignature | HeaderBounds | PeSignature | Architecture
                   | ExecutableKind | SectionCount | OptionalHeader | ImageLayout | SectionBounds | SectionOverlap
                   | EntryPoint

  datatype PeResult = PeResult(error: PeError, layout: PeLayout)

  // ---- Helpers ------------------------------------------------------------

  function U16(b: seq<byte>, p: nat): u16
    requires p + 2 <= |b|
  {
    var low: int, high: int := b[p], b[p + 1];
    low + 0x100 * high
  }

  function U32(b: seq<byte>, p: nat): u32
    requires p + 4 <= |b|
  {
    Join(b[p], b[p + 1], b[p + 2], b[p + 3])
  }

  predicate Fits(offset: nat, length: nat, limit: nat) { offset <= limit && length <= limit - offset }

  predicate Power2(n: u32) { n != 0 && And(n, n - 1) == 0 }

  predicate Overlaps(a: nat, an: nat, b: nat, bn: nat) { an != 0 && bn != 0 && a < b + bn && b < a + an }

  // ---- The headers ----------------------------------------------------------

  /** The layout before any section has been read, where the section table starts, or the
      first check that fails. */
  datatype Header = Refused(error: PeError) | Header(table: nat, layout: PeLayout)

  function Optional(b: seq<byte>, pe: nat): (h: Header)
    requires pe + 24 <= |b| <= MAX_IMAGE_BYTES
    ensures h.Header? ==> h.table + 40 * h.layout.section_count <= h.layout.headers_size
  {
    var count := U16(b, pe + 6);
    var characteristics := U16(b, pe + 22);
    var size := U16(b, pe + 20);
    var o := pe + 24;
    if count == 0 || count > MAX_SECTIONS then Refused(SectionCount)
    else if !Bit(characteristics, 1) || Bit(characteristics, 13) then Refused(ExecutableKind)
    else if size < 96 || !Fits(o, size, |b|) then Refused(OptionalHeader)
    else if U16(b, o) != 0x10b then Refused(Architecture)
    else
      var directories := U32(b, o + 92);
      if directories > 16 || 96 + directories * 8 > size then Refused(OptionalHeader)
      else if directories > 14 && (U32(b, o + 96 + 14 * 8) != 0 || U32(b, o + 100 + 14 * 8) != 0) then
        Refused(ExecutableKind)
      else
        var table := o + size;
        if !Fits(table, count * 40, |b|) then Refused(HeaderBounds)
        else
          var l := PeLayout(U32(b, pe + 8), U32(b, o + 28), U32(b, o + 16), U32(b, o + 56), U32(b, o + 60),
                            U32(b, o + 32), U32(b, o + 36), characteristics, U16(b, o + 70), count, Blanks(96));
          if !LayoutOk(l, |b|) || table + count * 40 > l.headers_size then Refused(ImageLayout)
          else Header(table, l)
  }

  predicate LayoutOk(l: PeLayout, size: nat) {
    && Power2(l.file_alignment) && 512 <= l.file_alignment <= 65536
    && Power2(l.section_alignment) && l.section_alignment >= l.file_alignment
    && 0 < l.image_size <= MAX_IMAGE_BYTES && l.image_size % l.section_alignment == 0
    && l.headers_size != 0 && l.headers_size % l.file_alignment == 0
    && l.headers_size <= size && l.headers_size <= l.image_size
    && l.image_base != 0 && l.image_base % 65536 == 0 && l.image_base + l.image_size <= M32
  }

  function ReadHeader(b: seq<byte>): (h: Header)
    ensures h.Header? ==> h.table + 40 * h.layout.section_count <= h.layout.headers_size <= |b|
    ensures h.Header? ==> 1 <= h.layout.section_count <= MAX_SECTIONS && LayoutOk(h.layout, |b|)
    ensures h.Refused? ==> h.error != NoError && h.error != SectionBounds
                           && h.error != SectionOverlap && h.error != EntryPoint
  {
    if |b| < 64 || |b| > MAX_IMAGE_BYTES then Refused(FileSize)
    else if U16(b, 0) != 0x5a4d then Refused(DosSignature)
    else
      var pe := U32(b, 60);
      if pe < 64 || !Fits(pe, 24, |b|) then Refused(HeaderBounds)
      else if U32(b, pe) != 0x4550 then Refused(PeSignature)
      else if U16(b, pe + 4) != 0x14c then Refused(Architecture)
      else Optional(b, pe)
  }

  // ---- The sections -----------------------------------------------------------

  function ReadSection(b: seq<byte>, p: nat): (s: PeSection)
    requires p + 40 <= |b|
  {
    PeSection(b[p..p + 8], U32(b, p + 8), U32(b, p + 12), U32(b, p + 16), U32(b, p + 20), U32(b, p + 36))
  }

  predicate SectionOk(s: PeSection, l: PeLayout, size: nat)
    requires l.section_alignment != 0 && l.file_alignment != 0
  {
    && s.Extent() != 0 && s.rva >= l.headers_size && s.rva % l.section_alignment == 0
    && Fits(s.rva, s.Extent(), l.image_size) && Fits(s.raw_offset, s.raw_size, size)
    && (s.raw_size != 0 ==> s.raw_offset >= l.headers_size && s.raw_offset % l.file_alignment == 0 &&
                            s.raw_size % l.file_alignment == 0)
  }

  predicate Collide(s: PeSection, t: PeSection) {
    Overlaps(s.rva, s.Extent(), t.rva, t.Extent()) || Overlaps(s.raw_offset, s.raw_size, t.raw_offset, t.raw_size)
  }

  predicate HoldsEntry(s: PeSection, entry: u32) {
    entry >= s.rva && entry - s.rva < s.raw_size && s.Executable()
  }

  /** The sections of the table, as a list. */
  function Table(b: seq<byte>, h: Header, n: nat): (r: seq<PeSection>)
    requires h.Header? && h.table + 40 * n <= |b|
    ensures |r| == n
  {
    if n == 0 then [] else Table(b, h, n - 1) + [ReadSection(b, h.table + 40 * (n - 1))]
  }

  lemma {:induction false} TableAt(b: seq<byte>, h: Header, n: nat, i: nat)
    requires h.Header? && h.table + 40 * n <= |b| && i < n
    ensures Table(b, h, n)[i] == ReadSection(b, h.table + 40 * i)
  {
    if i < n - 1 { TableAt(b, h, n - 1, i); }
  }

  ghost predicate AllOk(ss: seq<PeSection>, l: PeLayout, size: nat)
    requires l.section_alignment != 0 && l.file_alignment != 0
  {
    forall s :: s in ss ==> SectionOk(s, l, size)
  }

  ghost predicate Apart(ss: seq<PeSection>) {
    forall i, j :: 0 <= j < i < |ss| ==> !Collide(ss[i], ss[j])
  }

  ghost predicate EntryFound(ss: seq<PeSection>, entry: u32) {
    exists s :: s in ss && HoldsEntry(s, entry)
  }

  /** The verdict on a section list when the table is read front to back: the first section
      that is out of bounds or collides with an earlier one decides. */
  ghost predicate FaultAt(ss: seq<PeSection>, l: PeLayout, size: nat, i: nat, error: PeError)
    requires l.section_alignment != 0 && l.file_alignment != 0
  {
    && i < |ss| && AllOk(ss[..i], l, size) && Apart(ss[..i])
    && if !SectionOk(ss[i], l, size) then error == SectionBounds
       else error == SectionOverlap && exists j :: 0 <= j < i && Collide(ss[i], ss[j])
  }

  ghost predicate Verdict(ss: seq<PeSection>, l: PeLayout, size: nat, error: PeError)
    requires l.section_alignment != 0 && l.file_alignment != 0
  {
    if AllOk(ss, l, size) && Apart(ss) then error == if EntryFound(ss, l.entry_rva) then NoError else EntryPoint
    else exists i: nat :: FaultAt(ss, l, size, i, error)
  }

  function Filled(ss: seq<PeSection>): SectionArray
    requires |ss| <= 96
  {
    ss + Blanks(96 - |ss|)
  }

  lemma {:induction false} BlanksAre(n: nat, i: nat)
    requires i < n
    ensures Blanks(n)[i] == BLANK_SECTION
  {
    if i < n - 1 { BlanksAre(n - 1, i); }
  }

  lemma FilledNext(ss: seq<PeSection>, s: PeSection)
    requires |ss| < 96
    ensures Filled(ss)[|ss| := s] == Filled(ss + [s])
  {
    forall k | 0 <= k < 96 ensures Filled(ss)[|ss| := s][k] == Filled(ss + [s])[k] {
      if k > |ss| {
        BlanksAre(96 - |ss|, k - |ss|);
        BlanksAre(95 - |ss|, k - |ss| - 1);
      }
    }
  }

  lemma OkNext(ss: seq<PeSection>, s: PeSection, l: PeLayout, size: nat)
    requires l.section_alignment != 0 && l.file_alignment != 0
    requires AllOk(ss, l, size) && Apart(ss) && SectionOk(s, l, size)
    requires forall j :: 0 <= j < |ss| ==> !Collide(s, ss[j])
    ensures AllOk(ss + [s], l, size) && Apart(ss + [s])
  {
    hide SectionOk, Collide;
  }

  /** A fault among the first i + 1 sections is the verdict on the whole table. */
  lemma FaultDecides(ss: seq<PeSection>, l: PeLayout, size: nat, i: nat, error: PeError)
    requires l.section_alignment != 0 && l.file_alignment != 0
    requires FaultAt(ss, l, size, i, error)
    ensures Verdict(ss, l, size, error)
  {
    hide SectionOk, Collide;
    if !SectionOk(ss[i], l, size) { assert ss[i] in ss; }
  }

  /** The whole result: the header's refusal, or the verdict on its section table; a layout
      comes back only with acceptance. */
  ghost predicate ParsesTo(b: seq<byte>, r: PeResult) {
    match ReadHeader(b)
    case Refused(error) => r == PeResult(error, BLANK_LAYOUT)
    case Header(table, l) =>
      var ss := Table(b, ReadHeader(b), l.section_count);
      Verdict(ss, l, |b|, r.error) &&
      r.layout == if r.error == NoError then l.(sections := Filled(ss)) else BLANK_LAYOUT
  }

  /** parse_pe32. */
  method Parse(b: seq<byte>) returns (r: PeResult)
    ensures ParsesTo(b, r)
  {
    hide ReadHeader, Optional, LayoutOk, SectionOk, Collide, HoldsEntry, ReadSection, Blanks, Filled;
    var h := ReadHeader(b);
    if h.Refused? {
      return PeResult(h.error, BLANK_LAYOUT);
    }
    assert h.layout.section_alignment != 0 && h.layout.file_alignment != 0 by { Aligned(h.layout, |b|); }
    var l := h.layout;
    ghost var ss := Table(b, h, l.section_count);
    var sections := Blanks(96);
    assert sections == Filled([]) by { FilledNone(); }
    var executableEntry := false;
    for i := 0 to l.section_count
      invariant sections == Filled(ss[..i])
      invariant AllOk(ss[..i], l, |b|) && Apart(ss[..i])
      invariant executableEntry <==> EntryFound(ss[..i], l.entry_rva)
    {
      var s := ReadSection(b, h.table + i * 40);
      TableAt(b, h, l.section_count, i);
      assert s == ss[i] && ss[..i + 1] == ss[..i] + [s];
      if !SectionOk(s, l, |b|) {
        FaultDecides(ss, l, |b|, i, SectionBounds);
        return PeResult(SectionBounds, BLANK_LAYOUT);
      }
      for j := 0 to i
        invariant forall k :: 0 <= k < j ==> !Collide(s, ss[k])
      {
        FilledAt(ss[..i], j);
        if Collide(s, sections[j]) {
          FaultDecides(ss, l, |b|, i, SectionOverlap);
          return PeResult(SectionOverlap, BLANK_LAYOUT);
        }
      }
      OkNext(ss[..i], s, l, |b|);
      EntryNext(ss[..i], s, l.entry_rva);
      if HoldsEntry(s, l.entry_rva) { executableEntry := true; }
      FilledNext(ss[..i], s);
      sections := sections[i := s];
    }
    assert ss[..l.section_count] == ss;
    if !executableEntry {
      return PeResult(EntryPoint, BLANK_LAYOUT);
    }
    return PeResult(NoError, l.(sections := sections));
  }

  lemma Aligned(l: PeLayout, size: nat)
    requires LayoutOk(l, size)
    ensures l.section_alignment != 0 && l.file_alignment != 0
  {}

  lemma FilledNone()
    ensures Filled([]) == Blanks(96)
  {
    assert [] + Blanks(96) == Blanks(96);
  }

  lemma FilledAt(ss: seq<PeSection>, j: nat)
    requires j < |ss| <= 96
    ensures Filled(ss)[j] == ss[j]
  {}

  lemma EntryNext(ss: seq<PeSection>, s: PeSection, entry: u32)
    ensures EntryFound(ss + [s], entry) <==> EntryFound(ss, entry) || HoldsEntry(s, entry)
  {
    hide HoldsEntry;
    assert s in ss + [s];
    assert forall t :: t in ss ==> t in ss + [s];
  }
}
