// A writer of PE32 files that knows the parts of the format and their order, and nothing
// of the parser's offsets; the parser reads back what it wrote, and accepts exactly the
// files a loader can use.  Parts and sizes after the Microsoft PE Format specification:
// "MS-DOS Stub", "COFF File Header", "Optional Header (Image Only)", "Section Table".

module PeWriter {
  import opened Words
  import opened PeImage

  // ---- Parts --------------------------------------------------------------------

  function Flat(ps: seq<seq<byte>>): seq<byte> {
    if ps == [] then [] else Flat(ps[..|ps| - 1]) + ps[|ps| - 1]
  }

  lemma {:induction false} FlatPrefix(ps: seq<seq<byte>>, n: nat)
    requires n <= |ps|
    ensures |Flat(ps[..n])| <= |Flat(ps)| && Flat(ps)[..|Flat(ps[..n])|] == Flat(ps[..n])
    decreases |ps|
  {
    if n < |ps| {
      assert ps[..|ps| - 1][..n] == ps[..n];
      FlatPrefix(ps[..|ps| - 1], n);
    } else {
      assert ps[..n] == ps;
    }
  }

  /** Each part stands behind the parts before it. */
  lemma FlatPart(ps: seq<seq<byte>>, k: nat)
    requires k < |ps|
    ensures var o := |Flat(ps[..k])|;
            && |Flat(ps[..k + 1])| == o + |ps[k]| <= |Flat(ps)| && Flat(ps)[o..o + |ps[k]|] == ps[k]
  {
    FlatPrefix(ps, k + 1);
    assert ps[..k + 1][..k] == ps[..k] && ps[..k + 1][k] == ps[k];
    var p := Flat(ps[..k + 1]);
    assert p == Flat(ps[..k]) + ps[k];
    assert Flat(ps)[..|p|] == p;
    hide Flat;
    assert Flat(ps)[|Flat(ps[..k])|..|p|] == p[|Flat(ps[..k])|..];
  }

  /** Little-endian halves. */
  function Half(v: u16): (b: seq<byte>)
    ensures |b| == 2
  {
    [v % 256, v / 256]
  }

  // ---- The file ------------------------------------------------------------------

  // Bytes the parser does not look at, by their sizes.
  type Bytes6 = b: seq<byte> | |b| == 6 witness [0, 0, 0, 0, 0, 0]
  type Bytes8 = b: seq<byte> | |b| == 8 witness [0, 0, 0, 0, 0, 0, 0, 0]
  type Bytes12 = b: seq<byte> | |b| == 12 witness seq<byte>(12, _ => 0)
  type Bytes14 = b: seq<byte> | |b| == 14 witness seq<byte>(14, _ => 0)
  type Bytes16 = b: seq<byte> | |b| == 16 witness seq<byte>(16, _ => 0)
  type Bytes20 = b: seq<byte> | |b| == 20 witness seq<byte>(20, _ => 0)
  type Bytes58 = b: seq<byte> | |b| == 58 witness seq<byte>(58, _ => 0)

  /** A section header; the relocation and line-number fields are not read. */
  datatype SectionHeader = SectionHeader(name: Bytes8, virtual_size: u32, rva: u32, raw_size: u32, raw_offset: u32,
                                         unread: Bytes12, characteristics: u32)
  {
    function Fields(): PeSection { PeSection(name, virtual_size, rva, raw_size, raw_offset, characteristics) }
  }

  /** Every field the parser reads by name, the others as bytes of their size. */
  datatype PeFile = PeFile(
    mz: u16, dos: Bytes58, stub: seq<byte>,
    signature: u32, machine: u16, timestamp: u32, symbols: Bytes8, characteristics: u16,
    magic: u16, linker: Bytes14, entry: u32, bases: Bytes8, image_base: u32, section_alignment: u32,
    file_alignment: u32, versions: Bytes16, image_size: u32, headers_size: u32, checks: Bytes6, dll: u16,
    reserves: Bytes20, directories: seq<Bytes8>, padding: seq<byte>,
    sections: seq<SectionHeader>, body: seq<byte>)
  {
    /** The sizes fit their fields. */
    predicate Valid() {
      64 + |stub| < M32 && 96 + 8 * |directories| + |padding| < 0x1_0000 && |sections| < 0x1_0000
    }
  }

  function SectionBytes(s: SectionHeader): seq<byte> {
    Flat([s.name, Bytes(s.virtual_size), Bytes(s.rva), Bytes(s.raw_size), Bytes(s.raw_offset), s.unread,
          Bytes(s.characteristics)])
  }

  function TableBytes(ss: seq<SectionHeader>): seq<byte> {
    if ss == [] then [] else TableBytes(ss[..|ss| - 1]) + SectionBytes(ss[|ss| - 1])
  }

  function OptionalSize(f: PeFile): u16
    requires f.Valid()
  {
    96 + 8 * |f.directories| + |f.padding|
  }

  function DosParts(f: PeFile): seq<seq<byte>> requires f.Valid() {
    [Half(f.mz), f.dos, Bytes(64 + |f.stub|), f.stub]
  }

  function FileHeader(f: PeFile): seq<seq<byte>> requires f.Valid() {
    [Bytes(f.signature), Half(f.machine), Half(|f.sections|), Bytes(f.timestamp), f.symbols, Half(OptionalSize(f)),
     Half(f.characteristics)]
  }

  function StandardFields(f: PeFile): seq<seq<byte>> { [Half(f.magic), f.linker, Bytes(f.entry), f.bases] }

  function WindowsFields(f: PeFile): seq<seq<byte>> requires f.Valid() {
    [Bytes(f.image_base), Bytes(f.section_alignment), Bytes(f.file_alignment), f.versions, Bytes(f.image_size),
     Bytes(f.headers_size), f.checks, Half(f.dll), f.reserves, Bytes(|f.directories|)]
  }

  function Groups(f: PeFile): (ps: seq<seq<byte>>)
    requires f.Valid()
    ensures |ps| == 8
  {
    [Flat(DosParts(f)), Flat(FileHeader(f)), Flat(StandardFields(f)), Flat(WindowsFields(f)), Flat(f.directories),
     f.padding, TableBytes(f.sections), f.body]
  }

  /** DOS header and stub, signature and file header, optional header with its
      directories, section table, body. */
  function Write(f: PeFile): seq<byte>
    requires f.Valid()
  {
    Flat(Groups(f))
  }

  // ---- Where the parts are ----------------------------------------------------------

  function Pe(f: PeFile): nat { 64 + |f.stub| }

  lemma {:induction false} DirectoriesSize(ds: seq<Bytes8>)
    ensures |Flat(ds)| == 8 * |ds|
  {
    if ds != [] { DirectoriesSize(ds[..|ds| - 1]); }
  }

  lemma {:induction false} DirectoryAt(ds: seq<Bytes8>, k: nat)
    requires k < |ds|
    ensures |Flat(ds)| == 8 * |ds| && Flat(ds)[8 * k..8 * k + 8] == ds[k]
  {
    DirectoriesSize(ds);
    DirectoriesSize(ds[..k]);
    FlatPart(ds, k);
  }

  /** part stands at offset o of the written file. */
  ghost predicate Has(w: seq<byte>, o: nat, part: seq<byte>) { o + |part| <= |w| && w[o..o + |part|] == part }

  lemma PartHas(ps: seq<seq<byte>>, k: nat)
    requires k < |ps|
    ensures Has(Flat(ps), |Flat(ps[..k])|, ps[k]) && |Flat(ps[..k + 1])| == |Flat(ps[..k])| + |ps[k]|
  {
    FlatPart(ps, k);
    hide Flat;
  }

  lemma NoParts(ps: seq<seq<byte>>)
    ensures |Flat(ps[..0])| == 0 && Flat(ps[..|ps|]) == Flat(ps)
  {
    assert ps[..|ps|] == ps;
  }

  /** What stands in a part stands in the whole. */
  lemma HasWithin(w: seq<byte>, o: nat, g: seq<byte>, k: nat, part: seq<byte>)
    requires Has(w, o, g) && Has(g, k, part)
    ensures Has(w, o + k, part)
  {
    var v := w[o..o + |g|];
    forall i | 0 <= i < |part| ensures w[o + k + i] == part[i] {
      assert v[k + i] == g[k..k + |part|][i];
    }
  }

  lemma DosHas(f: PeFile)
    requires f.Valid()
    ensures var g := Flat(DosParts(f)); |g| == Pe(f) && Has(g, 0, Half(f.mz)) && Has(g, 60, Bytes(Pe(f)))
  {
    hide Flat, Has;
    var ps := DosParts(f);
    NoParts(ps);
    PartHas(ps, 0); PartHas(ps, 1); PartHas(ps, 2); PartHas(ps, 3);
  }

  lemma FileHeaderHas(f: PeFile)
    requires f.Valid()
    ensures var g := Flat(FileHeader(f));
            && |g| == 24 && Has(g, 0, Bytes(f.signature)) && Has(g, 4, Half(f.machine)) && Has(g, 6, Half(|f.sections|))
            && Has(g, 8, Bytes(f.timestamp)) && Has(g, 20, Half(OptionalSize(f))) && Has(g, 22, Half(f.characteristics))
  {
    hide Flat, Has;
    var ps := FileHeader(f);
    NoParts(ps);
    PartHas(ps, 0); PartHas(ps, 1); PartHas(ps, 2); PartHas(ps, 3); PartHas(ps, 4); PartHas(ps, 5); PartHas(ps, 6);
  }

  lemma StandardHas(f: PeFile)
    requires f.Valid()
    ensures var g := Flat(StandardFields(f)); |g| == 28 && Has(g, 0, Half(f.magic)) && Has(g, 16, Bytes(f.entry))
  {
    hide Flat, Has;
    var ps := StandardFields(f);
    NoParts(ps);
    PartHas(ps, 0); PartHas(ps, 1); PartHas(ps, 2); PartHas(ps, 3);
  }

  lemma WindowsHas(f: PeFile)
    requires f.Valid()
    ensures var g := Flat(WindowsFields(f));
            && |g| == 68 && Has(g, 0, Bytes(f.image_base)) && Has(g, 4, Bytes(f.section_alignment))
            && Has(g, 8, Bytes(f.file_alignment)) && Has(g, 28, Bytes(f.image_size))
            && Has(g, 32, Bytes(f.headers_size))
            && Has(g, 42, Half(f.dll)) && Has(g, 64, Bytes(|f.directories|))
  {
    hide Flat, Has;
    var ps := WindowsFields(f);
    NoParts(ps);
    PartHas(ps, 0); PartHas(ps, 1); PartHas(ps, 2); PartHas(ps, 3); PartHas(ps, 4); PartHas(ps, 5); PartHas(ps, 6);
    PartHas(ps, 7); PartHas(ps, 8); PartHas(ps, 9);
  }

  /** Where the section table starts. */
  function TableStart(f: PeFile): nat requires f.Valid() { Pe(f) + 24 + OptionalSize(f) }

  /** The groups of the file. */
  lemma GroupsHave(f: PeFile)
    requires f.Valid()
    ensures var w, p := Write(f), Pe(f);
            && Has(w, 0, Flat(DosParts(f))) && Has(w, p, Flat(FileHeader(f))) && Has(w, p + 24, Flat(StandardFields(f)))
            && Has(w, p + 52, Flat(WindowsFields(f))) && Has(w, p + 120, Flat(f.directories))
            && Has(w, TableStart(f), TableBytes(f.sections)) && |w| == TableStart(f) + 40 * |f.sections| + |f.body|
  {
    hide *;
    GroupSizes(f);
    EightParts(Flat(DosParts(f)), Flat(FileHeader(f)), Flat(StandardFields(f)), Flat(WindowsFields(f)),
               Flat(f.directories), f.padding, TableBytes(f.sections), f.body);
  }

  lemma GroupSizes(f: PeFile)
    requires f.Valid()
    ensures |Flat(DosParts(f))| == Pe(f) && |Flat(FileHeader(f))| == 24 && |Flat(StandardFields(f))| == 28
    ensures |Flat(WindowsFields(f))| == 68 && |Flat(f.directories)| == 8 * |f.directories|
    ensures |TableBytes(f.sections)| == 40 * |f.sections|
    ensures TableStart(f) == Pe(f) + 120 + 8 * |f.directories| + |f.padding|
    ensures Write(f) == Flat([Flat(DosParts(f)), Flat(FileHeader(f)), Flat(StandardFields(f)), Flat(WindowsFields(f)),
                              Flat(f.directories), f.padding, TableBytes(f.sections), f.body])
  {
    DosHas(f); FileHeaderHas(f); StandardHas(f); WindowsHas(f);
    DirectoriesSize(f.directories);
    TableSize(f.sections);
    hide Flat, Has, DosParts, FileHeader, StandardFields, WindowsFields, TableBytes;
  }

  lemma EightParts(a: seq<byte>, b: seq<byte>, c: seq<byte>, d: seq<byte>, e: seq<byte>, g: seq<byte>, h: seq<byte>,
                   z: seq<byte>)
    ensures var w := Flat([a, b, c, d, e, g, h, z]);
            && Has(w, 0, a) && Has(w, |a|, b) && Has(w, |a| + |b|, c) && Has(w, |a| + |b| + |c|, d)
            && Has(w, |a| + |b| + |c| + |d|, e) && Has(w, |a| + |b| + |c| + |d| + |e| + |g|, h)
            && |w| == |a| + |b| + |c| + |d| + |e| + |g| + |h| + |z|
  {
    hide Flat, Has;
    var ps := [a, b, c, d, e, g, h, z];
    NoParts(ps);
    PartHas(ps, 0); PartHas(ps, 1); PartHas(ps, 2); PartHas(ps, 3); PartHas(ps, 4); PartHas(ps, 5); PartHas(ps, 6);
    PartHas(ps, 7);
  }

  /** Reading back what is there. */
  lemma ReadsWord(w: seq<byte>, o: nat, v: u32)
    requires Has(w, o, Bytes(v))
    ensures o + 4 <= |w| && U32(w, o) == v
  {
    hide ByteOf;
    JoinBytes(v);
    assert w[o] == w[o..o + 4][0] && w[o + 1] == w[o..o + 4][1] && w[o + 2] == w[o..o + 4][2]
           && w[o + 3] == w[o..o + 4][3];
  }

  lemma ReadsHalf(w: seq<byte>, o: nat, v: u16)
    requires Has(w, o, Half(v))
    ensures o + 2 <= |w| && U16(w, o) == v
  {
    assert w[o] == w[o..o + 2][0] && w[o + 1] == w[o..o + 2][1];
  }

  // ---- The section table ------------------------------------------------------------

  lemma SectionHas(s: SectionHeader)
    ensures var b := SectionBytes(s);
            && |b| == 40 && Has(b, 0, s.name) && Has(b, 8, Bytes(s.virtual_size))
            && Has(b, 12, Bytes(s.rva)) && Has(b, 16, Bytes(s.raw_size))
            && Has(b, 20, Bytes(s.raw_offset)) && Has(b, 36, Bytes(s.characteristics))
  {
    var ps := [s.name, Bytes(s.virtual_size), Bytes(s.rva), Bytes(s.raw_size), Bytes(s.raw_offset), s.unread,
               Bytes(s.characteristics)];
    NoParts(ps);
    assert SectionBytes(s) == Flat(ps);
    hide Flat, SectionBytes, Bytes, Has;
    PartHas(ps, 0); PartHas(ps, 1); PartHas(ps, 2); PartHas(ps, 3); PartHas(ps, 4); PartHas(ps, 5); PartHas(ps, 6);
  }

  lemma SectionReads(s: SectionHeader)
    ensures |SectionBytes(s)| == 40 && ReadSection(SectionBytes(s), 0) == s.Fields()
  {
    SectionHas(s);
    var b := SectionBytes(s);
    ReadsWord(b, 8, s.virtual_size); ReadsWord(b, 12, s.rva); ReadsWord(b, 16, s.raw_size);
    ReadsWord(b, 20, s.raw_offset); ReadsWord(b, 36, s.characteristics);
    hide SectionBytes, U32, Bytes;
  }

  lemma {:induction false} TableHas(ss: seq<SectionHeader>, i: nat)
    requires i < |ss|
    ensures |TableBytes(ss)| == 40 * |ss| && Has(TableBytes(ss), 40 * i, SectionBytes(ss[i]))
  {
    hide SectionBytes;
    var init, last := ss[..|ss| - 1], ss[|ss| - 1];
    TableSize(init);
    SectionReads(last);
    assert TableBytes(ss) == TableBytes(init) + SectionBytes(last);
    if i < |ss| - 1 {
      TableHas(init, i);
      assert TableBytes(ss)[40 * i..40 * i + 40] == TableBytes(init)[40 * i..40 * i + 40];
    }
  }

  lemma {:induction false} TableSize(ss: seq<SectionHeader>)
    ensures |TableBytes(ss)| == 40 * |ss|
  {
    if ss != [] {
      SectionReads(ss[|ss| - 1]);
      TableSize(ss[..|ss| - 1]);
    }
  }

  /** The section read at its place of the file. */
  lemma SectionReadsAt(w: seq<byte>, p: nat, s: SectionHeader)
    requires Has(w, p, SectionBytes(s))
    ensures p + 40 <= |w| && ReadSection(w, p) == s.Fields()
  {
    SectionReads(s);
    hide SectionBytes;
    var b := w[p..p + 40];
    forall k | 0 <= k < 40 ensures b[k] == w[p + k] {}
    assert w[p..p + 8] == b[..8];
  }

  // ---- What the parser reads -----------------------------------------------------------

  lemma WordAt(w: seq<byte>, o: nat, g: seq<byte>, k: nat, v: u32)
    requires Has(w, o, g) && Has(g, k, Bytes(v))
    ensures o + k + 4 <= |w| && U32(w, o + k) == v
  {
    hide Has, Bytes, U32;
    HasWithin(w, o, g, k, Bytes(v));
    ReadsWord(w, o + k, v);
  }

  lemma HalfAt(w: seq<byte>, o: nat, g: seq<byte>, k: nat, v: u16)
    requires Has(w, o, g) && Has(g, k, Half(v))
    ensures o + k + 2 <= |w| && U16(w, o + k) == v
  {
    hide Has, Half, U16;
    HasWithin(w, o, g, k, Half(v));
    ReadsHalf(w, o + k, v);
  }

  lemma ReadsFront(f: PeFile)
    requires f.Valid()
    ensures var w, p := Write(f), Pe(f);
            && |w| >= TableStart(f) >= p + 120 && p >= 64
            && U16(w, 0) == f.mz && U32(w, 60) == p && U32(w, p) == f.signature && U16(w, p + 4) == f.machine
            && U16(w, p + 6) == |f.sections| && U32(w, p + 8) == f.timestamp && U16(w, p + 20) == OptionalSize(f)
            && U16(w, p + 22) == f.characteristics && U16(w, p + 24) == f.magic && U32(w, p + 40) == f.entry
  {
    hide *;
    FileSizes(f);
    GroupsHave(f);
    DosHas(f); FileHeaderHas(f); StandardHas(f);
    var w, p := Write(f), Pe(f);
    HalfAt(w, 0, Flat(DosParts(f)), 0, f.mz);
    WordAt(w, 0, Flat(DosParts(f)), 60, p);
    WordAt(w, p, Flat(FileHeader(f)), 0, f.signature);
    HalfAt(w, p, Flat(FileHeader(f)), 4, f.machine);
    HalfAt(w, p, Flat(FileHeader(f)), 6, |f.sections|);
    WordAt(w, p, Flat(FileHeader(f)), 8, f.timestamp);
    HalfAt(w, p, Flat(FileHeader(f)), 20, OptionalSize(f));
    HalfAt(w, p, Flat(FileHeader(f)), 22, f.characteristics);
    HalfAt(w, p + 24, Flat(StandardFields(f)), 0, f.magic);
    WordAt(w, p + 24, Flat(StandardFields(f)), 16, f.entry);
  }

  lemma ReadsWindows(f: PeFile)
    requires f.Valid()
    ensures var w, o := Write(f), Pe(f) + 24;
            && |w| >= o + 96
            && U32(w, o + 28) == f.image_base && U32(w, o + 32) == f.section_alignment
            && U32(w, o + 36) == f.file_alignment && U32(w, o + 56) == f.image_size && U32(w, o + 60) == f.headers_size
            && U16(w, o + 70) == f.dll && U32(w, o + 92) == |f.directories|
  {
    hide *;
    FileSizes(f);
    GroupsHave(f);
    WindowsHas(f);
    var w, o := Write(f), Pe(f) + 24;
    var g := Flat(WindowsFields(f));
    WordAt(w, o + 28, g, 0, f.image_base);
    WordAt(w, o + 28, g, 4, f.section_alignment);
    WordAt(w, o + 28, g, 8, f.file_alignment);
    WordAt(w, o + 28, g, 28, f.image_size);
    WordAt(w, o + 28, g, 32, f.headers_size);
    HalfAt(w, o + 28, g, 42, f.dll);
    WordAt(w, o + 28, g, 64, |f.directories|);
  }

  /** Directory 14 as two words. */
  lemma ReadsDirectory(f: PeFile)
    requires f.Valid() && |f.directories| > 14
    ensures var w, o := Write(f), Pe(f) + 24;
            && |w| >= o + 216
            && (U32(w, o + 96 + 14 * 8) == 0 && U32(w, o + 100 + 14 * 8) == 0 <==>
                  f.directories[14] == [0, 0, 0, 0, 0, 0, 0, 0])
  {
    hide *;
    var w, o, d := Write(f), Pe(f) + 24, f.directories[14];
    FileSizes(f);
    GroupsHave(f);
    DirectoryHas(f.directories, 14);
    HasWithin(w, o + 96, Flat(f.directories), 112, d);
    ZeroEntry(w, o + 208, d);
  }

  lemma DirectoryHas(ds: seq<Bytes8>, k: nat)
    requires k < |ds|
    ensures Has(Flat(ds), 8 * k, ds[k])
  {
    DirectoryAt(ds, k);
    hide Flat;
  }

  lemma ZeroEntry(w: seq<byte>, o: nat, d: seq<byte>)
    requires |d| == 8 && Has(w, o, d)
    ensures o + 8 <= |w| && (U32(w, o) == 0 && U32(w, o + 4) == 0 <==> d == [0, 0, 0, 0, 0, 0, 0, 0])
  {
    hide *;
    EightBytes(w, o, d);
    AllZero(d);
    ZeroWord(w, o);
    ZeroWord(w, o + 4);
  }

  lemma EightBytes(w: seq<byte>, o: nat, d: seq<byte>)
    requires |d| == 8 && Has(w, o, d)
    ensures o + 8 <= |w| && forall k :: 0 <= k < 8 ==> w[o + k] == d[k]
  {
    var v := w[o..o + 8];
    assert v == d;
    forall k | 0 <= k < 8 ensures w[o + k] == d[k] { assert v[k] == w[o + k]; }
  }

  lemma AllZero(d: seq<byte>)
    requires |d| == 8
    ensures d == [0, 0, 0, 0, 0, 0, 0, 0] <==>
              d[0] == d[1] == d[2] == d[3] == 0 && d[4] == d[5] == d[6] == d[7] == 0
  {}

  lemma FileSizes(f: PeFile)
    requires f.Valid()
    ensures |Write(f)| == TableStart(f) + 40 * |f.sections| + |f.body|
    ensures TableStart(f) >= Pe(f) + 120 + 8 * |f.directories| && 64 <= Pe(f) <= 0xffff_ffff
    ensures |f.sections| < 0x1_0000 && |f.directories| < 0x1_0000
  {
    GroupsHave(f);
    GroupSizes(f);
    hide Write, Has;
  }

  lemma ZeroWord(w: seq<byte>, o: nat)
    requires o + 4 <= |w|
    ensures U32(w, o) == 0 <==> w[o] == 0 && w[o + 1] == 0 && w[o + 2] == 0 && w[o + 3] == 0
  {}

  lemma {:induction false} TableReads(f: PeFile, h: Header, n: nat)
    requires f.Valid() && h.Header? && h.table == TableStart(f) && n <= |f.sections|
    ensures h.table + 40 * n <= |Write(f)| && Table(Write(f), h, n) == Listed(f.sections[..n])
  {
    hide Write, ReadSection, TableStart, PeFile.Valid;
    FileSizes(f);
    if n > 0 {
      TableReads(f, h, n - 1);
      EntryReads(f, n - 1);
      assert f.sections[..n][..n - 1] == f.sections[..n - 1];
    }
  }

  lemma EntryReads(f: PeFile, i: nat)
    requires f.Valid() && i < |f.sections|
    ensures TableStart(f) + 40 * i + 40 <= |Write(f)|
    ensures ReadSection(Write(f), TableStart(f) + 40 * i) == f.sections[i].Fields()
  {
    hide *;
    var s := f.sections[i];
    FileSizes(f);
    GroupsHave(f);
    TableHas(f.sections, i);
    HasWithin(Write(f), TableStart(f), TableBytes(f.sections), 40 * i, SectionBytes(s));
    SectionReadsAt(Write(f), TableStart(f) + 40 * i, s);
  }

  /** The read fields of section headers. */
  function Listed(ss: seq<SectionHeader>): (r: seq<PeSection>)
    ensures |r| == |ss| && forall i :: 0 <= i < |ss| ==> r[i] == ss[i].Fields()
  {
    if ss == [] then [] else Listed(ss[..|ss| - 1]) + [ss[|ss| - 1].Fields()]
  }
}
