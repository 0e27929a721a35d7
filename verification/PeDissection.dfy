// Every byte string with an acceptable header is a written file: taking it apart and
// writing it again gives it back, so the writer covers all the parser can accept.

module PeDissection {
  import opened Words
  import opened PeImage
  import opened PeWriter
  import opened PeRoundTrip

  /** The sizes a header must have before any field can be looked at. */
  predicate Shaped(b: seq<byte>) {
    && 64 <= |b| <= MAX_IMAGE_BYTES
    && var pe := U32(b, 60);
       && 64 <= pe && pe + 24 <= |b|
       && var o, size := pe + 24, U16(b, pe + 20);
          && 96 <= size && o + size <= |b| && U32(b, o + 92) <= 16 && 96 + 8 * U32(b, o + 92) <= size
          && o + size + 40 * U16(b, pe + 6) <= |b|
  }

  lemma HeaderIsShaped(b: seq<byte>)
    requires ReadHeader(b).Header?
    ensures Shaped(b)
  {
    hide U16, U32, LayoutOk, Bit, Blanks;
  }

  function SectionAt(b: seq<byte>, p: nat): SectionHeader
    requires p + 40 <= |b|
  {
    SectionHeader(b[p..p + 8], U32(b, p + 8), U32(b, p + 12), U32(b, p + 16), U32(b, p + 20), b[p + 24..p + 36],
                  U32(b, p + 36))
  }

  function SectionsAt(b: seq<byte>, p: nat, n: nat): (ss: seq<SectionHeader>)
    requires p + 40 * n <= |b|
    ensures |ss| == n
  {
    if n == 0 then [] else SectionsAt(b, p, n - 1) + [SectionAt(b, p + 40 * (n - 1))]
  }

  function DirectoriesAt(b: seq<byte>, p: nat, n: nat): (ds: seq<Bytes8>)
    requires p + 8 * n <= |b|
    ensures |ds| == n
  {
    if n == 0 then [] else DirectoriesAt(b, p, n - 1) + [b[p + 8 * (n - 1)..p + 8 * n]]
  }

  /** The file taken apart. */
  function Dissect(b: seq<byte>): (f: PeFile)
    requires Shaped(b)
  {
    var pe := U32(b, 60);
    var o, size, n := pe + 24, U16(b, pe + 20), U32(b, pe + 24 + 92);
    var table, count := o + size, U16(b, pe + 6);
    PeFile(U16(b, 0), b[2..60], b[64..pe],
           U32(b, pe), U16(b, pe + 4), U32(b, pe + 8), b[pe + 12..pe + 20], U16(b, pe + 22),
           U16(b, o), b[o + 2..o + 16], U32(b, o + 16), b[o + 20..o + 28], U32(b, o + 28), U32(b, o + 32),
           U32(b, o + 36), b[o + 40..o + 56], U32(b, o + 56), U32(b, o + 60), b[o + 64..o + 70], U16(b, o + 70),
           b[o + 72..o + 92], DirectoriesAt(b, o + 96, n), b[o + 96 + 8 * n..table],
           SectionsAt(b, table, count), b[table + 40 * count..])
  }

  // ---- Slices -------------------------------------------------------------------------

  lemma WordSlice(b: seq<byte>, p: nat)
    requires p + 4 <= |b|
    ensures Bytes(U32(b, p)) == b[p..p + 4]
  {
    BytesJoin(b[p], b[p + 1], b[p + 2], b[p + 3]);
    hide Join, ByteOf;
  }

  lemma HalfSlice(b: seq<byte>, p: nat)
    requires p + 2 <= |b|
    ensures Half(U16(b, p)) == b[p..p + 2]
  {
    Divided256(b[p + 1], b[p]);
  }

  /** The next part of a list continues a slice. */
  lemma Glue(ps: seq<seq<byte>>, k: nat, b: seq<byte>, x: nat, y: nat, z: nat)
    requires k < |ps| && x <= y <= z <= |b| && Flat(ps[..k]) == b[x..y] && ps[k] == b[y..z]
    ensures Flat(ps[..k + 1]) == b[x..z]
  {
    assert ps[..k + 1][..k] == ps[..k] && ps[..k + 1][k] == ps[k];
    assert Flat(ps[..k + 1]) == Flat(ps[..k]) + ps[k];
    hide Flat;
    assert b[x..y] + b[y..z] == b[x..z];
  }

  lemma Unglued(ps: seq<seq<byte>>, b: seq<byte>, x: nat)
    requires x <= |b|
    ensures Flat(ps[..0]) == b[x..x] && Flat(ps[..|ps|]) == Flat(ps)
  {
    assert ps[..|ps|] == ps;
  }

  lemma SectionSlice(b: seq<byte>, p: nat)
    requires p + 40 <= |b|
    ensures SectionBytes(SectionAt(b, p)) == b[p..p + 40]
  {
    var s := SectionAt(b, p);
    var ps := [s.name, Bytes(s.virtual_size), Bytes(s.rva), Bytes(s.raw_size), Bytes(s.raw_offset), s.unread,
               Bytes(s.characteristics)];
    assert SectionBytes(s) == Flat(ps);
    WordSlice(b, p + 8); WordSlice(b, p + 12); WordSlice(b, p + 16); WordSlice(b, p + 20); WordSlice(b, p + 36);
    hide Flat, Bytes, U32, SectionBytes;
    Unglued(ps, b, p);
    Glue(ps, 0, b, p, p, p + 8); Glue(ps, 1, b, p, p + 8, p + 12); Glue(ps, 2, b, p, p + 12, p + 16);
    Glue(ps, 3, b, p, p + 16, p + 20); Glue(ps, 4, b, p, p + 20, p + 24); Glue(ps, 5, b, p, p + 24, p + 36);
    Glue(ps, 6, b, p, p + 36, p + 40);
  }

  lemma TableAppends(ss: seq<SectionHeader>, s: SectionHeader)
    ensures TableBytes(ss + [s]) == TableBytes(ss) + SectionBytes(s)
  {
    assert (ss + [s])[..|ss|] == ss;
    hide SectionBytes;
  }

  lemma SlicesJoin(b: seq<byte>, x: nat, y: nat, z: nat)
    requires x <= y <= z <= |b|
    ensures b[x..y] + b[y..z] == b[x..z]
  {}

  lemma {:induction false} TableSlice(b: seq<byte>, p: nat, n: nat)
    requires p + 40 * n <= |b|
    ensures TableBytes(SectionsAt(b, p, n)) == b[p..p + 40 * n]
  {
    hide SectionBytes, SectionAt;
    if n > 0 {
      hide TableBytes;
      var m := p + 40 * (n - 1);
      TableSlice(b, p, n - 1);
      SectionSlice(b, m);
      TableAppends(SectionsAt(b, p, n - 1), SectionAt(b, m));
      SlicesJoin(b, p, m, m + 40);
    }
  }

  lemma {:induction false} DirectoriesSlice(b: seq<byte>, p: nat, n: nat)
    requires p + 8 * n <= |b|
    ensures Flat(DirectoriesAt(b, p, n)) == b[p..p + 8 * n]
  {
    if n > 0 {
      var ds := DirectoriesAt(b, p, n);
      assert ds[..n - 1] == DirectoriesAt(b, p, n - 1) && ds[n - 1] == b[p + 8 * (n - 1)..p + 8 * n];
      DirectoriesSlice(b, p, n - 1);
      assert Flat(ds) == Flat(ds[..n - 1]) + ds[n - 1];
      hide Flat, DirectoriesAt;
      assert b[p..p + 8 * (n - 1)] + b[p + 8 * (n - 1)..p + 8 * n] == b[p..p + 8 * n];
    }
  }

  // ---- The groups -----------------------------------------------------------------------

  lemma DissectIsValid(b: seq<byte>)
    requires Shaped(b)
    ensures var f := Dissect(b); f.Valid() && Pe(f) == U32(b, 60) && OptionalSize(f) == U16(b, Pe(f) + 20)
    ensures var f := Dissect(b); |f.sections| == U16(b, Pe(f) + 6) && |f.directories| == U32(b, Pe(f) + 116)
  {
    hide U16, U32, DirectoriesAt, SectionsAt;
  }

  lemma DosSlice(b: seq<byte>)
    requires Shaped(b)
    ensures Dissect(b).Valid() && Flat(DosParts(Dissect(b))) == b[0..U32(b, 60)]
  {
    DissectIsValid(b);
    HalfSlice(b, 0); WordSlice(b, 60);
    hide Flat, Bytes, Half, U16, U32, DirectoriesAt, SectionsAt;
    var ps := DosParts(Dissect(b));
    Unglued(ps, b, 0);
    Glue(ps, 0, b, 0, 0, 2); Glue(ps, 1, b, 0, 2, 60); Glue(ps, 2, b, 0, 60, 64); Glue(ps, 3, b, 0, 64, U32(b, 60));
  }

  lemma FileHeaderSlice(b: seq<byte>)
    requires Shaped(b)
    ensures var p := U32(b, 60); Dissect(b).Valid() && Flat(FileHeader(Dissect(b))) == b[p..p + 24]
  {
    DissectIsValid(b);
    var p := U32(b, 60);
    WordSlice(b, p); HalfSlice(b, p + 4); HalfSlice(b, p + 6); WordSlice(b, p + 8); HalfSlice(b, p + 20);
    HalfSlice(b, p + 22);
    hide Flat, Bytes, Half, U16, U32, DirectoriesAt, SectionsAt, OptionalSize;
    var ps := FileHeader(Dissect(b));
    Unglued(ps, b, p);
    Glue(ps, 0, b, p, p, p + 4); Glue(ps, 1, b, p, p + 4, p + 6); Glue(ps, 2, b, p, p + 6, p + 8);
    Glue(ps, 3, b, p, p + 8, p + 12); Glue(ps, 4, b, p, p + 12, p + 20); Glue(ps, 5, b, p, p + 20, p + 22);
    Glue(ps, 6, b, p, p + 22, p + 24);
  }

  lemma StandardSlice(b: seq<byte>)
    requires Shaped(b)
    ensures var o := U32(b, 60) + 24; Flat(StandardFields(Dissect(b))) == b[o..o + 28]
  {
    hide Flat, Bytes, Half, U16, U32, DirectoriesAt, SectionsAt;
    var o := U32(b, 60) + 24;
    HalfSlice(b, o); WordSlice(b, o + 16);
    var ps := StandardFields(Dissect(b));
    Unglued(ps, b, o);
    Glue(ps, 0, b, o, o, o + 2); Glue(ps, 1, b, o, o + 2, o + 16); Glue(ps, 2, b, o, o + 16, o + 20);
    Glue(ps, 3, b, o, o + 20, o + 28);
  }

  lemma WindowsParts(b: seq<byte>)
    requires Shaped(b)
    ensures var o, ps := U32(b, 60) + 52, WindowsFields(Dissect(b));
            && |ps| == 10 && o + 68 <= |b|
            && ps[0] == b[o..o + 4] && ps[1] == b[o + 4..o + 8] && ps[2] == b[o + 8..o + 12]
            && ps[3] == b[o + 12..o + 28] && ps[4] == b[o + 28..o + 32] && ps[5] == b[o + 32..o + 36]
            && ps[6] == b[o + 36..o + 42] && ps[7] == b[o + 42..o + 44] && ps[8] == b[o + 44..o + 64]
            && ps[9] == b[o + 64..o + 68]
  {
    DissectIsValid(b);
    var o := U32(b, 60) + 52;
    WordSlice(b, o); WordSlice(b, o + 4); WordSlice(b, o + 8); WordSlice(b, o + 28); WordSlice(b, o + 32);
    HalfSlice(b, o + 42); WordSlice(b, o + 64);
    hide Bytes, Half, U16, U32, DirectoriesAt, SectionsAt;
  }

  lemma WindowsSlice(b: seq<byte>)
    requires Shaped(b)
    ensures var o := U32(b, 60) + 52; Dissect(b).Valid() && Flat(WindowsFields(Dissect(b))) == b[o..o + 68]
  {
    DissectIsValid(b);
    WindowsParts(b);
    hide *;
    var o, ps := U32(b, 60) + 52, WindowsFields(Dissect(b));
    Unglued(ps, b, o);
    Glue(ps, 0, b, o, o, o + 4); Glue(ps, 1, b, o, o + 4, o + 8); Glue(ps, 2, b, o, o + 8, o + 12);
    Glue(ps, 3, b, o, o + 12, o + 28); Glue(ps, 4, b, o, o + 28, o + 32); Glue(ps, 5, b, o, o + 32, o + 36);
    Glue(ps, 6, b, o, o + 36, o + 42); Glue(ps, 7, b, o, o + 42, o + 44); Glue(ps, 8, b, o, o + 44, o + 64);
    Glue(ps, 9, b, o, o + 64, o + 68);
  }

  /** Taking apart and writing again. */
  lemma DissectionIsFaithful(b: seq<byte>)
    requires Shaped(b)
    ensures Dissect(b).Valid() && Write(Dissect(b)) == b
  {
    hide *;
    ShapedBounds(b);
    DissectTail(b);
    var f, p := Dissect(b), U32(b, 60);
    var ds, table := p + 120, TableStart(f);
    GroupSizes(f);
    DosSlice(b); FileHeaderSlice(b); StandardSlice(b); WindowsSlice(b);
    GlueEight(b, p, p + 24, p + 52, ds, ds + 8 * |f.directories|, table, table + 40 * |f.sections|);
  }

  lemma ShapedBounds(b: seq<byte>)
    requires Shaped(b)
    ensures 64 <= |b| <= 0x1000_0000 && 64 <= U32(b, 60) && U32(b, 60) + 120 <= |b|
  {
    hide U32, U16;
  }

  /** The variable part of the file. */
  lemma DissectTail(b: seq<byte>)
    requires Shaped(b)
    ensures var f, p := Dissect(b), U32(b, 60);
            && f.Valid() && Pe(f) == p && p + 120 + 8 * |f.directories| <= TableStart(f)
            && TableStart(f) + 40 * |f.sections| <= |b|
            && Flat(f.directories) == b[p + 120..p + 120 + 8 * |f.directories|]
            && f.padding == b[p + 120 + 8 * |f.directories|..TableStart(f)]
            && TableBytes(f.sections) == b[TableStart(f)..TableStart(f) + 40 * |f.sections|]
            && f.body == b[TableStart(f) + 40 * |f.sections|..]
  {
    hide U16, U32, DirectoriesAt, SectionsAt, Flat, TableBytes, PeFile.Valid, OptionalSize;
    DissectIsValid(b);
    var p := U32(b, 60);
    DirectoriesSlice(b, p + 120, U32(b, p + 116));
    TableSlice(b, p + 24 + U16(b, p + 20), U16(b, p + 6));
  }

  lemma GlueEight(w: seq<byte>, a: nat, b: nat, c: nat, d: nat, e: nat, g: nat, h: nat)
    requires a <= b <= c <= d <= e <= g <= h <= |w|
    ensures Flat([w[0..a], w[a..b], w[b..c], w[c..d], w[d..e], w[e..g], w[g..h], w[h..]]) == w
  {
    hide Flat;
    var ps := [w[0..a], w[a..b], w[b..c], w[c..d], w[d..e], w[e..g], w[g..h], w[h..]];
    Unglued(ps, w, 0);
    Glue(ps, 0, w, 0, 0, a); Glue(ps, 1, w, 0, a, b); Glue(ps, 2, w, 0, b, c); Glue(ps, 3, w, 0, c, d);
    Glue(ps, 4, w, 0, d, e); Glue(ps, 5, w, 0, e, g); Glue(ps, 6, w, 0, g, h); Glue(ps, 7, w, 0, h, |w|);
  }

  /** b is the loadable file f. */
  ghost predicate IsFile(b: seq<byte>, f: PeFile) { f.Valid() && Write(f) == b && Loadable(f) }

  /** The fields and sections of a file. */
  ghost predicate HasFields(l: PeLayout, f: PeFile) {
    && f.Valid() && |f.sections| <= 96 && l == Declared(f).(sections := l.sections)
    && l.sections[..|f.sections|] == Sections(f)
  }

  /** The parser accepts exactly the loadable files, and no other byte string; the layout is
      the file's own. */
  lemma AcceptedAreLoadable(b: seq<byte>, r: PeResult)
    requires ParsesTo(b, r)
    ensures r.error == NoError <==> exists f :: IsFile(b, f)
    ensures forall f :: IsFile(b, f) ==> HasFields(r.layout, f)
  {
    hide ParsesTo, Write, Loadable, Declared, Listed;
    if r.error == NoError {
      NoErrorHasHeader(b, r);
      HeaderIsShaped(b);
      DissectionIsFaithful(b);
      WrittenIsParsed(Dissect(b), r);
      assert IsFile(b, Dissect(b));
    }
    forall f | IsFile(b, f) ensures r.error == NoError && HasFields(r.layout, f) {
      FewSections(f);
      WrittenIsParsed(f, r);
    }
  }

  lemma FewSections(f: PeFile)
    requires f.Valid() && Loadable(f)
    ensures |f.sections| <= 96
  {
    hide Write, LayoutSuits, Bit;
  }

  lemma NoErrorHasHeader(b: seq<byte>, r: PeResult)
    requires ParsesTo(b, r) && r.error == NoError
    ensures ReadHeader(b).Header?
  {
    hide Verdict, Blanks;
  }

  // ---- What is not shaped like a file ------------------------------------------------------

  /** Signatures, machine, section count, kind and magic as a written file must have them. */
  predicate Marked(b: seq<byte>)
    requires 64 <= |b| && U32(b, 60) + 26 <= |b|
  {
    var p := U32(b, 60);
    && U16(b, 0) == 0x5a4d && U32(b, p) == 0x4550 && U16(b, p + 4) == 0x14c && 1 <= U16(b, p + 6) <= 96
    && Bit(U16(b, p + 22), 1) && !Bit(U16(b, p + 22), 13) && U16(b, p + 24) == 0x10b
  }

  /** The section table from p on is cut off. */
  predicate Beyond(b: seq<byte>, p: nat)
    requires 64 <= |b| && U32(b, 60) + 26 <= |b|
  {
    p + 40 * U16(b, U32(b, 60) + 6) > |b|
  }

  /** The refusal of a file that ends too early, or whose sizes do not fit each other. */
  lemma MisshapenTellsWhy(b: seq<byte>)
    ensures |b| < 64 || |b| > 0x1000_0000 <==> ReadHeader(b) == Refused(FileSize)
    ensures 64 <= |b| <= 0x1000_0000 && U16(b, 0) == 0x5a4d && (U32(b, 60) < 64 || U32(b, 60) + 24 > |b|) ==>
              ReadHeader(b) == Refused(HeaderBounds)
    ensures 64 <= |b| <= 0x1000_0000 && 64 <= U32(b, 60) && U32(b, 60) + 26 <= |b| && Marked(b) ==>
              var o, size := U32(b, 60) + 24, U16(b, U32(b, 60) + 20);
              && (size < 96 || o + size > |b| ==> ReadHeader(b) == Refused(OptionalHeader))
              && (96 <= size && o + size <= |b| ==>
                    && (U32(b, o + 92) > 16 || 96 + 8 * U32(b, o + 92) > size ==>
                          ReadHeader(b) == Refused(OptionalHeader))
                    && (U32(b, o + 92) <= 14 && 96 + 8 * U32(b, o + 92) <= size && Beyond(b, o + size) ==>
                          ReadHeader(b) == Refused(HeaderBounds)))
  {
    hide U16, U32, Bit, LayoutOk, Blanks;
  }
}
