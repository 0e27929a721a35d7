// What the relocation audit's tests mean, byte by byte: which sections back a range,
// what a number read through an RVA is, what each record and each block header is
// refused for, and which masks the prefix relocation accepts.

module AuditMeaning {
  import opened Words
  import opened Extents
  import opened BootstrapAudit
  import opened BootstrapMask
  import Relocation

  // ---- Sections and numbers --------------------------------------------------

  /** Every byte of the range has a place in the section's raw data. */
  lemma BacksMeans(s: Section, rva: nat, length: nat)
    requires length > 0
    ensures Backs(s, rva, length) <==> forall x :: Owns(rva, length, x) ==> Owns(s.rva, s.rawSize, x)
  {
    if forall x :: Owns(rva, length, x) ==> Owns(s.rva, s.rawSize, x) {
      assert Owns(rva, length, rva) && Owns(rva, length, rva + length - 1);
    }
  }

  /** Every section's raw data, up to and including its end position, lies in the file. */
  lemma FileMeans(f: File)
    ensures f.Valid() <==> forall s :: s in f.sections ==> Lies(s.raw, s.rawSize + 1, 0, |f.data|)
  {
    forall s | s in f.sections ensures Lies(s.raw, s.rawSize + 1, 0, |f.data|) <==> s.raw + s.rawSize <= |f.data| {
      LiesIs(s.raw, s.rawSize + 1, 0, |f.data|);
    }
  }

  /** A number is the little-endian value of its bytes in the only section that backs them,
      as far behind the section's raw start as behind its RVA. */
  lemma HalfMeans(f: File, rva: nat, i: nat) returns (v: half, at: nat)
    requires f.Valid() && OnlyBackedBy(f.sections, rva, 2, i)
    ensures Number16(f, rva) == Some(v as nat) && at + 2 <= |f.data| && f.data[at..at + 2] == [v % 0x100, v / 0x100]
    ensures at - f.sections[i].raw == rva - f.sections[i].rva
  {
    hide Matches;
    var s := f.sections[i];
    assert s in f.sections;
    at := s.raw + rva - s.rva;
    OffsetOf(f.sections, rva, 2, i);
    var low: int, high: int := f.data[at], f.data[at + 1];
    v := low + 0x100 * high;
    assert v % 0x100 == low && v / 0x100 == high;
  }

  lemma WordMeans(f: File, rva: nat, i: nat) returns (v: u32, at: nat)
    requires f.Valid() && OnlyBackedBy(f.sections, rva, 4, i)
    ensures Number32(f, rva) == Some(v) && at + 4 <= |f.data| && f.data[at..at + 4] == Bytes(v)
    ensures at - f.sections[i].raw == rva - f.sections[i].rva
  {
    hide Matches, ByteOf, Join;
    var s := f.sections[i];
    assert s in f.sections;
    at := s.raw + rva - s.rva;
    OffsetOf(f.sections, rva, 4, i);
    BytesJoin(f.data[at], f.data[at + 1], f.data[at + 2], f.data[at + 3]);
    v := Join(f.data[at], f.data[at + 1], f.data[at + 2], f.data[at + 3]);
  }

  /** Without exactly one such section there is no number. */
  lemma NumbersMissing(f: File, rva: nat)
    requires f.Valid()
    ensures Number16(f, rva) == None <==> forall i :: !OnlyBackedBy(f.sections, rva, 2, i)
    ensures Number32(f, rva) == None <==> forall i :: !OnlyBackedBy(f.sections, rva, 4, i)
  {
    hide Matches;
    OffsetMissing(f.sections, rva, 2);
    OffsetMissing(f.sections, rva, 4);
    if Offset(f.sections, rva, 2).Some? { OffsetInBounds(f, rva, 2); }
    if Offset(f.sections, rva, 4).Some? { OffsetInBounds(f, rva, 4); }
    hide OnlyBackedBy;
  }

  lemma OffsetMissing(sections: seq<Section>, rva: nat, length: nat)
    requires length > 0
    ensures Offset(sections, rva, length) == None <==> forall i :: !OnlyBackedBy(sections, rva, length, i)
  {
    hide Matches;
    if |Matches(sections, rva, length)| == 1 { var i := OneMatch(sections, rva, length); }
    if i :| OnlyBackedBy(sections, rva, length, i) { OffsetOf(sections, rva, length, i); }
  }

  // ---- Records -----------------------------------------------------------------

  /** All of the target's four bytes belong to the 20-byte prefix, or none does. */
  ghost predicate Whole(rva: int, target: int) {
    (forall x :: Owns(target, 4, x) ==> Owns(rva, 20, x)) || Foreign(target, 4, rva, 20)
  }

  lemma WholeMeans(rva: nat, target: nat)
    ensures Inside(rva, target) <==> forall x :: Owns(target, 4, x) ==> Owns(rva, 20, x)
    ensures Disjoint(rva, target) <==> Foreign(target, 4, rva, 20)
    ensures Straddles(rva, target) <==> !Whole(rva, target)
  {
    ForeignIs(target, 4, rva, 20);
    if forall x :: Owns(target, 4, x) ==> Owns(rva, 20, x) {
      assert Owns(target, 4, target) && Owns(target, 4, target + 3);
    }
  }

  /** A record of four bits for the kind and twelve for the place in the page. */
  lemma RecordMeans(imageSize: u32, rvas: seq<u32>, page: u32, kind: nat, place: nat)
    requires kind < 16 && place < 4096
    ensures RecordTargets(page, 4096 * kind + place) == if kind == 0 then [] else [page + place]
    ensures var fault, target := RecordFault(imageSize, rvas, page, 4096 * kind + place), page + place;
            var mapped := Lies(target, 4, 0, imageSize - 1);
            var whole := forall e :: 0 <= e < |rvas| ==> Whole(rvas[e], target);
            && (fault == None <==> kind == 0 || (kind == 3 && mapped && whole))
            && (fault == Some(UnsupportedRelocation) <==> kind != 0 && kind != 3)
            && (fault == Some(RelocationTarget) <==> kind == 3 && !mapped)
            && (fault == Some(ExportPrefixPartialRelocation) <==> kind == 3 && mapped && !whole)
  {
    var target := page + place;
    var size: int := imageSize;
    LiesIs(target, 4, 0, size - 1);
    forall e | 0 <= e < |rvas| ensures Straddles(rvas[e], target) <==> !Whole(rvas[e], target) {
      WholeMeans(rvas[e], target);
    }
    hide Straddles, Whole, Lies;
    assert (4096 * kind + place) / 4096 == kind && (4096 * kind + place) % 4096 == place;
  }

  // ---- Blocks --------------------------------------------------------------------

  /** The header of a block that a linker could have written, with all of it left to read. */
  lemma BlockShapedMeans(page: u32, size: u32, left: nat)
    ensures BlockShaped(page, size, left) <==>
            size <= left && exists b: Block :: b.Valid() && b.page == page && |BlockBytes(b)| == size
  {
    if BlockShaped(page, size, left) {
      var b := Block(page, seq((size - 8) / 2, i => 0));
      Even(size);
      BlockLength(b);
      assert b.Valid() && |BlockBytes(b)| == size;
    }
    if b: Block :| b.Valid() && b.page == page && |BlockBytes(b)| == size {
      BlockLength(b);
      Quarter(|b.records|);
    }
  }

  lemma Even(size: nat)
    requires size >= 8 && size % 4 == 0
    ensures (size - 8) / 2 % 2 == 0 && 8 + 2 * ((size - 8) / 2) == size
  {
    var k := size / 4;
    assert size - 8 == 2 * (2 * (k - 2));
    assert (size - 8) / 2 == 2 * (k - 2);
  }

  /** Why the walk stops at a header: too few bytes, bytes without a section, a misshapen
      block; otherwise it goes on with the records. */
  lemma HeaderTellsWhy(f: File, imageSize: u32, rvas: seq<u32>, rva: nat, left: nat)
    requires f.Valid()
    ensures left == 0 ==> Targets(f, imageSize, rvas, rva, left) == Ok([])
    ensures 0 < left < 8 ==> Targets(f, imageSize, rvas, rva, left) == Refused(RelocationHeader)
    ensures left >= 8 && (Number32(f, rva) == None || Number32(f, rva + 4) == None) ==>
              Targets(f, imageSize, rvas, rva, left) == Refused(RvaNotUniqueFileBacked)
    ensures left >= 8 && Number32(f, rva).Some? && Number32(f, rva + 4).Some? &&
            (Number32(f, rva).value % 4096 != 0 || Number32(f, rva + 4).value < 8 ||
             Number32(f, rva + 4).value % 4 != 0 || Number32(f, rva + 4).value > left) ==>
              Targets(f, imageSize, rvas, rva, left) == Refused(RelocationBlock)
  {
    hide Number32;
  }

  /** The reasons that the audit gives, in the order of its tests. */
  lemma AuditTellsWhy(f: File, imageSize: u32, rvas: seq<u32>, rva: u32, size: u32, preferred: u32)
    requires f.Valid()
    ensures var walk := Targets(f, imageSize, rvas, rva, size);
            var why := AuditFault(f, imageSize, rvas, rva, size);
            && (!In(size, 1, 0x10_0000) ==> why == RelocationDirectorySize)
            && (In(size, 1, 0x10_0000) && walk.Refused? ==> why == walk.why)
            && (In(size, 1, 0x10_0000) && walk.Ok? && Shared(walk.value) ==> why == RelocationTargetOverlap)
            && (In(size, 1, 0x10_0000) && walk.Ok? && !Shared(walk.value) ==> why == PreferredImageBase)
            && (Sound(f, imageSize, rvas, rva, size, preferred) <==>
                In(size, 1, 0x10_0000) && walk.Ok? && !Shared(walk.value) &&
                preferred != 0 && preferred % 0x1_0000 == 0)
  {
    var walk := Targets(f, imageSize, rvas, rva, size);
    if walk.Ok? { ApartMeans(walk.value); }
    hide Targets, Apart;
  }

  /** Two of the targets share a byte. */
  ghost predicate Shared(ts: seq<nat>) {
    exists i, j :: 0 <= i < j < |ts| && !Foreign(ts[i], 4, ts[j], 4)
  }

  lemma ApartMeans(ts: seq<nat>)
    ensures Apart(ts) <==> !Shared(ts)
  {
    forall i, j | 0 <= i < j < |ts|
      ensures Foreign(ts[i], 4, ts[j], 4) <==> ts[i] + 4 <= ts[j] || ts[j] + 4 <= ts[i]
    {
      ForeignIs(ts[i], 4, ts[j], 4);
    }
    hide Foreign;
  }

  // ---- Masks -----------------------------------------------------------------------

  /** The marked words lie inside the prefix, no two of them share a byte, and unless there
      is none of them the preferred base is a multiple of the allocation granularity. */
  lemma MaskValidMeans(mask: u32, preferred: u32)
    ensures Relocation.MaskValid(mask, preferred) <==>
            && (forall o: nat :: Bit(mask, o) ==> Lies(o, 4, 0, 19))
            && (forall i: nat, j: nat :: i < j && Bit(mask, i) && Bit(mask, j) ==> Foreign(i, 4, j, 4))
            && (mask == 0 || (preferred > 0 && preferred % 0x1_0000 == 0))
  {
    forall o: nat ensures Lies(o, 4, 0, 19) <==> o <= 16 { LiesIs(o, 4, 0, 19); }
    forall i: nat, j: nat | i < j ensures Foreign(i, 4, j, 4) <==> j - i >= 4 { ForeignIs(i, 4, j, 4); }
    hide Lies, Foreign;
    if Relocation.MaskValid(mask, preferred) {
      assert forall j: nat :: Bit(mask, j) ==> j < 17;
    }
    if (forall o: nat :: Bit(mask, o) ==> Lies(o, 4, 0, 19)) &&
       (forall i: nat, j: nat :: i < j && Bit(mask, i) && Bit(mask, j) ==> Foreign(i, 4, j, 4)) {
      forall i: nat, j: nat | i < j < 17 && Bit(mask, i) && Bit(mask, j) ensures j - i >= 4 {
        assert Foreign(i, 4, j, 4);
      }
    }
  }
}
