// From audited targets to an export mask, and what the mask is worth: the prefix
// relocation accepts it, and agrees with relocating the whole image.

module BootstrapMask {
  import opened Words
  import opened Relocation
  import opened BootstrapAudit

  /** sum(1 << offset). */
  function MaskOf(offsets: seq<nat>): nat {
    if offsets == [] then 0 else Pow2(offsets[0]) + MaskOf(offsets[1..])
  }

  lemma SingleBit(o: nat, k: nat)
    ensures Bit(Pow2(o), k) <==> k == o
  {
    assert Pow2(o) == 1 * Pow2(o);
    ShiftedBit(1, o, k);
    if k >= o { OneBit(k - o); }
  }

  /** A sum of distinct powers has exactly those bits. */
  lemma {:induction false} MaskBits(os: seq<nat>, k: nat)
    requires Apart(os)
    ensures Bit(MaskOf(os), k) <==> k in os
  {
    if os == [] {
      ZeroHasNoBits(k);
    } else {
      var o, rest := os[0], os[1..];
      MaskBits(rest, k);
      MaskBits(rest, o);
      hide Bit, Pow2, Or, And;
      assert o !in rest by {
        forall j | 0 <= j < |rest| ensures rest[j] != o { assert rest[j] == os[j + 1]; }
      }
      AndPow2(MaskOf(rest), o);
      OrDisjoint(MaskOf(rest), Pow2(o));
      OrBit(MaskOf(rest), Pow2(o), k);
      SingleBit(o, k);
      assert os == [o] + rest;
    }
  }

  lemma {:induction false} BoundedByBits(x: nat, n: nat)
    requires forall k: nat :: Bit(x, k) ==> k < n
    ensures x < Pow2(n)
    decreases n
  {
    if n == 0 {
      if x > 0 { var k := SomeBit(x); }
    } else {
      forall k: nat | Bit(x / 2, k) ensures k < n - 1 { assert Bit(x, k + 1); }
      BoundedByBits(x / 2, n - 1);
    }
  }

  /** The offsets are exactly the targets inside the prefix. */
  lemma {:induction false} OffsetsAre(rva: u32, ts: seq<nat>, o: nat)
    ensures o in OffsetsIn(rva, ts) <==> o <= 16 && rva + o in ts
  {
    if ts != [] {
      OffsetsAre(rva, ts[..|ts| - 1], o);
      assert ts == ts[..|ts| - 1] + [ts[|ts| - 1]];
    }
  }

  lemma {:induction false} OffsetsApart(rva: u32, ts: seq<nat>)
    requires Apart(ts)
    ensures Apart(OffsetsIn(rva, ts))
  {
    if ts != [] {
      var init, t := ts[..|ts| - 1], ts[|ts| - 1];
      OffsetsApart(rva, init);
      var os := OffsetsIn(rva, init);
      if Inside(rva, t) {
        forall i | 0 <= i < |os| ensures os[i] + 4 <= t - rva || t - rva + 4 <= os[i] {
          OffsetsAre(rva, init, os[i]);
          var j :| 0 <= j < |init| && init[j] == rva + os[i];
          assert ts[j] == init[j];
        }
      }
    }
  }

  /** The mask written for one export has exactly the bits of the targets in its prefix. */
  lemma MaskMeans(rva: u32, ts: seq<nat>, k: nat)
    requires Apart(ts)
    ensures Bit(MaskOf(Sort(OffsetsIn(rva, ts))), k) <==> k <= 16 && rva + k in ts
  {
    var os := OffsetsIn(rva, ts);
    OffsetsApart(rva, ts);
    SortApart(os);
    SortKeeps(os);
    MaskBits(Sort(os), k);
    OffsetsAre(rva, ts, k);
    assert k in Sort(os) <==> k in multiset(Sort(os));
  }

  /** Whatever the audit lets through, the prefix relocation accepts. */
  lemma AuditedMaskIsValid(rva: u32, ts: seq<nat>, preferred: u32)
    requires Apart(ts) && preferred > 0 && preferred % 65536 == 0
    ensures MaskOf(Sort(OffsetsIn(rva, ts))) < 0x2_0000
    ensures MaskValid(MaskOf(Sort(OffsetsIn(rva, ts))), preferred)
  {
    hide Bit, OffsetsIn, MaskOf, Sort, Pow2;
    var mask := MaskOf(Sort(OffsetsIn(rva, ts)));
    forall k: nat ensures Bit(mask, k) <==> k <= 16 && rva + k in ts { MaskMeans(rva, ts, k); }
    BoundedByBits(mask, 17);
    Pow2Of17();
    assert Spaced(mask, 17) by {
      forall i: nat, j: nat | i < j < 17 && Bit(mask, i) && Bit(mask, j) ensures j - i >= 4 {
        var a :| 0 <= a < |ts| && ts[a] == rva + i;
        var b :| 0 <= b < |ts| && ts[b] == rva + j;
        assert a < b || b < a;
      }
    }
  }

  lemma Pow2Of17()
    ensures Pow2(17) == 0x2_0000
  {
    Pow2Values();
    assert Pow2(17) == 2 * Pow2(16);
  }

  /** The masks of every export, as they are written into the generated specification:
      each of them is valid. */
  method CompileMasks(f: File, imageSize: u32, rvas: seq<u32>, relocRva: u32, relocSize: u32, preferred: u32)
    returns (r: Result<seq<u32>>)
    requires f.Valid()
    ensures r.Ok? <==> Sound(f, imageSize, rvas, relocRva, relocSize, preferred)
    ensures r.Refused? ==> r.why == AuditFault(f, imageSize, rvas, relocRva, relocSize)
    ensures r.Ok? ==> |r.value| == |rvas|
    ensures r.Ok? ==> forall e :: 0 <= e < |rvas| ==>
              MaskValid(r.value[e], preferred) &&
              forall k: nat :: Bit(r.value[e], k) <==>
                k <= 16 && rvas[e] + k in Targets(f, imageSize, rvas, relocRva, relocSize).value
  {
    hide Targets, OffsetsIn, Sort, MaskOf, Bit, Apart, MaskValid, AuditFault;
    var offsets := Audit(f, imageSize, rvas, relocRva, relocSize, preferred);
    match offsets
    case Refused(why) => return Refused(why);
    case Ok(lists) =>
      ghost var ts := Targets(f, imageSize, rvas, relocRva, relocSize).value;
      var masks: seq<u32> := [];
      for e := 0 to |lists|
        invariant |masks| == e
        invariant forall k :: 0 <= k < e ==> MaskValid(masks[k], preferred) && MeansTargets(masks[k], rvas[k], ts)
      {
        AuditedMaskIsValid(rvas[e], ts, preferred);
        forall k: nat ensures Bit(MaskOf(lists[e]), k) <==> k <= 16 && rvas[e] + k in ts { MaskMeans(rvas[e], ts, k); }
        masks := masks + [MaskOf(lists[e])];
      }
      return Ok(masks);
  }

  /** The mask has the bits of the targets inside the prefix at rva. */
  ghost predicate MeansTargets(mask: nat, rva: u32, ts: seq<nat>) {
    forall k: nat :: Bit(mask, k) <==> k <= 16 && rva + k in ts
  }

  // ---- The whole image -------------------------------------------------------------

  ghost predicate Touched(ts: seq<nat>, k: nat) { exists t :: t in ts && t <= k < t + 4 }

  /** What loading at another base does to an image: every target word is moved, and no
      other byte. */
  ghost predicate ImageMoved(before: seq<byte>, after: seq<byte>, ts: seq<nat>, delta: int) {
    && |after| == |before|
    && (forall t :: t in ts ==> t + 4 <= |before| && WordIn(after, t) == Wrap(WordIn(before, t) + delta))
    && (forall k :: 0 <= k < |before| && !Touched(ts, k) ==> after[k] == before[k])
  }

  ghost predicate Contained(rvas: seq<u32>, imageSize: u32, ts: seq<nat>) {
    forall t, e :: t in ts && 0 <= e < |rvas| ==> Clear(rvas[e], t)
  }

  predicate Clear(rva: u32, t: nat) { Disjoint(rva, t) || Inside(rva, t) }

  lemma {:induction false} RecordsContained(f: File, imageSize: u32, rvas: seq<u32>, page: u32, rva: nat, n: nat)
    requires f.Valid() && Records(f, imageSize, rvas, page, rva, n).Ok?
    ensures Contained(rvas, imageSize, Records(f, imageSize, rvas, page, rva, n).value)
    decreases n
  {
    if n > 0 {
      RecordsContained(f, imageSize, rvas, page, rva + 2, n - 1);
      hide Number16, Disjoint, Inside;
    }
  }

  lemma ContainedJoin(rvas: seq<u32>, imageSize: u32, a: seq<nat>, b: seq<nat>)
    requires Contained(rvas, imageSize, a) && Contained(rvas, imageSize, b)
    ensures Contained(rvas, imageSize, a + b)
  {
    hide Clear;
    assert forall t :: t in a + b <==> t in a || t in b;
  }

  lemma TargetsSplit(f: File, imageSize: u32, rvas: seq<u32>, rva: nat, left: nat)
      returns (page: u32, size: u32, n: nat)
    requires f.Valid() && left > 0 && Targets(f, imageSize, rvas, rva, left).Ok?
    ensures 8 <= size <= left && Records(f, imageSize, rvas, page, rva + 8, n).Ok?
    ensures Targets(f, imageSize, rvas, rva + size, left - size).Ok?
    ensures Targets(f, imageSize, rvas, rva, left).value ==
              Records(f, imageSize, rvas, page, rva + 8, n).value +
              Targets(f, imageSize, rvas, rva + size, left - size).value
  {
    hide Number32, Records;
    page, size := Number32(f, rva).value, Number32(f, rva + 4).value;
    n := (size - 8) / 2;
  }

  lemma NothingContained(f: File, imageSize: u32, rvas: seq<u32>, rva: nat)
    requires f.Valid()
    ensures Targets(f, imageSize, rvas, rva, 0) == Ok([]) && Contained(rvas, imageSize, [])
  {}

  /** No admitted target straddles the edge of a prefix. */
  lemma {:induction false} TargetsContained(f: File, imageSize: u32, rvas: seq<u32>, rva: nat, left: nat)
    requires f.Valid() && Targets(f, imageSize, rvas, rva, left).Ok?
    ensures Contained(rvas, imageSize, Targets(f, imageSize, rvas, rva, left).value)
    decreases left
  {
    hide *;
    if left == 0 {
      NothingContained(f, imageSize, rvas, rva);
    } else {
      var page, size, n := TargetsSplit(f, imageSize, rvas, rva, left);
      TargetsContained(f, imageSize, rvas, rva + size, left - size);
      RecordsContained(f, imageSize, rvas, page, rva + 8, n);
      ContainedJoin(rvas, imageSize, Records(f, imageSize, rvas, page, rva + 8, n).value,
                    Targets(f, imageSize, rvas, rva + size, left - size).value);
    }
  }

  lemma CutWord(b: seq<byte>, lo: nat, o: nat)
    requires o <= 16 && lo + PREFIX <= |b|
    ensures WordIn(b[lo..lo + PREFIX], o) == WordIn(b, lo + o)
  {
    hide Join;
    var p := b[lo..lo + PREFIX];
    assert p[o] == b[lo + o] && p[o + 1] == b[lo + o + 1] && p[o + 2] == b[lo + o + 2] && p[o + 3] == b[lo + o + 3];
  }

  /** A touched byte of the prefix lies in a marked window. */
  lemma TouchedInWindow(ts: seq<nat>, rva: u32, mask: u32, k: nat)
    requires k < PREFIX && MeansTargets(mask, rva, ts) && forall t :: t in ts ==> Clear(rva, t)
    ensures Touched(ts, rva + k) ==> InWindow(mask, k)
  {
    hide Bit;
    if t :| t in ts && t <= rva + k < t + 4 {
      assert Clear(rva, t);
      var o: nat := t - rva;
      assert rva + o in ts && Bit(mask, o);
    }
  }

  /** Relocating the image and cutting out a prefix is relocating the prefix by its mask. */
  lemma PrefixOfMovedImage(before: seq<byte>, after: seq<byte>, ts: seq<nat>, delta: int, rva: u32, mask: u32)
    requires ImageMoved(before, after, ts, delta) && rva + PREFIX <= |before|
    requires MeansTargets(mask, rva, ts) && forall t :: t in ts ==> Clear(rva, t)
    ensures Moved(before[rva..rva + PREFIX], after[rva..rva + PREFIX], mask, delta)
  {
    hide Bit, Wrap, WordIn, Clear, InWindow, Touched;
    var p, q := before[rva..rva + PREFIX], after[rva..rva + PREFIX];
    forall o | 0 <= o <= 16 && Bit(mask, o) ensures WordIn(q, o) == Wrap(WordIn(p, o) + delta) {
      assert rva + o in ts;
      CutWord(before, rva, o);
      CutWord(after, rva, o);
    }
    forall k | 0 <= k < PREFIX && !InWindow(mask, k) ensures q[k] == p[k] {
      TouchedInWindow(ts, rva, mask, k);
      assert !Touched(ts, rva + k);
      assert after[rva + k] == before[rva + k];
    }
  }

  lemma MovedLength(before: seq<byte>, after: seq<byte>, ts: seq<nat>, delta: int)
    requires ImageMoved(before, after, ts, delta)
    ensures |after| == |before|
  {}

  /** End to end: for an audited artifact, the expected bytes the loader computes from an
      export's prefix and mask are the bytes found there once the image is relocated. */
  lemma ExpectedPrefixIsObserved(f: File, imageSize: u32, rvas: seq<u32>, relocRva: u32, relocSize: u32, preferred: u32,
                                 e: nat, mask: u32, before: seq<byte>, after: seq<byte>, actual: u32,
                                 expected: seq<byte>)
    requires f.Valid() && Sound(f, imageSize, rvas, relocRva, relocSize, preferred)
    requires e < |rvas| && rvas[e] + PREFIX <= |before|
    requires MeansTargets(mask, rvas[e], Targets(f, imageSize, rvas, relocRva, relocSize).value)
    requires ImageMoved(before, after, Targets(f, imageSize, rvas, relocRva, relocSize).value, actual - preferred)
    requires Moved(before[rvas[e]..rvas[e] + PREFIX], expected, mask, actual - preferred)
    ensures |after| == |before| && after[rvas[e]..rvas[e] + PREFIX] == expected
  {
    hide Bit, Targets, Clear, Moved, ImageMoved;
    var ts := Targets(f, imageSize, rvas, relocRva, relocSize).value;
    TargetsContained(f, imageSize, rvas, relocRva, relocSize);
    PrefixOfMovedImage(before, after, ts, actual - preferred, rvas[e], mask);
    assert |after| == |before| by { MovedLength(before, after, ts, actual - preferred); }
    MovedUnique(before[rvas[e]..rvas[e] + PREFIX], after[rvas[e]..rvas[e] + PREFIX], expected, mask,
                actual - preferred);
  }

  // ---- Reading back a written directory ---------------------------------------------

  type half = x: int | 0 <= x < 0x1_0000

  /** A block as a linker writes it: an aligned page and an even number of records. */
  datatype Block = Block(page: u32, records: seq<half>) {
    predicate Valid() { page % 4096 == 0 && |records| % 2 == 0 && 8 + 2 * |records| < M32 }
  }

  function RecordBytes(rs: seq<half>): (b: seq<byte>)
    ensures |b| == 2 * |rs|
  {
    if rs == [] then [] else [rs[0] % 0x100, rs[0] / 0x100] + RecordBytes(rs[1..])
  }

  function BlockBytes(b: Block): seq<byte>
    requires b.Valid()
  {
    Bytes(b.page) + Bytes(8 + 2 * |b.records|) + RecordBytes(b.records)
  }

  function DirectoryBytes(bs: seq<Block>): seq<byte>
    requires forall b :: b in bs ==> b.Valid()
  {
    if bs == [] then [] else BlockBytes(bs[0]) + DirectoryBytes(bs[1..])
  }

  function BlockTargets(page: u32, rs: seq<half>): seq<nat> {
    if rs == [] then [] else RecordTargets(page, rs[0]) + BlockTargets(page, rs[1..])
  }

  function DirectoryTargets(bs: seq<Block>): seq<nat> {
    if bs == [] then [] else BlockTargets(bs[0].page, bs[0].records) + DirectoryTargets(bs[1..])
  }

  predicate SeesHalf(f: File, rva: nat, bytes: seq<byte>, i: nat)
    requires f.Valid()
  {
    i + 2 <= |bytes| ==> Number16(f, rva + i) == Some(Half(bytes[i], bytes[i + 1]))
  }

  predicate SeesWord(f: File, rva: nat, bytes: seq<byte>, i: nat)
    requires f.Valid()
  {
    i + 4 <= |bytes| ==> Number32(f, rva + i) == Some(Join(bytes[i], bytes[i + 1], bytes[i + 2], bytes[i + 3]))
  }

  /** Reads through RVAs from rva on see these bytes. */
  ghost predicate Sees(f: File, rva: nat, bytes: seq<byte>)
    requires f.Valid()
  {
    && (forall i: nat :: SeesHalf(f, rva, bytes, i))
    && (forall i: nat :: SeesWord(f, rva, bytes, i))
  }

  lemma RecordBytesAt(rs: seq<half>)
    requires rs != []
    ensures Half(RecordBytes(rs)[0], RecordBytes(rs)[1]) == rs[0] && RecordBytes(rs)[2..] == RecordBytes(rs[1..])
  {}

  lemma SeesTail(f: File, rva: nat, a: seq<byte>, b: seq<byte>)
    requires f.Valid() && Sees(f, rva, a + b)
    ensures Sees(f, rva + |a|, b)
  {
    hide Number16, Number32, Half, Join;
    var c := rva + |a|;
    forall i: nat ensures SeesHalf(f, c, b, i) && SeesWord(f, c, b, i) {
      assert SeesHalf(f, rva, a + b, |a| + i) && SeesWord(f, rva, a + b, |a| + i);
      assert rva + (|a| + i) == rva + |a| + i;
    }
  }

  lemma SeesHead(f: File, rva: nat, a: seq<byte>, b: seq<byte>)
    requires f.Valid() && Sees(f, rva, a + b)
    ensures Sees(f, rva, a)
  {
    hide Number16, Number32, Half, Join;
    forall i: nat ensures SeesHalf(f, rva, a, i) && SeesWord(f, rva, a, i) {
      assert SeesHalf(f, rva, a + b, i) && SeesWord(f, rva, a + b, i);
    }
  }

  lemma FirstRecord(f: File, rva: nat, rs: seq<half>)
    requires f.Valid() && rs != [] && Sees(f, rva, RecordBytes(rs))
    ensures Number16(f, rva) == Some(rs[0]) && Sees(f, rva + 2, RecordBytes(rs[1..]))
  {
    hide Number16, Number32, Half;
    var b := RecordBytes(rs);
    RecordBytesAt(rs);
    assert b == b[..2] + b[2..];
    SeesTail(f, rva, b[..2], b[2..]);
    assert SeesHalf(f, rva, b, 0);
  }

  predicate AllowedAll(imageSize: u32, rvas: seq<u32>, page: u32, rs: seq<half>) {
    forall r :: r in rs ==> RecordAllowed(imageSize, rvas, page, r)
  }

  lemma AllowedFirst(imageSize: u32, rvas: seq<u32>, page: u32, rs: seq<half>)
    requires rs != []
    ensures AllowedAll(imageSize, rvas, page, rs) <==>
              RecordAllowed(imageSize, rvas, page, rs[0]) && AllowedAll(imageSize, rvas, page, rs[1..])
  {
    hide RecordAllowed;
    assert forall r :: r in rs <==> r == rs[0] || r in rs[1..];
  }

  /** What the walk should find in these records. */
  function RecordsFound(imageSize: u32, rvas: seq<u32>, page: u32, rs: seq<half>): Result<seq<nat>> {
    if rs == [] then Ok([])
    else
      match RecordFault(imageSize, rvas, page, rs[0])
      case Some(why) => Refused(why)
      case None => Prepend(RecordTargets(page, rs[0]), RecordsFound(imageSize, rvas, page, rs[1..]))
  }

  lemma {:induction false} RecordsRead(f: File, imageSize: u32, rvas: seq<u32>, page: u32, rva: nat, rs: seq<half>)
    requires f.Valid() && Sees(f, rva, RecordBytes(rs))
    ensures Records(f, imageSize, rvas, page, rva, |rs|) == RecordsFound(imageSize, rvas, page, rs)
    decreases |rs|
  {
    if rs != [] {
      hide Number16, Sees, RecordBytes, Records, RecordFault, RecordTargets;
      FirstRecord(f, rva, rs);
      RecordsRead(f, imageSize, rvas, page, rva + 2, rs[1..]);
      RecordsStep(f, imageSize, rvas, page, rva, |rs|);
    }
  }

  /** The records are found exactly when all of them are allowed, with all their targets. */
  lemma {:induction false} RecordsFoundAre(imageSize: u32, rvas: seq<u32>, page: u32, rs: seq<half>)
    ensures RecordsFound(imageSize, rvas, page, rs).Ok? <==> AllowedAll(imageSize, rvas, page, rs)
    ensures AllowedAll(imageSize, rvas, page, rs) ==>
              RecordsFound(imageSize, rvas, page, rs) == Ok(BlockTargets(page, rs))
  {
    if rs != [] {
      RecordsFoundAre(imageSize, rvas, page, rs[1..]);
      AllowedFirst(imageSize, rvas, page, rs);
      FaultlessIsAllowed(imageSize, rvas, page, rs[0]);
      hide RecordFault, RecordAllowed, AllowedAll, RecordTargets;
    }
  }

  /** The walk over a block of n records. */
  lemma TargetsStep(f: File, imageSize: u32, rvas: seq<u32>, rva: nat, left: nat, b: Block)
    requires f.Valid() && b.Valid() && Number32(f, rva) == Some(b.page) && 8 + 2 * |b.records| <= left
    requires Number32(f, rva + 4) == Some(8 + 2 * |b.records|)
    ensures Targets(f, imageSize, rvas, rva, left) ==
              match Records(f, imageSize, rvas, b.page, rva + 8, |b.records|)
              case Refused(why) => Refused(why)
              case Ok(ts) =>
                Prepend(ts, Targets(f, imageSize, rvas, rva + (8 + 2 * |b.records|), left - (8 + 2 * |b.records|)))
  {
    hide Number32, Records, Prepend;
    Quarter(|b.records|);
  }

  lemma BlockHeader(f: File, rva: nat, b: Block)
    requires f.Valid() && b.Valid() && Sees(f, rva, BlockBytes(b))
    ensures Number32(f, rva) == Some(b.page) && Number32(f, rva + 4) == Some(8 + 2 * |b.records|)
    ensures Sees(f, rva + 8, RecordBytes(b.records))
  {
    hide Number16, Number32, ByteOf, Join, Half;
    var size := 8 + 2 * |b.records|;
    var w := BlockBytes(b);
    JoinBytes(b.page);
    JoinBytes(size);
    assert w == Bytes(b.page) + Bytes(size) + RecordBytes(b.records);
    assert SeesWord(f, rva, w, 0) && SeesWord(f, rva, w, 4);
    SeesTail(f, rva, Bytes(b.page) + Bytes(size), RecordBytes(b.records));
  }

  predicate BlocksAllowed(imageSize: u32, rvas: seq<u32>, bs: seq<Block>) {
    forall b :: b in bs ==> AllowedAll(imageSize, rvas, b.page, b.records)
  }

  lemma BlocksFirst(imageSize: u32, rvas: seq<u32>, bs: seq<Block>)
    requires bs != []
    ensures BlocksAllowed(imageSize, rvas, bs) <==>
              AllowedAll(imageSize, rvas, bs[0].page, bs[0].records) && BlocksAllowed(imageSize, rvas, bs[1..])
  {
    hide AllowedAll;
    assert forall b :: b in bs <==> b == bs[0] || b in bs[1..];
  }

  lemma DirectoryFirst(f: File, rva: nat, bs: seq<Block>)
    requires f.Valid() && bs != [] && (forall b :: b in bs ==> b.Valid()) && Sees(f, rva, DirectoryBytes(bs))
    ensures var size := 8 + 2 * |bs[0].records|;
            Sees(f, rva, BlockBytes(bs[0])) && Sees(f, rva + size, DirectoryBytes(bs[1..])) &&
            |DirectoryBytes(bs)| == size + |DirectoryBytes(bs[1..])|
  {
    hide Number16, Number32, BlockBytes, Sees;
    BlockLength(bs[0]);
    SeesHead(f, rva, BlockBytes(bs[0]), DirectoryBytes(bs[1..]));
    SeesTail(f, rva, BlockBytes(bs[0]), DirectoryBytes(bs[1..]));
  }

  /** What the walk should find over these blocks. */
  function Found(imageSize: u32, rvas: seq<u32>, bs: seq<Block>): Result<seq<nat>> {
    if bs == [] then Ok([])
    else
      match RecordsFound(imageSize, rvas, bs[0].page, bs[0].records)
      case Refused(why) => Refused(why)
      case Ok(ts) => Prepend(ts, Found(imageSize, rvas, bs[1..]))
  }

  lemma FoundStep(imageSize: u32, rvas: seq<u32>, bs: seq<Block>)
    requires bs != []
    ensures Found(imageSize, rvas, bs) ==
              match RecordsFound(imageSize, rvas, bs[0].page, bs[0].records)
              case Refused(why) => Refused(why)
              case Ok(ts) => Prepend(ts, Found(imageSize, rvas, bs[1..]))
  {}

  /** All targets are found exactly when every record is allowed. */
  lemma {:induction false} FoundAre(imageSize: u32, rvas: seq<u32>, bs: seq<Block>)
    ensures Found(imageSize, rvas, bs).Ok? <==> BlocksAllowed(imageSize, rvas, bs)
    ensures BlocksAllowed(imageSize, rvas, bs) ==> Found(imageSize, rvas, bs) == Ok(DirectoryTargets(bs))
  {
    if bs != [] {
      FoundAre(imageSize, rvas, bs[1..]);
      BlocksFirst(imageSize, rvas, bs);
      RecordsFoundAre(imageSize, rvas, bs[0].page, bs[0].records);
      hide RecordsFound, AllowedAll, BlocksAllowed, BlockTargets;
    }
  }

  lemma NothingRead(f: File, imageSize: u32, rvas: seq<u32>, rva: nat)
    requires f.Valid()
    ensures DirectoryBytes([]) == [] && Targets(f, imageSize, rvas, rva, 0) == Found(imageSize, rvas, [])
  {}

  /** Reading back: over the bytes of well-formed blocks the walk finds every block's
      targets in order, or stops at the first record that is not allowed. */
  lemma {:induction false} DirectoryRead(f: File, imageSize: u32, rvas: seq<u32>, rva: nat, bs: seq<Block>)
    requires f.Valid() && (forall b :: b in bs ==> b.Valid()) && Sees(f, rva, DirectoryBytes(bs))
    ensures Targets(f, imageSize, rvas, rva, |DirectoryBytes(bs)|) == Found(imageSize, rvas, bs)
    decreases |bs|
  {
    hide *;
    if bs == [] {
      NothingRead(f, imageSize, rvas, rva);
    } else {
      var b := bs[0];
      DirectoryFirst(f, rva, bs);
      BlockHeader(f, rva, b);
      RecordsRead(f, imageSize, rvas, b.page, rva + 8, b.records);
      TargetsStep(f, imageSize, rvas, rva, |DirectoryBytes(bs)|, b);
      FoundStep(imageSize, rvas, bs);
      DirectoryRead(f, imageSize, rvas, rva + (8 + 2 * |b.records|), bs[1..]);
    }
  }

  lemma BlockLength(b: Block)
    requires b.Valid()
    ensures |BlockBytes(b)| == 8 + 2 * |b.records|
  {}

  lemma Quarter(n: nat)
    requires n % 2 == 0
    ensures (8 + 2 * n) % 4 == 0 && (8 + 2 * n - 8) / 2 == n
  {}

  lemma BackedOffset(f: File, rva: nat, n: nat, i: nat, k: nat, length: nat)
    requires f.Valid() && i < |f.sections| && Backs(f.sections[i], rva, n) && 0 < length && k + length <= n
    requires forall j {:trigger f.sections[j]} :: 0 <= j < |f.sections| && j != i ==>
               f.sections[j].rva + f.sections[j].rawSize <= rva || rva + n <= f.sections[j].rva
    ensures Offset(f.sections, rva + k, length) == Some(f.sections[i].raw + rva - f.sections[i].rva + k)
  {
    hide Matches;
    OffsetOf(f.sections, rva + k, length, i);
  }

  /** The section of the directory is the only one near it. */
  ghost predicate Alone(f: File, rva: nat, n: nat, i: nat)
    requires f.Valid()
  {
    && i < |f.sections| && Backs(f.sections[i], rva, n)
    && f.sections[i].raw + rva - f.sections[i].rva + n <= |f.data|
    && forall j {:trigger f.sections[j]} :: 0 <= j < |f.sections| && j != i ==>
         f.sections[j].rva + f.sections[j].rawSize <= rva || rva + n <= f.sections[j].rva
  }

  function Start(f: File, rva: nat, i: nat): int
    requires i < |f.sections|
  {
    f.sections[i].raw + rva - f.sections[i].rva
  }

  lemma AloneStart(f: File, rva: nat, n: nat, i: nat)
    requires f.Valid() && Alone(f, rva, n, i)
    ensures i < |f.sections| && 0 <= Start(f, rva, i) && Start(f, rva, i) + n <= |f.data|
  {}

  lemma BackedHalf(f: File, rva: nat, n: nat, i: nat, k: nat)
    requires f.Valid() && Alone(f, rva, n, i) && k + 2 <= n
    ensures var at := Start(f, rva, i);
            0 <= at && at + n <= |f.data| && Number16(f, rva + k) == Some(Half(f.data[at + k], f.data[at + k + 1]))
  {
    hide Matches, Half;
    BackedOffset(f, rva, n, i, k, 2);
  }

  lemma BackedWord(f: File, rva: nat, n: nat, i: nat, k: nat)
    requires f.Valid() && Alone(f, rva, n, i) && k + 4 <= n
    ensures var at := Start(f, rva, i);
            0 <= at && at + n <= |f.data| &&
            Number32(f, rva + k) ==
            Some(Join(f.data[at + k], f.data[at + k + 1], f.data[at + k + 2], f.data[at + k + 3]))
  {
    hide Matches, Join;
    BackedOffset(f, rva, n, i, k, 4);
  }

  lemma BackedRead(f: File, rva: nat, n: nat, i: nat, k: nat)
    requires f.Valid() && Alone(f, rva, n, i)
    ensures var at := Start(f, rva, i);
            && 0 <= at && at + n <= |f.data|
            && SeesHalf(f, rva, f.data[at..at + n], k) && SeesWord(f, rva, f.data[at..at + n], k)
  {
    hide Alone, Start, Number16, Number32, Join, Half;
    AloneStart(f, rva, n, i);
    var at := Start(f, rva, i);
    var bytes := f.data[at..at + n];
    if k + 2 <= n {
      BackedHalf(f, rva, n, i, k);
      assert bytes[k] == f.data[at + k] && bytes[k + 1] == f.data[at + k + 1];
    }
    if k + 4 <= n {
      BackedWord(f, rva, n, i, k);
      assert bytes[k] == f.data[at + k] && bytes[k + 1] == f.data[at + k + 1];
      assert bytes[k + 2] == f.data[at + k + 2] && bytes[k + 3] == f.data[at + k + 3];
    }
  }

  /** A directory that lies in one section, clear of all others, is seen as its bytes. */
  lemma BackedIsSeen(f: File, rva: nat, n: nat, i: nat)
    requires f.Valid() && i < |f.sections| && Backs(f.sections[i], rva, n)
    requires forall j {:trigger f.sections[j]} :: 0 <= j < |f.sections| && j != i ==>
               f.sections[j].rva + f.sections[j].rawSize <= rva || rva + n <= f.sections[j].rva
    ensures var at := f.sections[i].raw + rva - f.sections[i].rva;
            at + n <= |f.data| && Sees(f, rva, f.data[at..at + n])
  {
    hide Number16, Number32, Join, Half, SeesHalf, SeesWord;
    assert f.sections[i] in f.sections;
    var at := Start(f, rva, i);
    var bytes := f.data[at..at + n];
    forall k: nat ensures SeesHalf(f, rva, bytes, k) && SeesWord(f, rva, bytes, k) { BackedRead(f, rva, n, i, k); }
  }
}
