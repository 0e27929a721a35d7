// The two gates of an observed profile: against the checked file's bytes, and
// against a mapped image read in bounded pieces.  On faithfully mapped images
// they give the same answer.

module ProfileGate {
  import opened Words
  import opened PeImage
  import opened PeOffsets

  type Sha256 = seq<byte>

  datatype ImageAnchor = ImageAnchor(id: string, rva: u32, section_index: u16, length: u16, bytes: seq<byte>) {
    predicate Valid() { |bytes| == 16 }
  }

  datatype ObservedProfile = ObservedProfile(id: string, file_bytes: nat, sha256: Sha256, layout: PeLayout,
                                             anchors: seq<ImageAnchor>) {
    predicate Valid() { forall a :: a in anchors ==> a.Valid() }
  }

  datatype ProfileResult = MatchedObservation | UnknownFingerprint | LayoutMismatch | InvalidAnchor | AnchorMismatch
                         | UnreadableImage

  /** The image reader: the bytes its k-th call returns for a range, or None when they
      cannot be read.  Nothing says that two calls agree. */
  datatype Image = Image(copy: (nat, u32, nat) -> Option<seq<byte>>)

  predicate ValidAnchor(a: ImageAnchor, l: PeLayout)
    requires a.Valid()
  {
    if l.section_count == 0 || l.section_count > MAX_SECTIONS || a.length == 0 || a.length > |a.bytes| ||
       a.section_index >= l.section_count
    then false
    else
      var s := l.sections[a.section_index];
      s.Executable() && a.rva >= s.rva && a.rva - s.rva + a.length <= s.raw_size
  }

  // ---- The file gate -----------------------------------------------------------

  /** What the file says of one anchor; MatchedObservation when it agrees. */
  ghost function FileAnchor(file: seq<byte>, l: PeLayout, a: ImageAnchor): ProfileResult
    requires a.Valid()
  {
    var offset := Raw(l, a.rva, a.length);
    if !ValidAnchor(a, l) || offset.None? || offset.value > |file| || a.length > |file| - offset.value then
      InvalidAnchor
    else if file[offset.value..offset.value + a.length] != a.bytes[..a.length] then AnchorMismatch
    else MatchedObservation
  }

  /** The first anchor that does not agree decides. */
  ghost function FileAnchors(file: seq<byte>, l: PeLayout, anchors: seq<ImageAnchor>): ProfileResult
    requires forall a :: a in anchors ==> a.Valid()
  {
    if anchors == [] then MatchedObservation
    else if FileAnchor(file, l, anchors[0]) != MatchedObservation then FileAnchor(file, l, anchors[0])
    else FileAnchors(file, l, anchors[1..])
  }

  predicate FingerprintKnown(file: seq<byte>, hash: Sha256, p: ObservedProfile) {
    |file| == p.file_bytes && hash == p.sha256
  }

  ghost function FileVerdict(file: seq<byte>, hash: Sha256, l: PeLayout, p: ObservedProfile): ProfileResult
    requires p.Valid()
  {
    if !FingerprintKnown(file, hash, p) then UnknownFingerprint
    else if l != p.layout then LayoutMismatch
    else if p.anchors == [] || |p.anchors| > 32 then InvalidAnchor
    else FileAnchors(file, l, p.anchors)
  }

  /** match_file_observation. */
  method MatchFileObservation(file: seq<byte>, hash: Sha256, l: PeLayout, p: ObservedProfile) returns (r: ProfileResult)
    requires p.Valid()
    ensures r == FileVerdict(file, hash, l, p)
  {
    hide ValidAnchor, Raw;
    if |file| != p.file_bytes || hash != p.sha256 {
      return UnknownFingerprint;
    }
    if l != p.layout {
      return LayoutMismatch;
    }
    if |p.anchors| == 0 || |p.anchors| > 32 {
      return InvalidAnchor;
    }
    for k := 0 to |p.anchors|
      invariant FileAnchors(file, l, p.anchors) == FileAnchors(file, l, p.anchors[k..])
    {
      var a := p.anchors[k];
      assert p.anchors[k..][0] == a && p.anchors[k..][1..] == p.anchors[k + 1..];
      var offset := RawOffset(l, a.rva, a.length);
      if !ValidAnchor(a, l) || offset.None? || offset.value > |file| || a.length > |file| - offset.value {
        return InvalidAnchor;
      }
      AnchorLength(a, l);
      if a.bytes[..a.length] != file[offset.value..offset.value + a.length] {
        return AnchorMismatch;
      }
    }
    return MatchedObservation;
  }

  lemma AnchorLength(a: ImageAnchor, l: PeLayout)
    requires a.Valid() && ValidAnchor(a, l)
    ensures 1 <= a.length <= 16 && a.section_index < l.section_count <= MAX_SECTIONS
    ensures Holds(l.sections[a.section_index], a.rva, a.length)
  {}

  // ---- The mapped gate ------------------------------------------------------------

  const CHUNK: nat := 1024

  /** Comparing the headers in chunks from at on, beginning with the reader's call tick. */
  function Headers(image: Image, file: seq<byte>, size: nat, at: nat, tick: nat): ProfileResult
    requires at <= size <= |file| && size < M32
    decreases size - at
  {
    if at == size then MatchedObservation
    else
      var count := if CHUNK < size - at then CHUNK else size - at;
      match image.copy(tick, at, count)
      case None => UnreadableImage
      case Some(chunk) =>
        if chunk != file[at..at + count] then LayoutMismatch else Headers(image, file, size, at + count, tick + 1)
  }

  /** The number of chunks from at on. */
  function Chunks(size: nat, at: nat): nat
    decreases size - at
  {
    if at >= size then 0 else 1 + Chunks(size, if CHUNK < size - at then at + CHUNK else size)
  }

  /** Enough pieces of 1024 bytes, and not one too many. */
  lemma {:induction false} ChunksCover(size: nat, at: nat)
    requires at <= size
    ensures size <= at + 1024 * Chunks(size, at) < size + 1024
    decreases size - at
  {
    if at < size { ChunksCover(size, if CHUNK < size - at then at + CHUNK else size); }
  }

  function MappedAnchor(image: Image, l: PeLayout, a: ImageAnchor, tick: nat): ProfileResult
    requires a.Valid()
  {
    if !ValidAnchor(a, l) then InvalidAnchor
    else
      match image.copy(tick, a.rva, a.length)
      case None => UnreadableImage
      case Some(chunk) => if chunk != a.bytes[..a.length] then AnchorMismatch else MatchedObservation
  }

  function MappedAnchors(image: Image, l: PeLayout, anchors: seq<ImageAnchor>, tick: nat): ProfileResult
    requires forall a :: a in anchors ==> a.Valid()
  {
    if anchors == [] then MatchedObservation
    else if MappedAnchor(image, l, anchors[0], tick) != MatchedObservation then MappedAnchor(image, l, anchors[0], tick)
    else MappedAnchors(image, l, anchors[1..], tick + 1)
  }

  function MappedVerdict(image: Image, file: seq<byte>, l: PeLayout, p: ObservedProfile): ProfileResult
    requires p.Valid()
  {
    if l != p.layout || l.headers_size > |file| then LayoutMismatch
    else if Headers(image, file, l.headers_size, 0, 0) != MatchedObservation then
      Headers(image, file, l.headers_size, 0, 0)
    else if p.anchors == [] || |p.anchors| > 32 then InvalidAnchor
    else MappedAnchors(image, l, p.anchors, Chunks(l.headers_size, 0))
  }

  /** check_mapped_observation. */
  method CheckMappedObservation(image: Image, file: seq<byte>, l: PeLayout, p: ObservedProfile)
      returns (r: ProfileResult)
    requires p.Valid()
    ensures r == MappedVerdict(image, file, l, p)
  {
    hide ValidAnchor;
    if l != p.layout || l.headers_size > |file| {
      return LayoutMismatch;
    }
    var at, tick := 0, 0;
    while at < l.headers_size
      invariant 0 <= at <= l.headers_size
      invariant Headers(image, file, l.headers_size, 0, 0) == Headers(image, file, l.headers_size, at, tick)
      invariant tick + Chunks(l.headers_size, at) == Chunks(l.headers_size, 0)
    {
      var count := if CHUNK < l.headers_size - at then CHUNK else l.headers_size - at;
      var chunk := image.copy(tick, at, count);
      if chunk.None? { return UnreadableImage; }
      if chunk.value != file[at..at + count] { return LayoutMismatch; }
      at, tick := at + count, tick + 1;
    }
    if |p.anchors| == 0 || |p.anchors| > 32 {
      return InvalidAnchor;
    }
    ghost var first := tick;
    for k := 0 to |p.anchors|
      invariant tick == first + k
      invariant MappedAnchors(image, l, p.anchors, first) == MappedAnchors(image, l, p.anchors[k..], tick)
    {
      var a := p.anchors[k];
      assert p.anchors[k..][0] == a && p.anchors[k..][1..] == p.anchors[k + 1..];
      if !ValidAnchor(a, l) { return InvalidAnchor; }
      AnchorLength(a, l);
      var chunk := image.copy(tick, a.rva, a.length);
      if chunk.None? { return UnreadableImage; }
      if chunk.value != a.bytes[..a.length] { return AnchorMismatch; }
      tick := tick + 1;
    }
    return MatchedObservation;
  }

  // ---- Agreement --------------------------------------------------------------------

  /** At every call: the headers at 0 and every section's raw bytes at its RVA. */
  ghost predicate Faithful(image: Image, file: seq<byte>, l: PeLayout)
    requires l.section_count <= MAX_SECTIONS
  {
    && (forall t: nat, at: u32, n: nat {:trigger image.copy(t, at, n)} ::
          at + n <= l.headers_size && at + n <= |file| ==>
          image.copy(t, at, n) == Some(file[at..at + n]))
    && (forall t: nat, i, rva: u32, n: nat {:trigger Holds(l.sections[i], rva, n), image.copy(t, rva, n)} ::
          0 <= i < l.section_count && n > 0 && Holds(l.sections[i], rva, n)
          && OffsetIn(l.sections[i], rva) + n <= |file| ==>
          image.copy(t, rva, n) == Some(file[OffsetIn(l.sections[i], rva)..OffsetIn(l.sections[i], rva) + n]))
  }

  lemma {:induction false} FaithfulHeaders(image: Image, file: seq<byte>, l: PeLayout, at: nat, tick: nat)
    requires at <= l.headers_size <= |file| && l.section_count <= MAX_SECTIONS && Faithful(image, file, l)
    ensures Headers(image, file, l.headers_size, at, tick) == MatchedObservation
    decreases l.headers_size - at
  {
    if at < l.headers_size {
      var count := if CHUNK < l.headers_size - at then CHUNK else l.headers_size - at;
      assert image.copy(tick, at, count) == Some(file[at..at + count]);
      FaithfulHeaders(image, file, l, at + count, tick + 1);
    }
  }

  /** One anchor: file and image say the same. */
  lemma AnchorAgrees(image: Image, file: seq<byte>, l: PeLayout, a: ImageAnchor, tick: nat)
    requires a.Valid() && Accepted(l, |file|) && l.section_count <= MAX_SECTIONS && Faithful(image, file, l)
    ensures FileAnchor(file, l, a) == MappedAnchor(image, l, a, tick)
  {
    hide Accepted, Raw, ValidAnchor;
    if ValidAnchor(a, l) {
      AnchorLength(a, l);
      NeverAmbiguous(l, |file|, a.rva, a.length);
      RawInFile(l, |file|, a.rva, a.length);
    }
  }

  lemma {:induction false} AnchorsAgree(image: Image, file: seq<byte>, l: PeLayout, anchors: seq<ImageAnchor>,
                                        tick: nat)
    requires forall a :: a in anchors ==> a.Valid()
    requires Accepted(l, |file|) && l.section_count <= MAX_SECTIONS && Faithful(image, file, l)
    ensures FileAnchors(file, l, anchors) == MappedAnchors(image, l, anchors, tick)
  {
    if anchors != [] {
      hide Accepted, Faithful, FileAnchor, MappedAnchor;
      AnchorAgrees(image, file, l, anchors[0], tick);
      AnchorsAgree(image, file, l, anchors[1..], tick + 1);
    }
  }

  /** For an accepted file and a faithful image the gates differ only in the fingerprint:
      the file gate answers what the mapped gate answers whenever the fingerprint is known. */
  lemma GatesAgree(image: Image, file: seq<byte>, hash: Sha256, l: PeLayout, p: ObservedProfile)
    requires p.Valid() && Accepted(l, |file|) && l.section_count <= MAX_SECTIONS && Faithful(image, file, l)
    ensures FileVerdict(file, hash, l, p) ==
              if FingerprintKnown(file, hash, p) then MappedVerdict(image, file, l, p) else UnknownFingerprint
  {
    hide Accepted, Faithful;
    AcceptedCount(l, |file|);
    HeadersInFile(l, |file|);
    FaithfulHeaders(image, file, l, 0, 0);
    AnchorsAgree(image, file, l, p.anchors, Chunks(l.headers_size, 0));
  }

  lemma HeadersInFile(l: PeLayout, size: nat)
    requires LayoutOk(l, size)
    ensures l.headers_size <= size
  {}

  /** Parsed, then gated twice: a file match carries over to the image, and a mapped match
      leaves only the fingerprint able to fail the file gate. */
  lemma ParsedGatesAgree(image: Image, file: seq<byte>, hash: Sha256, r: PeResult, p: ObservedProfile)
    requires p.Valid() && r.layout.section_count <= MAX_SECTIONS && Faithful(image, file, r.layout)
    ensures ParsesTo(file, r) && r.error == NoError && FileVerdict(file, hash, r.layout, p) == MatchedObservation ==>
              MappedVerdict(image, file, r.layout, p) == MatchedObservation
    ensures ParsesTo(file, r) && r.error == NoError && MappedVerdict(image, file, r.layout, p) == MatchedObservation ==>
              FileVerdict(file, hash, r.layout, p) in {MatchedObservation, UnknownFingerprint}
  {
    hide ParsesTo, Accepted, Faithful, FileVerdict, MappedVerdict;
    ParsedIsAccepted(file, r);
    if ParsesTo(file, r) && r.error == NoError { GatesAgree(image, file, hash, r.layout, p); }
  }

  // ---- What a match means on any image -----------------------------------------------

  /** The reader's call tick shows these bytes. */
  ghost predicate Shows(image: Image, tick: nat, rva: u32, bytes: seq<byte>) {
    image.copy(tick, rva, |bytes|) == Some(bytes)
  }

  /** The c-th piece behind at, the last one shorter. */
  ghost predicate PieceShown(image: Image, file: seq<byte>, size: nat, at: nat, tick: nat, c: nat)
    requires size <= |file| && size < M32
  {
    var p := at + 1024 * c;
    p < size ==> Shows(image, tick + c, p, ChunkOf(file, size, p))
  }

  /** All pieces from at on, one call each from tick on. */
  ghost predicate HeadersShown(image: Image, file: seq<byte>, size: nat, at: nat, tick: nat)
    requires size <= |file| && size < M32
  {
    forall c: nat :: PieceShown(image, file, size, at, tick, c)
  }

  function ChunkOf(file: seq<byte>, size: nat, at: nat): seq<byte>
    requires at <= size <= |file|
  {
    file[at..if CHUNK < size - at then at + CHUNK else size]
  }

  lemma {:induction false} HeadersMeans(image: Image, file: seq<byte>, size: nat, at: nat, tick: nat)
    requires at <= size <= |file| && size < M32
    ensures Headers(image, file, size, at, tick) == MatchedObservation <==> HeadersShown(image, file, size, at, tick)
    decreases size - at
  {
    if at < size {
      var count := if CHUNK < size - at then CHUNK else size - at;
      HeadersMeans(image, file, size, at + count, tick + 1);
      assert ChunkOf(file, size, at) == file[at..at + count];
      NextChunks(image, file, size, at, count, tick);
      hide HeadersShown;
    }
  }

  lemma NextChunks(image: Image, file: seq<byte>, size: nat, at: nat, count: nat, tick: nat)
    requires at < size <= |file| && size < M32 && count == if CHUNK < size - at then CHUNK else size - at
    ensures HeadersShown(image, file, size, at, tick) <==>
              Shows(image, tick, at, ChunkOf(file, size, at)) && HeadersShown(image, file, size, at + count, tick + 1)
  {
    hide Shows, ChunkOf;
    assert PieceShown(image, file, size, at, tick, 0) <==> Shows(image, tick, at, ChunkOf(file, size, at));
    hide PieceShown;
    var next, call := at + count, tick + 1;
    if Shows(image, tick, at, ChunkOf(file, size, at)) && HeadersShown(image, file, size, next, call) {
      forall c: nat ensures PieceShown(image, file, size, at, tick, c) {
        if c > 0 {
          NextPiece(image, file, size, at, count, tick, c - 1);
          assert PieceShown(image, file, size, next, call, c - 1);
        }
      }
    }
    if HeadersShown(image, file, size, at, tick) {
      forall c: nat ensures PieceShown(image, file, size, next, call, c) {
        NextPiece(image, file, size, at, count, tick, c);
        assert PieceShown(image, file, size, at, tick, c + 1);
      }
    }
  }

  lemma NextPiece(image: Image, file: seq<byte>, size: nat, at: nat, count: nat, tick: nat, c: nat)
    requires at < size <= |file| && size < M32 && count == if CHUNK < size - at then CHUNK else size - at
    ensures PieceShown(image, file, size, at, tick, c + 1) <==> PieceShown(image, file, size, at + count, tick + 1, c)
  {
    hide Shows, ChunkOf;
    assert at + 1024 * (c + 1) == at + 1024 + 1024 * c;
    assert tick + (c + 1) == tick + 1 + c;
  }

  /** The k-th anchor is well placed and shown by its call. */
  ghost predicate AnchorShown(image: Image, l: PeLayout, a: ImageAnchor, tick: nat)
    requires a.Valid()
  {
    InSection(l, a) && Shows(image, tick, a.rva, a.bytes[..a.length])
  }

  lemma AnchorMeans(image: Image, l: PeLayout, a: ImageAnchor, tick: nat)
    requires a.Valid()
    ensures MappedAnchor(image, l, a, tick) == MatchedObservation <==> AnchorShown(image, l, a, tick)
  {
    InSectionIsValid(l, a);
    if ValidAnchor(a, l) { AnchorLength(a, l); }
    hide ValidAnchor, InSection;
  }

  /** All anchors, one call each from tick on. */
  ghost predicate AnchorsShown(image: Image, l: PeLayout, anchors: seq<ImageAnchor>, tick: nat)
    requires forall a :: a in anchors ==> a.Valid()
  {
    forall k :: 0 <= k < |anchors| ==> AnchorShown(image, l, anchors[k], tick + k)
  }

  lemma FirstShown(image: Image, l: PeLayout, anchors: seq<ImageAnchor>, tick: nat)
    requires anchors != [] && forall a :: a in anchors ==> a.Valid()
    ensures AnchorsShown(image, l, anchors, tick) <==>
              AnchorShown(image, l, anchors[0], tick) && AnchorsShown(image, l, anchors[1..], tick + 1)
  {
    hide AnchorShown;
    var rest := anchors[1..];
    if AnchorsShown(image, l, anchors, tick) {
      forall k | 0 <= k < |rest| ensures AnchorShown(image, l, rest[k], tick + 1 + k) {
        assert AnchorShown(image, l, anchors[k + 1], tick + (k + 1));
      }
    }
    if AnchorShown(image, l, anchors[0], tick) && AnchorsShown(image, l, rest, tick + 1) {
      forall k | 0 <= k < |anchors| ensures AnchorShown(image, l, anchors[k], tick + k) {
        if k > 0 { assert AnchorShown(image, l, rest[k - 1], tick + 1 + (k - 1)); }
      }
    }
  }

  lemma {:induction false} AnchorsMean(image: Image, l: PeLayout, anchors: seq<ImageAnchor>, tick: nat)
    requires forall a :: a in anchors ==> a.Valid()
    ensures MappedAnchors(image, l, anchors, tick) == MatchedObservation <==> AnchorsShown(image, l, anchors, tick)
  {
    if anchors != [] {
      AnchorMeans(image, l, anchors[0], tick);
      AnchorsMean(image, l, anchors[1..], tick + 1);
      FirstShown(image, l, anchors, tick);
      hide AnchorShown, AnchorsShown, MappedAnchor;
    }
  }

  /** A mapped match, on any image whatsoever, means the profile's own layout, every header
      chunk equal to the file's, and every anchor well placed and present. */
  lemma MappedMatchMeans(image: Image, file: seq<byte>, l: PeLayout, p: ObservedProfile)
    requires p.Valid()
    ensures MappedVerdict(image, file, l, p) == MatchedObservation <==>
              && l == p.layout && l.headers_size <= |file| && 1 <= |p.anchors| <= 32
              && HeadersShown(image, file, l.headers_size, 0, 0)
              && AnchorsShown(image, l, p.anchors, Chunks(l.headers_size, 0))
  {
    hide HeadersShown, AnchorsShown;
    if l.headers_size <= |file| { HeadersMeans(image, file, l.headers_size, 0, 0); }
    AnchorsMean(image, l, p.anchors, Chunks(l.headers_size, 0));
  }

  /** An anchor of 1 to 16 bytes in the raw part of the executable section it names. */
  predicate InSection(l: PeLayout, a: ImageAnchor) {
    && 1 <= l.section_count <= 96 && 1 <= a.length <= 16 && a.section_index < l.section_count
    && var s := l.sections[a.section_index];
       Bit(s.characteristics, 29) && s.rva <= a.rva && a.rva + a.length <= s.rva + s.raw_size
  }

  lemma InSectionIsValid(l: PeLayout, a: ImageAnchor)
    requires a.Valid()
    ensures ValidAnchor(a, l) <==> InSection(l, a)
  {
    hide Bit;
  }

  // ---- What a match means on any file ------------------------------------------------

  /** An anchor whose section alone holds it, with its bytes inside the file. */
  predicate InFileOnce(file: seq<byte>, l: PeLayout, a: ImageAnchor) {
    && InSection(l, a)
    && (forall j {:trigger l.sections[j]} :: 0 <= j < l.section_count && j != a.section_index ==>
          !(l.sections[j].rva <= a.rva && a.rva + a.length <= l.sections[j].rva + l.sections[j].raw_size))
    && FileAt(l, a) + a.length <= |file|
  }

  /** Where the file has the bytes of an anchor in a section. */
  function FileAt(l: PeLayout, a: ImageAnchor): nat
    requires InSection(l, a)
  {
    l.sections[a.section_index].raw_offset + (a.rva - l.sections[a.section_index].rva)
  }

  /** Such an anchor whose bytes the file shows. */
  predicate FileShows(file: seq<byte>, l: PeLayout, a: ImageAnchor)
    requires a.Valid()
  {
    InFileOnce(file, l, a) && file[FileAt(l, a)..FileAt(l, a) + a.length] == a.bytes[..a.length]
  }

  lemma OnceIsRaw(file: seq<byte>, l: PeLayout, a: ImageAnchor)
    requires a.Valid()
    ensures InFileOnce(file, l, a) <==>
              && ValidAnchor(a, l) && Raw(l, a.rva, a.length).Some?
              && Raw(l, a.rva, a.length).value + a.length <= |file|
    ensures InFileOnce(file, l, a) ==> Raw(l, a.rva, a.length) == Some(FileAt(l, a))
  {
    InSectionIsValid(l, a);
    if InSection(l, a) {
      assert Holds(l.sections[a.section_index], a.rva, a.length);
      if Raw(l, a.rva, a.length).Some? {
        var i: nat :| OnlyHolder(l, a.rva, a.length, i);
        assert i == a.section_index;
        RawIs(l, a.rva, a.length, i);
      }
      if InFileOnce(file, l, a) {
        assert OnlyHolder(l, a.rva, a.length, a.section_index);
        RawIs(l, a.rva, a.length, a.section_index);
      }
    }
    hide ValidAnchor, Raw, Bit;
  }

  /** One anchor against the file. */
  lemma FileAnchorMeans(file: seq<byte>, l: PeLayout, a: ImageAnchor)
    requires a.Valid()
    ensures FileAnchor(file, l, a) ==
              if !InFileOnce(file, l, a) then InvalidAnchor
              else if !FileShows(file, l, a) then AnchorMismatch else MatchedObservation
  {
    OnceIsRaw(file, l, a);
    hide ValidAnchor, Raw, InFileOnce, InSection;
  }

  /** The first anchor that the file does not show. */
  ghost predicate FirstHidden(file: seq<byte>, l: PeLayout, anchors: seq<ImageAnchor>, k: nat)
    requires forall a :: a in anchors ==> a.Valid()
  {
    && k < |anchors| && !FileShows(file, l, anchors[k])
    && forall i :: 0 <= i < k ==> FileShows(file, l, anchors[i])
  }

  lemma {:induction false} FileAnchorsMean(file: seq<byte>, l: PeLayout, anchors: seq<ImageAnchor>)
    requires forall a :: a in anchors ==> a.Valid()
    ensures FileAnchors(file, l, anchors) == MatchedObservation <==>
              forall k :: 0 <= k < |anchors| ==> FileShows(file, l, anchors[k])
    ensures FileAnchors(file, l, anchors) in {MatchedObservation, InvalidAnchor, AnchorMismatch}
    ensures forall k: nat :: FirstHidden(file, l, anchors, k) ==>
              FileAnchors(file, l, anchors) ==
              if InFileOnce(file, l, anchors[k]) then AnchorMismatch else InvalidAnchor
  {
    if anchors != [] {
      var rest := anchors[1..];
      FileAnchorMeans(file, l, anchors[0]);
      FileAnchorsMean(file, l, rest);
      hide FileShows, InFileOnce, FileAnchor;
      assert forall k :: 0 <= k < |rest| ==> rest[k] == anchors[k + 1];
      forall k: nat | FirstHidden(file, l, anchors, k)
        ensures FileAnchors(file, l, anchors) ==
                if InFileOnce(file, l, anchors[k]) then AnchorMismatch else InvalidAnchor
      {
        if k > 0 { assert FirstHidden(file, l, rest, k - 1); }
      }
      if forall k :: 0 <= k < |rest| ==> FileShows(file, l, rest[k]) {
        forall k | 0 <= k < |anchors| && FileShows(file, l, anchors[0]) ensures FileShows(file, l, anchors[k]) {
          if k > 0 { assert FileShows(file, l, rest[k - 1]); }
        }
      }
    }
  }

  /** A file match, on any layout: the profile's own size, hash and layout, 1 to 32 anchors,
      and the file shows them all. */
  lemma FileMatchMeans(file: seq<byte>, hash: Sha256, l: PeLayout, p: ObservedProfile)
    requires p.Valid()
    ensures FileVerdict(file, hash, l, p) == MatchedObservation <==>
              && |file| == p.file_bytes && hash == p.sha256 && l == p.layout && 1 <= |p.anchors| <= 32
              && forall k :: 0 <= k < |p.anchors| ==> FileShows(file, l, p.anchors[k])
  {
    FileAnchorsMean(file, l, p.anchors);
    hide FileShows, FileAnchors;
  }

  /** A refusal names the first thing that differs. */
  lemma FileRefusalTellsWhy(file: seq<byte>, hash: Sha256, l: PeLayout, p: ObservedProfile, k: nat)
    requires p.Valid()
    ensures |file| != p.file_bytes || hash != p.sha256 <==> FileVerdict(file, hash, l, p) == UnknownFingerprint
    ensures |file| == p.file_bytes && hash == p.sha256 ==>
              && (l != p.layout <==> FileVerdict(file, hash, l, p) == LayoutMismatch)
              && (l == p.layout && !(1 <= |p.anchors| <= 32) ==> FileVerdict(file, hash, l, p) == InvalidAnchor)
              && (l == p.layout && 1 <= |p.anchors| <= 32 && FirstHidden(file, l, p.anchors, k) ==>
                    FileVerdict(file, hash, l, p) ==
                    if InFileOnce(file, l, p.anchors[k]) then AnchorMismatch else InvalidAnchor)
  {
    FileAnchorsMean(file, l, p.anchors);
    hide FileShows, FileAnchors, InFileOnce;
  }

  // ---- What a mapped refusal means ---------------------------------------------------

  /** The first piece of the headers that its call does not show. */
  ghost predicate FirstPiece(image: Image, file: seq<byte>, size: nat, at: nat, tick: nat, c: nat)
    requires size <= |file| && size < M32
  {
    !PieceShown(image, file, size, at, tick, c) && forall d: nat :: d < c ==> PieceShown(image, file, size, at, tick, d)
  }

  lemma NextFirst(image: Image, file: seq<byte>, size: nat, at: nat, tick: nat, c: nat)
    requires at <= size <= |file| && size < M32 && c > 0 && FirstPiece(image, file, size, at, tick, c)
    ensures at + 1024 * c < size && FirstPiece(image, file, size, at + 1024, tick + 1, c - 1)
    ensures Shows(image, tick, at, ChunkOf(file, size, at))
  {
    hide Shows, ChunkOf;
    assert PieceShown(image, file, size, at, tick, 0);
    NextPiece(image, file, size, at, 1024, tick, c - 1);
    var next, call := at + 1024, tick + 1;
    forall d: nat | d < c - 1 ensures PieceShown(image, file, size, next, call, d) {
      NextPiece(image, file, size, at, 1024, tick, d);
      assert PieceShown(image, file, size, at, tick, d + 1);
    }
  }

  lemma HeadersSkip(image: Image, file: seq<byte>, size: nat, at: nat, tick: nat)
    requires at + 1024 < size <= |file| && size < M32 && Shows(image, tick, at, ChunkOf(file, size, at))
    ensures Headers(image, file, size, at, tick) == Headers(image, file, size, at + 1024, tick + 1)
  {}

  lemma {:induction false} HeadersTellWhy(image: Image, file: seq<byte>, size: nat, at: nat, tick: nat, c: nat)
    requires at <= size <= |file| && size < M32 && FirstPiece(image, file, size, at, tick, c)
    ensures at + 1024 * c < size
    ensures Headers(image, file, size, at, tick) ==
              if image.copy(tick + c, at + 1024 * c, |ChunkOf(file, size, at + 1024 * c)|).None?
              then UnreadableImage else LayoutMismatch
    decreases c
  {
    if c == 0 {
      assert at < size && |ChunkOf(file, size, at)| == if CHUNK < size - at then CHUNK else size - at;
    } else {
      NextFirst(image, file, size, at, tick, c);
      HeadersSkip(image, file, size, at, tick);
      HeadersTellWhy(image, file, size, at + 1024, tick + 1, c - 1);
      assert at + 1024 + 1024 * (c - 1) == at + 1024 * c && tick + 1 + (c - 1) == tick + c;
      hide Headers, FirstPiece, ChunkOf;
    }
  }

  ghost predicate FirstUnshown(image: Image, l: PeLayout, anchors: seq<ImageAnchor>, tick: nat, k: nat)
    requires forall a :: a in anchors ==> a.Valid()
  {
    && k < |anchors| && !AnchorShown(image, l, anchors[k], tick + k)
    && forall i :: 0 <= i < k ==> AnchorShown(image, l, anchors[i], tick + i)
  }

  lemma {:induction false} AnchorsTellWhy(image: Image, l: PeLayout, anchors: seq<ImageAnchor>, tick: nat, k: nat)
    requires forall a :: a in anchors ==> a.Valid()
    requires FirstUnshown(image, l, anchors, tick, k)
    ensures MappedAnchors(image, l, anchors, tick) ==
              var a := anchors[k];
              if !InSection(l, a) then InvalidAnchor
              else if image.copy(tick + k, a.rva, a.length).None? then UnreadableImage else AnchorMismatch
    decreases k
  {
    AnchorMeans(image, l, anchors[0], tick);
    InSectionIsValid(l, anchors[0]);
    if k > 0 {
      var rest := anchors[1..];
      assert AnchorShown(image, l, anchors[0], tick + 0);
      forall i | 0 <= i < k - 1 ensures AnchorShown(image, l, rest[i], tick + 1 + i) {
        assert AnchorShown(image, l, anchors[i + 1], tick + (i + 1));
      }
      assert tick + 1 + (k - 1) == tick + k;
      AnchorsTellWhy(image, l, rest, tick + 1, k - 1);
    }
    hide ValidAnchor, InSection;
  }

  /** On any image the first thing that differs, in the order of the reads, is named. */
  lemma MappedRefusalTellsWhy(image: Image, file: seq<byte>, l: PeLayout, p: ObservedProfile, c: nat, k: nat)
    requires p.Valid()
    ensures l != p.layout || l.headers_size > |file| ==> MappedVerdict(image, file, l, p) == LayoutMismatch
    ensures l == p.layout && l.headers_size <= |file| && FirstPiece(image, file, l.headers_size, 0, 0, c) ==>
              MappedVerdict(image, file, l, p) ==
              if image.copy(c, 1024 * c, |ChunkOf(file, l.headers_size, 1024 * c)|).None?
              then UnreadableImage else LayoutMismatch
    ensures l == p.layout && l.headers_size <= |file| && HeadersShown(image, file, l.headers_size, 0, 0) ==>
              && (!(1 <= |p.anchors| <= 32) ==> MappedVerdict(image, file, l, p) == InvalidAnchor)
              && (1 <= |p.anchors| <= 32 && FirstUnshown(image, l, p.anchors, Chunks(l.headers_size, 0), k) ==>
                    MappedVerdict(image, file, l, p) ==
                    var a := p.anchors[k];
                    if !InSection(l, a) then InvalidAnchor
                    else if image.copy(Chunks(l.headers_size, 0) + k, a.rva, a.length).None? then UnreadableImage
                    else AnchorMismatch)
  {
    if l.headers_size <= |file| {
      HeadersMeans(image, file, l.headers_size, 0, 0);
      if FirstPiece(image, file, l.headers_size, 0, 0, c) {
        HeadersTellWhy(image, file, l.headers_size, 0, 0, c);
      }
    }
    if FirstUnshown(image, l, p.anchors, Chunks(l.headers_size, 0), k) {
      AnchorsTellWhy(image, l, p.anchors, Chunks(l.headers_size, 0), k);
    }
    hide Headers, HeadersShown, MappedAnchors, InSection, ChunkOf;
  }
}
