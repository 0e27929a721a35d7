// The code of the aligned allocation from the entry of the routine down to the heap
// API: the routine's head, malloc, its new-handler variant, and the heap function.

module CdStreamCode {
  import opened Words
  import opened X86
  import opened X86Rules
  import opened FrameTarget
  import opened CwdSeh
  import FileManagerCode
  import opened CdStreamAllocation

  /** Absolute addresses in the image whose SEH prologue seh describes. */
  datatype AllocationSite = AllocationSite(seh: CwdSehSpec, aligned: u32, malloc: u32, nh: u32, heap: u32, scope: u32,
                                           newMode: u32, threshold: u32, handle: u32, heapMode: u32, iat: u32,
                                           epilogue: u32)

  predicate InImage(l: AllocationSite, p: u32, n: nat) {
    var base, size := l.seh.wrapper.image_base, l.seh.wrapper.image_size;
    base + 4096 <= p && p + n <= base + size
  }

  /** The spans of cd_stream_allocation_code inside the image, and the pairs of them that a
      call joins without a common byte. */
  predicate ValidAllocation(l: AllocationSite) {
    && ValidSeh(l.seh)
    && InImage(l, l.aligned, 35) && InImage(l, l.malloc, 18) && InImage(l, l.nh, 44) && InImage(l, l.heap, 111)
    && InImage(l, l.scope, 12) && InImage(l, l.newMode, 4) && InImage(l, l.threshold, 4) && InImage(l, l.handle, 4)
    && InImage(l, l.heapMode, 4) && InImage(l, l.iat, 4) && InImage(l, l.epilogue, 17)
    && Apart(l.nh, 44, l.heap, 111) && Apart(l.heap, 111, Prologue(l.seh), 59)
  }

  /** None of the code wraps around. */
  predicate Placed(l: AllocationSite) {
    l.aligned <= U32_MAX - 35 && l.malloc <= U32_MAX - 18 && l.nh <= U32_MAX - 44 && l.heap <= U32_MAX - 111
  }

  lemma IsPlaced(l: AllocationSite)
    requires ValidAllocation(l)
    ensures Placed(l)
  {}

  function CallOf(at: u32, target: u32): seq<byte> { FileManagerCode.CallText(Wrap(target - (at + 5))) }

  /** The heap function's use of the prologue: called by the new-handler variant, with a
      scope of its own. */
  function HeapSeh(l: AllocationSite): CwdSehSpec
    requires ValidAllocation(l)
  {
    var w := l.seh.wrapper;
    l.seh.(wrapper := w.(call_rva := l.nh + 11 - w.image_base, target_rva := l.heap - w.image_base,
                         call := CallOf(l.nh + 11, l.heap)),
           prologue := l.seh.prologue.(call_rva := l.heap + 7 - w.image_base,
                                       call := CallOf(l.heap + 7, Prologue(l.seh))),
           scope_rva := l.scope - w.image_base)
  }

  lemma CallOfHits(at: u32, target: u32)
    requires at < 0x8000_0000 + target && target < 0x8000_0000 + at && at + 5 <= U32_MAX
    requires -0x8000_0000 <= target - (at + 5)
    ensures var c := CallOf(at, target);
            |c| == 5 && c[0] == 0xe8 && at + 5 + Signed32(Join(c[1], c[2], c[3], c[4])) == target
  {
    hide ByteOf;
    var rel := Wrap(target - (at + 5));
    JoinBytes(rel);
    var c := CallOf(at, target);
    assert c[1] == ByteOf(rel, 0) && c[2] == ByteOf(rel, 1) && c[3] == ByteOf(rel, 2) && c[4] == ByteOf(rel, 3);
  }

  lemma HeapSehIsValid(l: AllocationSite)
    requires ValidAllocation(l)
    ensures ValidSeh(HeapSeh(l)) && Site(HeapSeh(l)) == l.nh + 11 && Wrapper(HeapSeh(l)) == l.heap
    ensures Prologue(HeapSeh(l)) == Prologue(l.seh) && Scope(HeapSeh(l)) == l.scope
    ensures Handler(HeapSeh(l)) == Handler(l.seh)
    ensures OuterReturn(HeapSeh(l)) == l.nh + 16 && PrologueReturn(HeapSeh(l)) == l.heap + 12
  {
    HeapSehAccepted(l);
    hide CallOf, ValidFrameTarget, InImage, Apart;
  }

  lemma HeapSehAccepted(l: AllocationSite)
    requires ValidAllocation(l)
    ensures ValidSeh(HeapSeh(l))
  {
    HeapCallAccepted(l);
    PrologueCallAccepted(l);
    hide CallOf, ValidFrameTarget, Apart;
  }

  lemma HeapCallAccepted(l: AllocationSite)
    requires ValidAllocation(l)
    ensures ValidFrameTarget(HeapSeh(l).wrapper)
  {
    CallSiteIsValid(l.seh.wrapper, l.nh + 11, l.heap);
    hide CallOf, ValidFrameTarget;
  }

  lemma PrologueCallAccepted(l: AllocationSite)
    requires ValidAllocation(l)
    ensures ValidFrameTarget(HeapSeh(l).prologue)
  {
    CallSiteIsValid(l.seh.prologue, l.heap + 7, Prologue(l.seh));
    hide CallOf, ValidFrameTarget;
  }

  lemma CallSiteIsValid(f: FrameTargetSpec, at: u32, target: u32)
    requires ValidFrameTarget(f) && f.image_base + 4096 <= at && at + 5 <= f.image_base + f.image_size
    requires f.image_base + 4096 <= target && target + 16 <= f.image_base + f.image_size && Apart(at, 5, target, 16)
    ensures ValidFrameTarget(f.(call_rva := at - f.image_base, target_rva := target - f.image_base,
                                call := CallOf(at, target)))
  {
    CallOfHits(at, target);
    hide CallOf, Join, Signed32;
  }

  // ---- cd_stream_allocation_code -------------------------------------------

  const ALIGN_HEAD: seq<byte> := [0x8b, 0x44, 0x24, 0x04, 0x56, 0x8b, 0x74, 0x24, 0x0c, 0x03, 0xc6, 0x50]

  function AlignedBytes(l: AllocationSite): seq<byte> requires ValidAllocation(l) {
    ALIGN_HEAD + CallOf(l.aligned + 12, l.malloc) + ALIGN_TAIL + ALIGN_END
  }

  const PUSH_SIZE: seq<byte> := [0xff, 0x74, 0x24, 0x08]

  const MALLOC_END: seq<byte> := [0x59, 0x59, 0xc3]

  function MallocBytes(l: AllocationSite): seq<byte> requires ValidAllocation(l) {
    ([0xff, 0x35] + Bytes(l.newMode)) + PUSH_SIZE + CallOf(l.malloc + 10, l.nh) + MALLOC_END
  }

  const NH_HEAD: seq<byte> := [0x83, 0x7c, 0x24, 0x04, 0xe0, 0x77, 0x22, 0xff, 0x74, 0x24, 0x04]

  const NH_END: seq<byte> := [0x85, 0xc0, 0x59, 0x75, 0x16]

  function NhBytes(l: AllocationSite): seq<byte> requires ValidAllocation(l) {
    NH_HEAD + CallOf(l.nh + 11, l.heap) + NH_END
  }

  function CompareMode(l: AllocationSite, mode: byte): seq<byte> { [0x83, 0x3d] + Bytes(l.heapMode) + [mode] }

  function HeapEntryBytes(l: AllocationSite): seq<byte> requires ValidAllocation(l) {
    WrapperBytes(HeapSehOf(l)) + CallOf(l.heap + 7, Prologue(l.seh)) + [0x8b, 0x75, 0x08] + CompareMode(l, 3) +
    [0x75, 0x2e] + ([0x3b, 0x35] + Bytes(l.threshold)) + [0x77, 0x26]
  }

  /** HeapSeh, known to be valid. */
  function HeapSehOf(l: AllocationSite): (c: CwdSehSpec)
    requires ValidAllocation(l)
    ensures ValidSeh(c) && c == HeapSeh(l)
  {
    HeapSehIsValid(l);
    HeapSeh(l)
  }

  const TEST_SIZE: seq<byte> := [0x85, 0xf6, 0x75, 0x01, 0x46]

  const ROUND_SIZE: seq<byte> := [0x74, 0x06, 0x83, 0xc6, 0x0f, 0x83, 0xe6, 0xf0, 0x56, 0x6a, 0x00]

  function HeapTailBytes(l: AllocationSite): seq<byte> requires ValidAllocation(l) {
    TEST_SIZE + CompareMode(l, 1) + ROUND_SIZE + ([0xff, 0x35] + Bytes(l.handle)) + ([0xff, 0x15] + Bytes(l.iat)) +
    CallOf(l.heap + 105, l.epilogue) + [0xc3]
  }

  const EPILOGUE: seq<byte> := [0x8b, 0x4d, 0xf0] + FileManagerCode.RESTORE_HEAD + FileManagerCode.EPILOGUE_POPS

  /** All of it at its addresses. */
  ghost predicate AllocationLoaded(code: Code, l: AllocationSite) requires ValidAllocation(l) {
    && Loaded(code, l.aligned, AlignedBytes(l)) && Loaded(code, l.malloc, MallocBytes(l))
    && Loaded(code, l.nh, NhBytes(l)) && Loaded(code, l.nh + 43, [0xc3])
    && Loaded(code, l.heap, HeapEntryBytes(l)) && Loaded(code, l.heap + 70, HeapTailBytes(l))
    && Loaded(code, Prologue(l.seh), PrologueBytes(l.seh)) && Loaded(code, l.epilogue, EPILOGUE)
  }

  // ---- Disassembly ----------------------------------------------------------

  function Absolute(v: u32): Addr { Addr(false, NoReg, NoReg, 1, Signed32(v)) }

  lemma AbsoluteIs(s: Cpu, v: u32)
    ensures Effective(s, Absolute(v)) == v
  {}

  ghost predicate AlignedListed(prog: Program, l: AllocationSite) {
    && Lists(prog, l.aligned, Mov(R32(EAX), Mem32(Based(ESP, 4))), 4)
    && Lists(prog, l.aligned + 4, Push(R32(ESI)), 1)
    && Lists(prog, l.aligned + 5, Mov(R32(ESI), Mem32(Based(ESP, 12))), 4)
    && Lists(prog, l.aligned + 9, Arith(ADD, R32(EAX), R32(ESI)), 2)
    && Lists(prog, l.aligned + 11, Push(R32(EAX)), 1)
    && Calls(prog, l.aligned + 12, l.malloc)
  }

  ghost predicate MallocListed(prog: Program, l: AllocationSite) {
    && Lists(prog, l.malloc, Push(Mem32(Absolute(l.newMode))), 6)
    && Lists(prog, l.malloc + 6, Push(Mem32(Based(ESP, 8))), 4)
    && Calls(prog, l.malloc + 10, l.nh)
    && Lists(prog, l.malloc + 15, Pop(ECX), 1)
    && Lists(prog, l.malloc + 16, Pop(ECX), 1)
    && Lists(prog, l.malloc + 17, Ret, 1)
  }

  ghost predicate NhListed(prog: Program, l: AllocationSite) {
    && Lists(prog, l.nh, Arith(CMP, Mem32(Based(ESP, 4)), Imm(0xffff_ffe0)), 5)
    && Lists(prog, l.nh + 5, Jcc(Above, 34), 2)
    && Lists(prog, l.nh + 7, Push(Mem32(Based(ESP, 4))), 4)
    && Calls(prog, l.nh + 11, l.heap)
    && Lists(prog, l.nh + 16, Arith(TEST, R32(EAX), R32(EAX)), 2)
    && Lists(prog, l.nh + 18, Pop(ECX), 1)
    && Lists(prog, l.nh + 19, Jcc(NotEqual, 22), 2)
    && Lists(prog, l.nh + 43, Ret, 1)
  }

  predicate HeapEntryListed(prog: Program, l: AllocationSite) {
    && Lists(prog, l.heap + 12, Mov(R32(ESI), Mem32(Based(EBP, 8))), 3)
    && Lists(prog, l.heap + 15, Arith(CMP, Mem32(Absolute(l.heapMode)), Imm(3)), 7)
    && Lists(prog, l.heap + 22, Jcc(NotEqual, 46), 2)
    && Lists(prog, l.heap + 24, Arith(CMP, R32(ESI), Mem32(Absolute(l.threshold))), 6)
    && Lists(prog, l.heap + 30, Jcc(Above, 38), 2)
  }

  predicate HeapRoundListed(prog: Program, l: AllocationSite) {
    && Lists(prog, l.heap + 70, Arith(TEST, R32(ESI), R32(ESI)), 2)
    && Lists(prog, l.heap + 72, Jcc(NotEqual, 1), 2)
    && Lists(prog, l.heap + 75, Arith(CMP, Mem32(Absolute(l.heapMode)), Imm(1)), 7)
    && Lists(prog, l.heap + 82, Jcc(Equal, 6), 2)
    && Lists(prog, l.heap + 84, Arith(ADD, R32(ESI), Imm(15)), 3)
    && Lists(prog, l.heap + 87, Arith(AND, R32(ESI), Imm(0xffff_fff0)), 3)
  }

  ghost predicate HeapCallListed(prog: Program, l: AllocationSite) {
    && Lists(prog, l.heap + 90, Push(R32(ESI)), 1)
    && Lists(prog, l.heap + 91, Push(Imm(0)), 2)
    && Lists(prog, l.heap + 93, Push(Mem32(Absolute(l.handle))), 6)
    && Lists(prog, l.heap + 99, CallTo(Mem32(Absolute(l.iat))), 6)
    && Calls(prog, l.heap + 105, l.epilogue)
    && Lists(prog, l.heap + 110, Ret, 1)
  }

  lemma CallDecodes(code: Code, at: u32, target: u32)
    requires at + 5 <= U32_MAX && Loaded(code, at, CallOf(at, target))
    ensures Calls(Disassembly(code), at, target)
  {
    hide Loaded, Disassembly;
    var rel := Wrap(target - (at + 5));
    FileManagerCode.CallTextDecodes(code, at, rel);
    DisplacementLands(at, target);
    assert Lists(Disassembly(code), at, Call(Signed32(rel)), 5);
  }

  lemma DisplacementLands(at: u32, target: u32)
    requires at + 5 <= U32_MAX
    ensures Wrap(Wrap(at + 5) + Signed32(Wrap(target - (at + 5)))) == target
  {}

  /** The four forms with an absolute address. */
  lemma AbsoluteDecodes(code: Code, p: int, op: byte, modrm: byte, v: u32)
    requires Loaded(code, p, [op, modrm] + Bytes(v))
    ensures p in code && At(code, p) == op && At(code, p + 1) == modrm && Word(code, p + 2) == v
  {
    hide ByteOf, Loaded, At;
    var text: seq<byte> := [op, modrm] + Bytes(v);
    JoinBytes(v);
    ByteLoaded(code, p, text, 0); ByteLoaded(code, p, text, 1); ByteLoaded(code, p, text, 2);
    ByteLoaded(code, p, text, 3); ByteLoaded(code, p, text, 4); ByteLoaded(code, p, text, 5);
    assert text[2] == ByteOf(v, 0) && text[3] == ByteOf(v, 1) && text[4] == ByteOf(v, 2) && text[5] == ByteOf(v, 3);
  }

  lemma AbsoluteForms(code: Code, p: int, v: u32)
    requires p in code && Word(code, p + 2) == v
    ensures At(code, p) == 0xff && At(code, p + 1) == 0x35 ==>
              Lists(Disassembly(code), p, Push(Mem32(Absolute(v))), 6)
    ensures At(code, p) == 0xff && At(code, p + 1) == 0x15 ==>
              Lists(Disassembly(code), p, CallTo(Mem32(Absolute(v))), 6)
    ensures At(code, p) == 0x3b && At(code, p + 1) == 0x35 ==>
              Lists(Disassembly(code), p, Arith(CMP, R32(ESI), Mem32(Absolute(v))), 6)
  {
    hide At, Word, Decode;
    AbsoluteModRm(code, p + 1, v);
    PushForm(code, p, v);
    CallForm(code, p, v);
    CompareForm(code, p, v);
  }

  lemma PushAbsoluteDecodes(code: Code, p: int, v: u32)
    requires Loaded(code, p, [0xff, 0x35] + Bytes(v))
    ensures Lists(Disassembly(code), p, Push(Mem32(Absolute(v))), 6)
  {
    hide At, Word, Disassembly, Lists;
    AbsoluteDecodes(code, p, 0xff, 0x35, v);
    AbsoluteForms(code, p, v);
  }

  lemma CallAbsoluteDecodes(code: Code, p: int, v: u32)
    requires Loaded(code, p, [0xff, 0x15] + Bytes(v))
    ensures Lists(Disassembly(code), p, CallTo(Mem32(Absolute(v))), 6)
  {
    hide At, Word, Disassembly, Lists;
    AbsoluteDecodes(code, p, 0xff, 0x15, v);
    AbsoluteForms(code, p, v);
  }

  lemma CompareAbsoluteDecodes(code: Code, p: int, v: u32)
    requires Loaded(code, p, [0x3b, 0x35] + Bytes(v))
    ensures Lists(Disassembly(code), p, Arith(CMP, R32(ESI), Mem32(Absolute(v))), 6)
  {
    hide At, Word, Disassembly, Lists;
    AbsoluteDecodes(code, p, 0x3b, 0x35, v);
    AbsoluteForms(code, p, v);
  }

  lemma AbsoluteModRm(code: Code, p: int, v: u32)
    requires Word(code, p + 1) == v
    ensures At(code, p) == 0x35 ==> DecodeModRm(code, p, false) == ModRm(6, RmMem(Absolute(v)), 5)
    ensures At(code, p) == 0x15 ==> DecodeModRm(code, p, false) == ModRm(2, RmMem(Absolute(v)), 5)
    ensures At(code, p) == 0x3d ==> DecodeModRm(code, p, false) == ModRm(7, RmMem(Absolute(v)), 5)
  {
    hide At, Word;
  }

  lemma PushForm(code: Code, p: int, v: u32)
    requires At(code, p) == 0xff && At(code, p + 1) == 0x35 ==>
               DecodeModRm(code, p + 1, false) == ModRm(6, RmMem(Absolute(v)), 5)
    ensures At(code, p) == 0xff && At(code, p + 1) == 0x35 ==>
              Decode(code, p) == Some(Fetched(Push(Mem32(Absolute(v))), 6))
  {
    hide At, Word, DecodeModRm;
  }

  lemma CallForm(code: Code, p: int, v: u32)
    requires At(code, p) == 0xff && At(code, p + 1) == 0x15 ==>
               DecodeModRm(code, p + 1, false) == ModRm(2, RmMem(Absolute(v)), 5)
    ensures At(code, p) == 0xff && At(code, p + 1) == 0x15 ==>
              Decode(code, p) == Some(Fetched(CallTo(Mem32(Absolute(v))), 6))
  {
    hide At, Word, DecodeModRm;
  }

  lemma CompareForm(code: Code, p: int, v: u32)
    requires At(code, p) == 0x3b && At(code, p + 1) == 0x35 ==>
               DecodeModRm(code, p + 1, false) == ModRm(6, RmMem(Absolute(v)), 5)
    ensures At(code, p) == 0x3b && At(code, p + 1) == 0x35 ==>
              Decode(code, p) == Some(Fetched(Arith(CMP, R32(ESI), Mem32(Absolute(v))), 6))
  {
    hide At, Word, DecodeModRm;
  }

  lemma CompareModeDecodes(code: Code, p: int, l: AllocationSite, mode: byte)
    requires mode < 128 && Loaded(code, p, CompareMode(l, mode))
    ensures Lists(Disassembly(code), p, Arith(CMP, Mem32(Absolute(l.heapMode)), Imm(mode)), 7)
  {
    hide At, Word, Decode;
    LoadedParts(code, p, [0x83, 0x3d] + Bytes(l.heapMode), [mode]);
    AbsoluteDecodes(code, p, 0x83, 0x3d, l.heapMode);
    ByteLoaded(code, p + 6, [mode], 0);
    AbsoluteModRm(code, p + 1, l.heapMode);
    ModeForm(code, p, l.heapMode, mode);
  }

  lemma ModeForm(code: Code, p: int, v: u32, mode: byte)
    requires At(code, p) == 0x83 && DecodeModRm(code, p + 1, false) == ModRm(7, RmMem(Absolute(v)), 5)
    requires mode < 128 && At(code, p + 6) == mode
    ensures Decode(code, p) == Some(Fetched(Arith(CMP, Mem32(Absolute(v)), Imm(mode)), 7))
  {
    hide At, Word, DecodeModRm;
  }

  lemma AlignHeadDecodes(code: Code, p: int)
    requires Loaded(code, p, ALIGN_HEAD)
    ensures Lists(Disassembly(code), p, Mov(R32(EAX), Mem32(Based(ESP, 4))), 4)
    ensures Lists(Disassembly(code), p + 4, Push(R32(ESI)), 1)
    ensures Lists(Disassembly(code), p + 5, Mov(R32(ESI), Mem32(Based(ESP, 12))), 4)
    ensures Lists(Disassembly(code), p + 9, Arith(ADD, R32(EAX), R32(ESI)), 2)
    ensures Lists(Disassembly(code), p + 11, Push(R32(EAX)), 1)
  {
    assert Decode(code, p) == Some(Fetched(Mov(R32(EAX), Mem32(Based(ESP, 4))), 4));
    assert Decode(code, p + 4) == Some(Fetched(Push(R32(ESI)), 1));
    assert Decode(code, p + 5) == Some(Fetched(Mov(R32(ESI), Mem32(Based(ESP, 12))), 4));
    assert Decode(code, p + 9) == Some(Fetched(Arith(ADD, R32(EAX), R32(ESI)), 2));
    assert Decode(code, p + 11) == Some(Fetched(Push(R32(EAX)), 1));
  }

  lemma AlignedDecodes(code: Code, l: AllocationSite)
    requires ValidAllocation(l) && Loaded(code, l.aligned, AlignedBytes(l))
    ensures AlignedListed(Disassembly(code), l)
    ensures Loaded(code, l.aligned + 17, ALIGN_TAIL) && Loaded(code, l.aligned + 28, ALIGN_END)
  {
    hide Loaded, Disassembly, CallOf;
    CallIsFive(l.aligned + 12, l.malloc);
    var b := CallOf(l.aligned + 12, l.malloc);
    LoadedParts(code, l.aligned, ALIGN_HEAD + b + ALIGN_TAIL, ALIGN_END);
    LoadedParts(code, l.aligned, ALIGN_HEAD + b, ALIGN_TAIL);
    LoadedParts(code, l.aligned, ALIGN_HEAD, b);
    AlignHeadDecodes(code, l.aligned);
    CallDecodes(code, l.aligned + 12, l.malloc);
  }

  lemma CallIsFive(at: u32, target: u32)
    ensures |CallOf(at, target)| == 5
  {}

  lemma MallocEndsDecode(code: Code, p: int)
    requires Loaded(code, p + 6, PUSH_SIZE) && Loaded(code, p + 15, MALLOC_END)
    ensures Lists(Disassembly(code), p + 6, Push(Mem32(Based(ESP, 8))), 4)
    ensures Lists(Disassembly(code), p + 15, Pop(ECX), 1) && Lists(Disassembly(code), p + 16, Pop(ECX), 1)
    ensures Lists(Disassembly(code), p + 17, Ret, 1)
  {
    assert Decode(code, p + 6) == Some(Fetched(Push(Mem32(Based(ESP, 8))), 4));
    assert Decode(code, p + 15) == Some(Fetched(Pop(ECX), 1));
    assert Decode(code, p + 16) == Some(Fetched(Pop(ECX), 1));
    assert Decode(code, p + 17) == Some(Fetched(Ret, 1));
  }

  lemma MallocDecodes(code: Code, l: AllocationSite)
    requires ValidAllocation(l) && Loaded(code, l.malloc, MallocBytes(l))
    ensures MallocListed(Disassembly(code), l)
  {
    hide Loaded, Disassembly, CallOf, At, Word;
    CallIsFive(l.malloc + 10, l.nh);
    var a := [0xff, 0x35] + Bytes(l.newMode);
    var b := CallOf(l.malloc + 10, l.nh);
    LoadedParts(code, l.malloc, a + PUSH_SIZE + b, MALLOC_END);
    LoadedParts(code, l.malloc, a + PUSH_SIZE, b);
    LoadedParts(code, l.malloc, a, PUSH_SIZE);
    PushAbsoluteDecodes(code, l.malloc, l.newMode);
    MallocEndsDecode(code, l.malloc);
    CallDecodes(code, l.malloc + 10, l.nh);
  }

  lemma NhHeadDecodes(code: Code, p: int)
    requires Loaded(code, p, NH_HEAD)
    ensures Lists(Disassembly(code), p, Arith(CMP, Mem32(Based(ESP, 4)), Imm(0xffff_ffe0)), 5)
    ensures Lists(Disassembly(code), p + 5, Jcc(Above, 34), 2)
    ensures Lists(Disassembly(code), p + 7, Push(Mem32(Based(ESP, 4))), 4)
  {
    assert Decode(code, p) == Some(Fetched(Arith(CMP, Mem32(Based(ESP, 4)), Imm(0xffff_ffe0)), 5));
    assert Decode(code, p + 5) == Some(Fetched(Jcc(Above, 34), 2));
    assert Decode(code, p + 7) == Some(Fetched(Push(Mem32(Based(ESP, 4))), 4));
  }

  lemma NhEndDecodes(code: Code, p: int)
    requires Loaded(code, p, NH_END)
    ensures Lists(Disassembly(code), p, Arith(TEST, R32(EAX), R32(EAX)), 2)
    ensures Lists(Disassembly(code), p + 2, Pop(ECX), 1) && Lists(Disassembly(code), p + 3, Jcc(NotEqual, 22), 2)
  {
    assert Decode(code, p) == Some(Fetched(Arith(TEST, R32(EAX), R32(EAX)), 2));
    assert Decode(code, p + 2) == Some(Fetched(Pop(ECX), 1));
    assert Decode(code, p + 3) == Some(Fetched(Jcc(NotEqual, 22), 2));
  }

  lemma NhDecodes(code: Code, l: AllocationSite)
    requires ValidAllocation(l) && Loaded(code, l.nh, NhBytes(l)) && Loaded(code, l.nh + 43, [0xc3])
    ensures NhListed(Disassembly(code), l)
  {
    hide Loaded, Disassembly, CallOf, At;
    CallIsFive(l.nh + 11, l.heap);
    var b := CallOf(l.nh + 11, l.heap);
    LoadedParts(code, l.nh, NH_HEAD + b, NH_END);
    LoadedParts(code, l.nh, NH_HEAD, b);
    NhHeadDecodes(code, l.nh);
    CallDecodes(code, l.nh + 11, l.heap);
    NhEndDecodes(code, l.nh + 16);
    ByteLoaded(code, l.nh + 43, [0xc3], 0);
    RetDecodes(code, l.nh + 43);
  }

  lemma BranchesDecode(code: Code, p: int)
    requires Loaded(code, p + 12, [0x8b, 0x75, 0x08]) && Loaded(code, p + 22, [0x75, 0x2e])
    requires Loaded(code, p + 30, [0x77, 0x26])
    ensures Lists(Disassembly(code), p + 12, Mov(R32(ESI), Mem32(Based(EBP, 8))), 3)
    ensures Lists(Disassembly(code), p + 22, Jcc(NotEqual, 46), 2)
    ensures Lists(Disassembly(code), p + 30, Jcc(Above, 38), 2)
  {
    assert Decode(code, p + 12) == Some(Fetched(Mov(R32(ESI), Mem32(Based(EBP, 8))), 3));
    assert Decode(code, p + 22) == Some(Fetched(Jcc(NotEqual, 46), 2));
    assert Decode(code, p + 30) == Some(Fetched(Jcc(Above, 38), 2));
  }

  lemma HeapEntryParts(code: Code, l: AllocationSite)
    requires ValidAllocation(l) && Loaded(code, l.heap, HeapEntryBytes(l))
    ensures Loaded(code, l.heap, WrapperBytes(HeapSehOf(l)))
    ensures Loaded(code, l.heap + 7, CallOf(l.heap + 7, Prologue(l.seh)))
    ensures Loaded(code, l.heap + 12, [0x8b, 0x75, 0x08]) && Loaded(code, l.heap + 15, CompareMode(l, 3))
    ensures Loaded(code, l.heap + 22, [0x75, 0x2e]) && Loaded(code, l.heap + 24, [0x3b, 0x35] + Bytes(l.threshold))
    ensures Loaded(code, l.heap + 30, [0x77, 0x26])
  {
    hide Loaded, CallOf, HeapSeh;
    CallIsFive(l.heap + 7, Prologue(l.seh));
    var a := WrapperBytes(HeapSehOf(l));
    var b := CallOf(l.heap + 7, Prologue(l.seh));
    var load: seq<byte> := [0x8b, 0x75, 0x08];
    var d := CompareMode(l, 3);
    var e := [0x3b, 0x35] + Bytes(l.threshold);
    LoadedParts(code, l.heap, a + b + load + d + [0x75, 0x2e] + e, [0x77, 0x26]);
    LoadedParts(code, l.heap, a + b + load + d + [0x75, 0x2e], e);
    LoadedParts(code, l.heap, a + b + load + d, [0x75, 0x2e]);
    LoadedParts(code, l.heap, a + b + load, d);
    LoadedParts(code, l.heap, a + b, load);
    LoadedParts(code, l.heap, a, b);
  }

  lemma HeapPushesDecode(code: Code, l: AllocationSite)
    requires ValidAllocation(l) && Loaded(code, l.heap, WrapperBytes(HeapSehOf(l)))
    ensures Lists(Disassembly(code), l.heap, Push(Imm(12)), 2)
    ensures Lists(Disassembly(code), l.heap + 2, Push(Imm(l.scope)), 5)
  {
    HeapSehIsValid(l);
    hide Loaded, Disassembly, HeapSeh, Lists, WrapperBytes, InImage;
    WrapperDecodes(code, HeapSehOf(l));
  }

  lemma HeapBranchesDecode(code: Code, l: AllocationSite)
    requires Loaded(code, l.heap + 12, [0x8b, 0x75, 0x08]) && Loaded(code, l.heap + 15, CompareMode(l, 3))
    requires Loaded(code, l.heap + 22, [0x75, 0x2e]) && Loaded(code, l.heap + 24, [0x3b, 0x35] + Bytes(l.threshold))
    requires Loaded(code, l.heap + 30, [0x77, 0x26])
    ensures HeapEntryListed(Disassembly(code), l)
  {
    hide Loaded, Disassembly, Lists, CompareMode, Bytes;
    BranchesDecode(code, l.heap);
    CompareModeDecodes(code, l.heap + 15, l, 3);
    CompareAbsoluteDecodes(code, l.heap + 24, l.threshold);
  }

  lemma HeapEntryDecodes(code: Code, l: AllocationSite)
    requires ValidAllocation(l) && Loaded(code, l.heap, HeapEntryBytes(l))
    ensures HeapEntryListed(Disassembly(code), l)
    ensures Lists(Disassembly(code), l.heap, Push(Imm(12)), 2)
    ensures Lists(Disassembly(code), l.heap + 2, Push(Imm(l.scope)), 5)
    ensures Calls(Disassembly(code), l.heap + 7, Prologue(l.seh))
  {
    IsPlaced(l);
    hide Loaded, Disassembly, CallOf, Lists, Calls, ValidAllocation, ValidSeh, Prologue, HeapEntryBytes, WrapperBytes,
         CompareMode, Bytes, HeapEntryListed;
    HeapEntryParts(code, l);
    HeapPushesDecode(code, l);
    CallDecodes(code, l.heap + 7, Prologue(l.seh));
    HeapBranchesDecode(code, l);
  }

  lemma HeapTailParts(code: Code, l: AllocationSite)
    requires ValidAllocation(l) && Loaded(code, l.heap + 70, HeapTailBytes(l))
    ensures Loaded(code, l.heap + 70, TEST_SIZE) && Loaded(code, l.heap + 75, CompareMode(l, 1))
    ensures Loaded(code, l.heap + 82, ROUND_SIZE) && Loaded(code, l.heap + 93, [0xff, 0x35] + Bytes(l.handle))
    ensures Loaded(code, l.heap + 99, [0xff, 0x15] + Bytes(l.iat))
    ensures Loaded(code, l.heap + 105, CallOf(l.heap + 105, l.epilogue)) && Loaded(code, l.heap + 110, [0xc3])
  {
    hide Loaded, CallOf;
    CallIsFive(l.heap + 105, l.epilogue);
    var p := l.heap + 70;
    var a := CompareMode(l, 1);
    var b := [0xff, 0x35] + Bytes(l.handle);
    var d := [0xff, 0x15] + Bytes(l.iat);
    var e := CallOf(l.heap + 105, l.epilogue);
    LoadedParts(code, p, TEST_SIZE + a + ROUND_SIZE + b + d + e, [0xc3]);
    LoadedParts(code, p, TEST_SIZE + a + ROUND_SIZE + b + d, e);
    LoadedParts(code, p, TEST_SIZE + a + ROUND_SIZE + b, d);
    LoadedParts(code, p, TEST_SIZE + a + ROUND_SIZE, b);
    LoadedParts(code, p, TEST_SIZE + a, ROUND_SIZE);
    LoadedParts(code, p, TEST_SIZE, a);
  }

  lemma TestSizeDecodes(code: Code, p: int)
    requires Loaded(code, p, TEST_SIZE)
    ensures Lists(Disassembly(code), p, Arith(TEST, R32(ESI), R32(ESI)), 2)
    ensures Lists(Disassembly(code), p + 2, Jcc(NotEqual, 1), 2)
  {
    assert Decode(code, p) == Some(Fetched(Arith(TEST, R32(ESI), R32(ESI)), 2));
    assert Decode(code, p + 2) == Some(Fetched(Jcc(NotEqual, 1), 2));
  }

  lemma RoundSizeDecodes(code: Code, p: int)
    requires Loaded(code, p, ROUND_SIZE)
    ensures Lists(Disassembly(code), p, Jcc(Equal, 6), 2)
    ensures Lists(Disassembly(code), p + 2, Arith(ADD, R32(ESI), Imm(15)), 3)
    ensures Lists(Disassembly(code), p + 5, Arith(AND, R32(ESI), Imm(0xffff_fff0)), 3)
    ensures Lists(Disassembly(code), p + 8, Push(R32(ESI)), 1)
    ensures Lists(Disassembly(code), p + 9, Push(Imm(0)), 2)
  {
    assert Decode(code, p) == Some(Fetched(Jcc(Equal, 6), 2));
    assert Decode(code, p + 2) == Some(Fetched(Arith(ADD, R32(ESI), Imm(15)), 3));
    assert Decode(code, p + 5) == Some(Fetched(Arith(AND, R32(ESI), Imm(0xffff_fff0)), 3));
    assert Decode(code, p + 8) == Some(Fetched(Push(R32(ESI)), 1));
    assert Decode(code, p + 9) == Some(Fetched(Push(Imm(0)), 2));
  }

  lemma HeapRoundDecodes(code: Code, l: AllocationSite)
    requires Loaded(code, l.heap + 70, TEST_SIZE) && Loaded(code, l.heap + 75, CompareMode(l, 1))
    requires Loaded(code, l.heap + 82, ROUND_SIZE)
    ensures HeapRoundListed(Disassembly(code), l)
    ensures Lists(Disassembly(code), l.heap + 90, Push(R32(ESI)), 1)
    ensures Lists(Disassembly(code), l.heap + 91, Push(Imm(0)), 2)
  {
    hide Loaded, Disassembly, Lists, CompareMode;
    TestSizeDecodes(code, l.heap + 70);
    CompareModeDecodes(code, l.heap + 75, l, 1);
    RoundSizeDecodes(code, l.heap + 82);
  }

  lemma HeapEndDecodes(code: Code, l: AllocationSite)
    requires Placed(l) && Loaded(code, l.heap + 105, CallOf(l.heap + 105, l.epilogue))
    requires Loaded(code, l.heap + 110, [0xc3])
    ensures Calls(Disassembly(code), l.heap + 105, l.epilogue) && Lists(Disassembly(code), l.heap + 110, Ret, 1)
  {
    hide Loaded, Disassembly, Lists, Calls, CallOf, At;
    CallDecodes(code, l.heap + 105, l.epilogue);
    ByteLoaded(code, l.heap + 110, [0xc3], 0);
    RetDecodes(code, l.heap + 110);
  }

  lemma HeapTailDecodes(code: Code, l: AllocationSite)
    requires ValidAllocation(l) && Loaded(code, l.heap + 70, HeapTailBytes(l))
    ensures HeapRoundListed(Disassembly(code), l) && HeapCallListed(Disassembly(code), l)
  {
    IsPlaced(l);
    hide Loaded, Disassembly, CallOf, Lists, Calls, ValidAllocation, HeapTailBytes, CompareMode, HeapRoundListed,
         Bytes;
    HeapTailParts(code, l);
    HeapRoundDecodes(code, l);
    PushAbsoluteDecodes(code, l.heap + 93, l.handle);
    CallAbsoluteDecodes(code, l.heap + 99, l.iat);
    HeapEndDecodes(code, l);
  }
}
