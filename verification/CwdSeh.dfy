// The SEH prologue of the CRT wrapper: the predicates the observer states about
// registers, stack words and thread block, and the proof that executing the
// manager's CALL, the wrapper and the prologue meets them at each stop.

module CwdSeh {
  import opened Words
  import opened X86
  import opened X86Rules
  import opened FrameTarget
  import opened StackWindow

  datatype CwdSehSpec = CwdSehSpec(wrapper: FrameTargetSpec, prologue: FrameTargetSpec,
                                   scope_rva: u32, handler_rva: u32, cleanup_rva: u32)

  /** The parts of valid_cwd_seh_spec that place the two call sites and their operands. */
  predicate ValidSeh(s: CwdSehSpec) {
    && ValidFrameTarget(s.wrapper) && ValidFrameTarget(s.prologue)
    && s.prologue.image_base == s.wrapper.image_base && s.prologue.image_size == s.wrapper.image_size
    && s.prologue.call_rva == s.wrapper.target_rva + 7
    && 4096 <= s.scope_rva <= s.wrapper.image_size - 12
    && 4096 <= s.handler_rva <= s.wrapper.image_size - 16
    && 4096 <= s.cleanup_rva <= s.wrapper.image_size - 16
    && s.prologue.target_rva <= s.wrapper.image_size - 59
    && s.wrapper.target_rva <= s.wrapper.image_size - 28
  }

  function Scope(s: CwdSehSpec): u32 requires ValidSeh(s) { s.wrapper.image_base + s.scope_rva }
  function Handler(s: CwdSehSpec): u32 requires ValidSeh(s) { s.wrapper.image_base + s.handler_rva }
  function Site(s: CwdSehSpec): u32 requires ValidSeh(s) { s.wrapper.image_base + s.wrapper.call_rva }
  function Wrapper(s: CwdSehSpec): u32 requires ValidSeh(s) { s.wrapper.image_base + s.wrapper.target_rva }
  function Prologue(s: CwdSehSpec): u32 requires ValidSeh(s) { s.wrapper.image_base + s.prologue.target_rva }

  /** The return addresses of the wrapper call and of the prologue call. */
  function OuterReturn(s: CwdSehSpec): u32 requires ValidSeh(s) { Site(s) + 5 }
  function PrologueReturn(s: CwdSehSpec): u32 requires ValidSeh(s) { s.wrapper.image_base + s.prologue.call_rva + 5 }

  // ---- cwd_seh_code -----------------------------------------------------

  /** The first seven bytes of the wrapper; the prologue's CALL follows. */
  function WrapperBytes(s: CwdSehSpec): seq<byte> requires ValidSeh(s) { [0x6a, 12, 0x68] + Bytes(Scope(s)) }

  function PushHandler(s: CwdSehSpec): seq<byte> requires ValidSeh(s) { [0x68] + Bytes(Handler(s)) }

  const READ_HEAD: seq<byte> := [0x64, 0xa1, 0, 0, 0, 0, 0x50]

  const OPEN_FRAME: seq<byte> := [
    0x8b, 0x44, 0x24, 0x10, 0x89, 0x6c, 0x24, 0x10, 0x8d, 0x6c, 0x24, 0x10, 0x2b, 0xe0
  ]

  const SAVE_REGISTERS: seq<byte> := [0x53, 0x56, 0x57, 0x8b, 0x45, 0xf8, 0x89, 0x65, 0xe8, 0x50]

  const SET_STATE: seq<byte> := [
    0x8b, 0x45, 0xfc, 0xc7, 0x45, 0xfc, 0xff, 0xff, 0xff, 0xff, 0x89, 0x45, 0xf8
  ]

  const LINK_HEAD: seq<byte> := [0x8d, 0x45, 0xf0, 0x64, 0xa3, 0, 0, 0, 0, 0xc3]

  function PrologueBytes(s: CwdSehSpec): seq<byte> requires ValidSeh(s) {
    PushHandler(s) + READ_HEAD + OPEN_FRAME + SAVE_REGISTERS + SET_STATE + LINK_HEAD
  }

  // ---- valid_cwd_seh_origin, cwd_seh_frame, cwd_seh_memory ----------------

  /** tib: exception head, stack base, stack limit, subsystem, fiber, arbitrary, self. */
  predicate ValidOrigin(saved: Registers, tib: seq<u32>)
    requires |tib| == 7
  {
    && 65596 <= saved.esp <= U32_MAX - 20 && saved.esp % 4 == 0
    && tib[2] >= 65536 && tib[1] > tib[2]
    && saved.esp - 60 >= tib[2] && saved.esp + 20 <= tib[1]
    && 65536 <= tib[6] <= U32_MAX - 56
    && (tib[0] == U32_MAX || (tib[0] % 4 == 0 && saved.esp + 20 <= tib[0] && tib[0] <= tib[1] - 8))
  }

  predicate SehFrame(s: CwdSehSpec, stage: nat, saved: Registers, r: Registers) {
    && 1 <= stage <= 3 && ValidFrameTarget(s.wrapper)
    && 65596 <= saved.esp <= U32_MAX - 20 && saved.esp % 4 == 0
    && saved.eax == 0 && saved.ebx == 0 && saved.esi == 0 && saved.edi == 24
    && !saved.flags.tf && !saved.flags.df && !r.flags.tf && !r.flags.df
    && r.ebx == saved.ebx && r.ecx == saved.ecx && r.edx == saved.edx && r.esi == saved.esi && r.edi == saved.edi
    && r.eax == (if stage == 3 then saved.esp - 24 else saved.eax)
    && r.ebp == (if stage == 3 then saved.esp - 8 else saved.ebp)
    && r.esp == saved.esp - (if stage == 1 then 4 else if stage == 2 then 16 else 48)
    && if stage < 3 then r.flags.(rf := saved.flags.rf) == saved.flags
       else
         var lhs := saved.esp - 24; var res := lhs - 12;
         && r.flags.cf == (lhs < 12)
         && r.flags.pf == EvenParity(res)
         && r.flags.af == Some(Bit(Xor(Xor(lhs, 12), res), 4))
         && r.flags.zf == (res == 0)
         && r.flags.sf == Bit(res, 31)
         && r.flags.of == Bit(And(Xor(lhs, 12), Xor(lhs, res)), 31)
         && r.flags.rest == saved.flags.rest
  }

  /** The stack window starts at saved.esp - 60 and has 20 words. */
  function ExpectedStack(s: CwdSehSpec, stage: nat, saved: Registers, tib: seq<u32>, before: seq<u32>): (st: seq<u32>)
    requires ValidSeh(s) && |tib| == 7 && |before| == 20 && 65596 <= saved.esp
  {
    var st := before[14 := OuterReturn(s)];
    if stage == 2 then st[13 := 12][12 := Scope(s)][11 := PrologueReturn(s)]
    else if stage == 3 then
      st[2 := PrologueReturn(s)][3 := saved.edi][4 := saved.esi][5 := saved.ebx][7 := saved.esp - 48]
        [9 := tib[0]][10 := Handler(s)][11 := Scope(s)][12 := U32_MAX][13 := saved.ebp]
    else st
  }

  predicate SehMemory(s: CwdSehSpec, stage: nat, saved: Registers, tib: seq<u32>, now_tib: seq<u32>,
                      before: seq<u32>, now: seq<u32>)
    requires ValidSeh(s) && |tib| == 7 && |before| == 20
  {
    && 1 <= stage <= 3 && ValidOrigin(saved, tib)
    && now_tib == (if stage == 3 then tib[0 := saved.esp - 24] else tib)
    && now == ExpectedStack(s, stage, saved, tib, before)
  }

  // ---- Disassembly ------------------------------------------------------

  function TibHead(): Addr { Addr(true, NoReg, NoReg, 1, 0) }

  ghost predicate WrapperListed(prog: Program, s: CwdSehSpec) requires ValidSeh(s) {
    && Calls(prog, Site(s), Wrapper(s))
    && Lists(prog, Wrapper(s), Push(Imm(12)), 2)
    && Lists(prog, Wrapper(s) + 2, Push(Imm(Scope(s))), 5)
    && Calls(prog, Wrapper(s) + 7, Prologue(s))
  }

  predicate SaveHeadListed(prog: Program, s: CwdSehSpec) requires ValidSeh(s) {
    && Lists(prog, Prologue(s), Push(Imm(Handler(s))), 5)
    && Lists(prog, Prologue(s) + 5, Mov(R32(EAX), Mem32(TibHead())), 6)
    && Lists(prog, Prologue(s) + 11, Push(R32(EAX)), 1)
  }

  predicate OpenFrameListed(prog: Program, p: int) {
    && Lists(prog, p + 12, Mov(R32(EAX), Mem32(Based(ESP, 16))), 4)
    && Lists(prog, p + 16, Mov(Mem32(Based(ESP, 16)), R32(EBP)), 4)
    && Lists(prog, p + 20, Lea(EBP, Based(ESP, 16)), 4)
    && Lists(prog, p + 24, Arith(SUB, R32(ESP), R32(EAX)), 2)
  }

  predicate SaveRegistersListed(prog: Program, p: int) {
    && Lists(prog, p + 26, Push(R32(EBX)), 1)
    && Lists(prog, p + 27, Push(R32(ESI)), 1)
    && Lists(prog, p + 28, Push(R32(EDI)), 1)
    && Lists(prog, p + 29, Mov(R32(EAX), Mem32(Based(EBP, -8))), 3)
    && Lists(prog, p + 32, Mov(Mem32(Based(EBP, -24)), R32(ESP)), 3)
    && Lists(prog, p + 35, Push(R32(EAX)), 1)
  }

  predicate SetStateListed(prog: Program, p: int) {
    && Lists(prog, p + 36, Mov(R32(EAX), Mem32(Based(EBP, -4))), 3)
    && Lists(prog, p + 39, Mov(Mem32(Based(EBP, -4)), Imm(U32_MAX)), 7)
    && Lists(prog, p + 46, Mov(Mem32(Based(EBP, -8)), R32(EAX)), 3)
  }

  predicate LinkHeadListed(prog: Program, p: int) {
    && Lists(prog, p + 49, Lea(EAX, Based(EBP, -16)), 3)
    && Lists(prog, p + 52, Mov(Mem32(TibHead()), R32(EAX)), 6)
    && Lists(prog, p + 58, Ret, 1)
  }

  lemma WrapperDecodes(code: Code, s: CwdSehSpec)
    requires ValidSeh(s) && Loaded(code, Wrapper(s), WrapperBytes(s))
    ensures Lists(Disassembly(code), Wrapper(s), Push(Imm(12)), 2)
    ensures Lists(Disassembly(code), Wrapper(s) + 2, Push(Imm(Scope(s))), 5)
  {
    hide ByteOf;
    var p, text := Wrapper(s), WrapperBytes(s);
    JoinBytes(Scope(s));
    assert text[3] == ByteOf(Scope(s), 0) && text[4] == ByteOf(Scope(s), 1);
    assert text[5] == ByteOf(Scope(s), 2) && text[6] == ByteOf(Scope(s), 3);
    assert Word(code, p + 3) == Scope(s);
    assert Decode(code, p) == Some(Fetched(Push(Imm(12)), 2));
    assert Decode(code, p + 2) == Some(Fetched(Push(Imm(Scope(s))), 5));
  }

  lemma HandlerDecodes(code: Code, s: CwdSehSpec)
    requires ValidSeh(s) && Loaded(code, Prologue(s), PushHandler(s))
    ensures Lists(Disassembly(code), Prologue(s), Push(Imm(Handler(s))), 5)
  {
    hide ByteOf;
    var p, text := Prologue(s), PushHandler(s);
    JoinBytes(Handler(s));
    assert text[1] == ByteOf(Handler(s), 0) && text[2] == ByteOf(Handler(s), 1);
    assert text[3] == ByteOf(Handler(s), 2) && text[4] == ByteOf(Handler(s), 3);
    assert Word(code, p + 1) == Handler(s);
    assert Decode(code, p) == Some(Fetched(Push(Imm(Handler(s))), 5));
  }

  /** The two moves between EAX and the word at the thread block's start. */
  lemma HeadMoveDecodes(code: Code, a: int)
    requires At(code, a) == 0x64 && Word(code, a + 2) == 0
    ensures At(code, a + 1) == 0xa1 ==> Decode(code, a) == Some(Fetched(Mov(R32(EAX), Mem32(TibHead())), 6))
    ensures At(code, a + 1) == 0xa3 ==> Decode(code, a) == Some(Fetched(Mov(Mem32(TibHead()), R32(EAX)), 6))
  {
    hide At, Word, DecodeModRm, DecodeRegRm, DecodeGroup, DecodeTwoByte;
  }

  lemma ReadHeadFetched(code: Code, b: int)
    requires Loaded(code, b, READ_HEAD)
    ensures b in code && At(code, b) == 0x64 && At(code, b + 1) == 0xa1 && Word(code, b + 2) == 0
    ensures At(code, b + 6) == 0x50
  {
    hide Loaded, At;
    var text := READ_HEAD;
    ByteLoaded(code, b, text, 0); ByteLoaded(code, b, text, 1); ByteLoaded(code, b, text, 2);
    ByteLoaded(code, b, text, 3); ByteLoaded(code, b, text, 4); ByteLoaded(code, b, text, 5);
    ByteLoaded(code, b, text, 6);
  }

  lemma ReadHeadDecodes(code: Code, p: int)
    requires Loaded(code, p + 5, READ_HEAD)
    ensures Lists(Disassembly(code), p + 5, Mov(R32(EAX), Mem32(TibHead())), 6)
    ensures Lists(Disassembly(code), p + 11, Push(R32(EAX)), 1)
  {
    hide Decode, Loaded, At, Word;
    ReadHeadFetched(code, p + 5);
    HeadMoveDecodes(code, p + 5);
    PushEaxDecodes(code, p + 11);
  }

  lemma PushEaxDecodes(code: Code, a: int)
    requires At(code, a) == 0x50
    ensures a in code && Decode(code, a) == Some(Fetched(Push(R32(EAX)), 1))
  {}

  lemma FrameMovesDecode(code: Code, p: int)
    requires Loaded(code, p + 12, OPEN_FRAME)
    ensures Decode(code, p + 12) == Some(Fetched(Mov(R32(EAX), Mem32(Based(ESP, 16))), 4)) && p + 12 in code
    ensures Decode(code, p + 16) == Some(Fetched(Mov(Mem32(Based(ESP, 16)), R32(EBP)), 4)) && p + 16 in code
  {}

  lemma OpenFrameDecodes(code: Code, p: int)
    requires Loaded(code, p + 12, OPEN_FRAME)
    ensures OpenFrameListed(Disassembly(code), p)
  {
    FrameMovesDecode(code, p);
    assert Decode(code, p + 20) == Some(Fetched(Lea(EBP, Based(ESP, 16)), 4));
    assert Decode(code, p + 24) == Some(Fetched(Arith(SUB, R32(ESP), R32(EAX)), 2));
  }

  lemma SaveMovesDecode(code: Code, p: int)
    requires Loaded(code, p + 26, SAVE_REGISTERS)
    ensures Decode(code, p + 29) == Some(Fetched(Mov(R32(EAX), Mem32(Based(EBP, -8))), 3)) && p + 29 in code
    ensures Decode(code, p + 32) == Some(Fetched(Mov(Mem32(Based(EBP, -24)), R32(ESP)), 3)) && p + 32 in code
  {}

  lemma SaveRegistersDecodes(code: Code, p: int)
    requires Loaded(code, p + 26, SAVE_REGISTERS)
    ensures SaveRegistersListed(Disassembly(code), p)
  {
    assert Decode(code, p + 26) == Some(Fetched(Push(R32(EBX)), 1));
    assert Decode(code, p + 27) == Some(Fetched(Push(R32(ESI)), 1));
    assert Decode(code, p + 28) == Some(Fetched(Push(R32(EDI)), 1));
    SaveMovesDecode(code, p);
    assert Decode(code, p + 35) == Some(Fetched(Push(R32(EAX)), 1));
  }

  lemma SetStateDecodes(code: Code, p: int)
    requires Loaded(code, p + 36, SET_STATE)
    ensures SetStateListed(Disassembly(code), p)
  {
    assert Decode(code, p + 36) == Some(Fetched(Mov(R32(EAX), Mem32(Based(EBP, -4))), 3));
    assert Decode(code, p + 39) == Some(Fetched(Mov(Mem32(Based(EBP, -4)), Imm(U32_MAX)), 7));
    assert Decode(code, p + 46) == Some(Fetched(Mov(Mem32(Based(EBP, -8)), R32(EAX)), 3));
  }

  lemma LinkHeadFetched(code: Code, b: int)
    requires Loaded(code, b, LINK_HEAD)
    ensures b in code && At(code, b) == 0x8d && At(code, b + 1) == 0x45 && At(code, b + 2) == 0xf0
    ensures b + 3 in code && At(code, b + 3) == 0x64 && At(code, b + 4) == 0xa3 && Word(code, b + 5) == 0
    ensures b + 9 in code && At(code, b + 9) == 0xc3
  {
    hide Loaded, At;
    var text := LINK_HEAD;
    ByteLoaded(code, b, text, 0); ByteLoaded(code, b, text, 1); ByteLoaded(code, b, text, 2);
    ByteLoaded(code, b, text, 3); ByteLoaded(code, b, text, 4); ByteLoaded(code, b, text, 5);
    ByteLoaded(code, b, text, 6); ByteLoaded(code, b, text, 7); ByteLoaded(code, b, text, 8);
    ByteLoaded(code, b, text, 9);
  }

  lemma FrameAddressDecodes(code: Code, a: int)
    requires At(code, a) == 0x8d && At(code, a + 1) == 0x45 && At(code, a + 2) == 0xf0
    ensures Decode(code, a) == Some(Fetched(Lea(EAX, Based(EBP, -16)), 3))
  {
    hide At, Word;
    assert DecodeModRm(code, a + 1, false) == ModRm(0, RmMem(Based(EBP, -16)), 2);
  }

  lemma RetDecodes(code: Code, a: int)
    requires a in code && At(code, a) == 0xc3
    ensures Lists(Disassembly(code), a, Ret, 1)
  {
    hide At, Word;
    assert Decode(code, a) == Some(Fetched(Ret, 1));
  }

  lemma LinkHeadDecodes(code: Code, p: int)
    requires Loaded(code, p + 49, LINK_HEAD)
    ensures LinkHeadListed(Disassembly(code), p)
  {
    hide Loaded, At, Word, Decode;
    LinkHeadFetched(code, p + 49);
    FrameAddressDecodes(code, p + 49);
    HeadMoveDecodes(code, p + 52);
    RetDecodes(code, p + 58);
  }

  lemma SaveHeadIs(prog: Program, s: CwdSehSpec)
    requires ValidSeh(s) && Lists(prog, Prologue(s), Push(Imm(Handler(s))), 5)
    requires Lists(prog, Prologue(s) + 5, Mov(R32(EAX), Mem32(TibHead())), 6)
    requires Lists(prog, Prologue(s) + 11, Push(R32(EAX)), 1)
    ensures SaveHeadListed(prog, s)
  {}

  lemma PrologueDecodes(code: Code, s: CwdSehSpec)
    requires ValidSeh(s) && Loaded(code, Prologue(s), PrologueBytes(s))
    ensures var prog := Disassembly(code); var p := Prologue(s);
            SaveHeadListed(prog, s) && OpenFrameListed(prog, p) && SaveRegistersListed(prog, p) &&
            SetStateListed(prog, p) && LinkHeadListed(prog, p)
  {
    hide Loaded, Disassembly, SaveHeadListed, OpenFrameListed, SaveRegistersListed, SetStateListed, LinkHeadListed;
    var p := Prologue(s);
    var a := PushHandler(s) + READ_HEAD;
    LoadedParts(code, p, a + OPEN_FRAME + SAVE_REGISTERS + SET_STATE, LINK_HEAD);
    LoadedParts(code, p, a + OPEN_FRAME + SAVE_REGISTERS, SET_STATE);
    LoadedParts(code, p, a + OPEN_FRAME, SAVE_REGISTERS);
    LoadedParts(code, p, a, OPEN_FRAME);
    LoadedParts(code, p, PushHandler(s), READ_HEAD);
    HandlerDecodes(code, s);
    ReadHeadDecodes(code, p);
    SaveHeadIs(Disassembly(code), s);
    OpenFrameDecodes(code, p);
    SaveRegistersDecodes(code, p);
    SetStateDecodes(code, p);
    LinkHeadDecodes(code, p);
  }

  // ---- Execution --------------------------------------------------------

  /** Memory as the observer samples it: the 80-byte stack window and the seven TIB words. */
  ghost predicate Seen(m0: Memory, m: Memory, fs: u32, saved: Registers, st: seq<u32>, tib: seq<u32>) {
    && |st| == 20 && |tib| == 7 && 65596 <= saved.esp <= U32_MAX - 20
    && View(m0, m, saved.esp - 60, st, fs, tib)
  }

  lemma SeenBounds(m0: Memory, m: Memory, fs: u32, saved: Registers, st: seq<u32>, tib: seq<u32>)
    requires Seen(m0, m, fs, saved, st, tib)
    ensures |st| == 20 && |tib| == 7 && 65596 <= saved.esp <= U32_MAX - 20
  {}

  lemma SeenLoad(m0: Memory, m: Memory, fs: u32, saved: Registers, st: seq<u32>, tib: seq<u32>, k: nat)
    requires Seen(m0, m, fs, saved, st, tib) && k < 20
    ensures Load32(m, saved.esp - 60 + 4 * k) == Some(st[k]) && Load32(m, fs) == Some(tib[0])
  {
    Loads(m0, m, saved.esp - 60, st, fs, tib, k);
    LoadsTib(m0, m, saved.esp - 60, st, fs, tib, 0);
  }

  lemma SeenStore(m0: Memory, m: Memory, fs: u32, saved: Registers, st: seq<u32>, tib: seq<u32>, k: nat, v: u32)
    returns (m': Memory)
    requires Seen(m0, m, fs, saved, st, tib) && k < 20
    ensures Store32(m, saved.esp - 60 + 4 * k, v) == Some(m') && Seen(m0, m', fs, saved, st[k := v], tib)
  {
    hide View;
    m' := Stores(m0, m, saved.esp - 60, st, fs, tib, k, v);
  }

  lemma SeenStoreHead(m0: Memory, m: Memory, fs: u32, saved: Registers, st: seq<u32>, tib: seq<u32>, v: u32)
    returns (m': Memory)
    requires Seen(m0, m, fs, saved, st, tib)
    ensures Store32(m, fs, v) == Some(m') && Seen(m0, m', fs, saved, st, tib[0 := v])
  {
    hide View;
    m' := StoresTib(m0, m, saved.esp - 60, st, fs, tib, 0, v);
  }

  /** The CALL of the wrapper. */
  lemma ToWrapper(prog: Program, c: CwdSehSpec, m0: Memory, s: Cpu, st: seq<u32>, tib: seq<u32>) returns (t: Cpu)
    requires ValidSeh(c) && WrapperListed(prog, c) && s.eip == Site(c) && Seen(m0, s.mem, s.fs, s.r, st, tib)
    ensures Reaches(prog, s, t) && t.eip == Wrapper(c) && t.fs == s.fs
    ensures t.r == s.r.(esp := s.r.esp - 4, flags := Resume(s.r.flags))
    ensures Seen(m0, t.mem, t.fs, s.r, st[14 := OuterReturn(c)], tib)
  {
    hide Reaches, Run, Step, Store32, Seen, Calls;
    SeenBounds(m0, s.mem, s.fs, s.r, st, tib);
    Stay(prog, s);
    var m := SeenStore(m0, s.mem, s.fs, s.r, st, tib, 14, OuterReturn(c));
    t := CallsRule(prog, s, s, Wrapper(c), m);
  }

  /** The wrapper's two pushes and its CALL of the prologue. */
  lemma ToPrologue(prog: Program, c: CwdSehSpec, m0: Memory, saved: Registers, s: Cpu, st: seq<u32>, tib: seq<u32>)
    returns (t: Cpu)
    requires ValidSeh(c) && WrapperListed(prog, c) && s.eip == Wrapper(c) && Seen(m0, s.mem, s.fs, saved, st, tib)
    requires s.r == saved.(esp := saved.esp - 4, flags := Resume(saved.flags))
    ensures Reaches(prog, s, t) && t.eip == Prologue(c) && t.fs == s.fs
    ensures |st| == 20 && t.r == saved.(esp := saved.esp - 16, flags := Resume(saved.flags))
    ensures Seen(m0, t.mem, t.fs, saved, st[13 := 12][12 := Scope(c)][11 := PrologueReturn(c)], tib)
  {
    hide Reaches, Run, Step, Store32, Seen, Calls;
    SeenBounds(m0, s.mem, s.fs, saved, st, tib);
    Stay(prog, s);
    var m1 := SeenStore(m0, s.mem, s.fs, saved, st, tib, 13, 12);
    t := PushRule(prog, s, s, Imm(12), 2, 12, m1);
    var st1 := st[13 := 12];
    var m2 := SeenStore(m0, t.mem, t.fs, saved, st1, tib, 12, Scope(c));
    t := PushRule(prog, s, t, Imm(Scope(c)), 5, Scope(c), m2);
    var st2 := st1[12 := Scope(c)];
    var m3 := SeenStore(m0, t.mem, t.fs, saved, st2, tib, 11, PrologueReturn(c));
    t := CallsRule(prog, s, t, Prologue(c), m3);
  }

  /** Offsets 0 to 11: the handler and the previous head. */
  lemma SavesHead(prog: Program, c: CwdSehSpec, m0: Memory, saved: Registers, s0: Cpu, s: Cpu, st: seq<u32>,
                  tib: seq<u32>)
    returns (t: Cpu)
    requires ValidSeh(c) && SaveHeadListed(prog, c) && s.eip == Prologue(c) && Seen(m0, s.mem, s.fs, saved, st, tib)
    requires Reaches(prog, s0, s) && s.r == saved.(esp := saved.esp - 16, flags := Resume(saved.flags))
    ensures Reaches(prog, s0, t) && t.eip == Prologue(c) + 12 && t.fs == s.fs && |st| == 20 && |tib| == 7
    ensures t.r == saved.(esp := saved.esp - 24, eax := tib[0], flags := Resume(saved.flags))
    ensures Seen(m0, t.mem, t.fs, saved, st[10 := Handler(c)][9 := tib[0]], tib)
  {
    hide Reaches, Run, Step, Store32, Load32, Seen;
    SeenBounds(m0, s.mem, s.fs, saved, st, tib);
    var m1 := SeenStore(m0, s.mem, s.fs, saved, st, tib, 10, Handler(c));
    t := PushRule(prog, s0, s, Imm(Handler(c)), 5, Handler(c), m1);
    var st1 := st[10 := Handler(c)];
    SeenLoad(m0, t.mem, t.fs, saved, st1, tib, 0);
    t := LoadRule(prog, s0, t, EAX, TibHead(), 6, tib[0]);
    var m2 := SeenStore(m0, t.mem, t.fs, saved, st1, tib, 9, tib[0]);
    t := PushRule(prog, s0, t, R32(EAX), 1, tib[0], m2);
  }

  /** Offsets 12 to 24: the frame pointer and the locals. */
  lemma OpensFrame(prog: Program, p: u32, m0: Memory, saved: Registers, s0: Cpu, s: Cpu, st: seq<u32>, tib: seq<u32>)
    returns (t: Cpu)
    requires p < M32 - 59 && OpenFrameListed(prog, p) && s.eip == p + 12 && Seen(m0, s.mem, s.fs, saved, st, tib)
    requires Reaches(prog, s0, s) && |tib| == 7 && |st| == 20 && st[13] == 12
    requires s.r == saved.(esp := saved.esp - 24, eax := tib[0], flags := Resume(saved.flags))
    ensures Reaches(prog, s0, t) && t.eip == p + 26 && t.fs == s.fs
    ensures saved.esp >= 65596
    ensures t.r == saved.(esp := saved.esp - 36, eax := 12, ebp := saved.esp - 8,
                          flags := SubFlags(Resume(saved.flags), saved.esp - 24, 12, 0x8000_0000))
    ensures Seen(m0, t.mem, t.fs, saved, st[13 := saved.ebp], tib)
  {
    hide Reaches, Run, Step, Store32, Load32, Seen, EvenParity;
    SeenBounds(m0, s.mem, s.fs, saved, st, tib);
    SeenLoad(m0, s.mem, s.fs, saved, st, tib, 13);
    t := LoadRule(prog, s0, s, EAX, Based(ESP, 16), 4, 12);
    var m := SeenStore(m0, t.mem, t.fs, saved, st, tib, 13, saved.ebp);
    t := StoreRule(prog, s0, t, Based(ESP, 16), R32(EBP), 4, saved.ebp, m);
    t := LeaRule(prog, s0, t, EBP, Based(ESP, 16), 4);
    t := AluRule(prog, s0, t, SUB, ESP, R32(EAX), 2, 12);
  }

  /** The flags of the one SUB, kept to the end of the prologue. */
  function After(saved: Registers): Flags
    requires saved.esp >= 65596
  {
    SubFlags(Resume(saved.flags), saved.esp - 24, 12, 0x8000_0000)
  }

  /** Offsets 26 to 35: callee-saved registers, stack pointer, return address. */
  lemma SavesRegisters(prog: Program, p: u32, ret: u32, m0: Memory, saved: Registers, s0: Cpu, s: Cpu,
                       st: seq<u32>, tib: seq<u32>) returns (t: Cpu)
    requires p < M32 - 59 && SaveRegistersListed(prog, p) && s.eip == p + 26 && Seen(m0, s.mem, s.fs, saved, st, tib)
    requires Reaches(prog, s0, s) && |st| == 20 && st[11] == ret && saved.esp >= 65596
    requires s.r == saved.(esp := saved.esp - 36, eax := 12, ebp := saved.esp - 8, flags := After(saved))
    ensures Reaches(prog, s0, t) && t.eip == p + 36 && t.fs == s.fs
    ensures t.r == saved.(esp := saved.esp - 52, eax := ret, ebp := saved.esp - 8, flags := After(saved))
    ensures Seen(m0, t.mem, t.fs, saved,
                 st[5 := saved.ebx][4 := saved.esi][3 := saved.edi][7 := saved.esp - 48][2 := ret], tib)
  {
    hide Reaches, Run, Step, Store32, Load32, Seen, EvenParity;
    SeenBounds(m0, s.mem, s.fs, saved, st, tib);
    var m := SeenStore(m0, s.mem, s.fs, saved, st, tib, 5, saved.ebx);
    t := PushRule(prog, s0, s, R32(EBX), 1, saved.ebx, m);
    var st1 := st[5 := saved.ebx];
    m := SeenStore(m0, t.mem, t.fs, saved, st1, tib, 4, saved.esi);
    t := PushRule(prog, s0, t, R32(ESI), 1, saved.esi, m);
    st1 := st1[4 := saved.esi];
    m := SeenStore(m0, t.mem, t.fs, saved, st1, tib, 3, saved.edi);
    t := PushRule(prog, s0, t, R32(EDI), 1, saved.edi, m);
    st1 := st1[3 := saved.edi];
    SeenLoad(m0, t.mem, t.fs, saved, st1, tib, 11);
    t := LoadRule(prog, s0, t, EAX, Based(EBP, -8), 3, ret);
    m := SeenStore(m0, t.mem, t.fs, saved, st1, tib, 7, saved.esp - 48);
    t := StoreRule(prog, s0, t, Based(EBP, -24), R32(ESP), 3, saved.esp - 48, m);
    st1 := st1[7 := saved.esp - 48];
    m := SeenStore(m0, t.mem, t.fs, saved, st1, tib, 2, ret);
    t := PushRule(prog, s0, t, R32(EAX), 1, ret, m);
  }

  /** Offsets 36 to 58: try level, scope, new head, return. */
  lemma LinksHead(prog: Program, p: u32, scope: u32, ret: u32, m0: Memory, saved: Registers, s0: Cpu, s: Cpu,
                  st: seq<u32>, tib: seq<u32>) returns (t: Cpu)
    requires p < M32 - 59 && SetStateListed(prog, p) && LinkHeadListed(prog, p)
    requires s.eip == p + 36 && Seen(m0, s.mem, s.fs, saved, st, tib)
    requires Reaches(prog, s0, s) && |st| == 20 && |tib| == 7 && st[12] == scope && st[2] == ret && saved.esp >= 65596
    requires s.r == saved.(esp := saved.esp - 52, eax := ret, ebp := saved.esp - 8, flags := After(saved))
    ensures Reaches(prog, s0, t) && t.eip == ret && t.fs == s.fs
    ensures t.r == saved.(esp := saved.esp - 48, eax := saved.esp - 24, ebp := saved.esp - 8, flags := After(saved))
    ensures Seen(m0, t.mem, t.fs, saved, st[12 := U32_MAX][11 := scope], tib[0 := saved.esp - 24])
  {
    hide Reaches, Run, Step, Store32, Load32, Seen, EvenParity;
    SeenBounds(m0, s.mem, s.fs, saved, st, tib);
    SeenLoad(m0, s.mem, s.fs, saved, st, tib, 12);
    t := LoadRule(prog, s0, s, EAX, Based(EBP, -4), 3, scope);
    var m := SeenStore(m0, t.mem, t.fs, saved, st, tib, 12, U32_MAX);
    t := StoreRule(prog, s0, t, Based(EBP, -4), Imm(U32_MAX), 7, U32_MAX, m);
    var st1 := st[12 := U32_MAX];
    m := SeenStore(m0, t.mem, t.fs, saved, st1, tib, 11, scope);
    t := StoreRule(prog, s0, t, Based(EBP, -8), R32(EAX), 3, scope, m);
    st1 := st1[11 := scope];
    t := LeaRule(prog, s0, t, EAX, Based(EBP, -16), 3);
    m := SeenStoreHead(m0, t.mem, t.fs, saved, st1, tib, saved.esp - 24);
    t := StoreRule(prog, s0, t, TibHead(), R32(EAX), 6, saved.esp - 24, m);
    SeenLoad(m0, t.mem, t.fs, saved, st1, tib[0 := saved.esp - 24], 2);
    t := RetRule(prog, s0, t, ret);
  }

  /** The whole prologue. */
  lemma ThroughPrologue(prog: Program, c: CwdSehSpec, m0: Memory, saved: Registers, s: Cpu, st: seq<u32>, tib: seq<u32>)
    returns (t: Cpu)
    requires ValidSeh(c) && s.eip == Prologue(c) && Seen(m0, s.mem, s.fs, saved, st, tib)
    requires SaveHeadListed(prog, c) && OpenFrameListed(prog, Prologue(c)) && SaveRegistersListed(prog, Prologue(c))
    requires SetStateListed(prog, Prologue(c)) && LinkHeadListed(prog, Prologue(c))
    requires |st| == 20 && |tib| == 7 && saved.esp >= 65596
    requires st[13] == 12 && st[12] == Scope(c) && st[11] == PrologueReturn(c)
    requires s.r == saved.(esp := saved.esp - 16, flags := Resume(saved.flags))
    ensures Reaches(prog, s, t) && t.eip == PrologueReturn(c) && t.fs == s.fs
    ensures t.r == saved.(esp := saved.esp - 48, eax := saved.esp - 24, ebp := saved.esp - 8, flags := After(saved))
    ensures Seen(m0, t.mem, t.fs, saved,
                 st[10 := Handler(c)][9 := tib[0]][13 := saved.ebp]
                   [5 := saved.ebx][4 := saved.esi][3 := saved.edi][7 := saved.esp - 48][2 := PrologueReturn(c)]
                   [12 := U32_MAX][11 := Scope(c)], tib[0 := saved.esp - 24])
  {
    hide Reaches, Run, Step, Seen, SaveHeadListed, OpenFrameListed,
         SaveRegistersListed, SetStateListed, LinkHeadListed, EvenParity;
    Stay(prog, s);
    t := SavesHead(prog, c, m0, saved, s, s, st, tib);
    var st1 := st[10 := Handler(c)][9 := tib[0]];
    t := OpensFrame(prog, Prologue(c), m0, saved, s, t, st1, tib);
    st1 := st1[13 := saved.ebp];
    t := SavesRegisters(prog, Prologue(c), PrologueReturn(c), m0, saved, s, t, st1, tib);
    st1 := st1[5 := saved.ebx][4 := saved.esi][3 := saved.edi][7 := saved.esp - 48][2 := PrologueReturn(c)];
    t := LinksHead(prog, Prologue(c), Scope(c), PrologueReturn(c), m0, saved, s, t, st1, tib);
  }

  /** The flag formulas of cwd_seh_frame are the flags of SUB ESP,12. */
  lemma SubFlagFormulas(lhs: u32)
    requires lhs >= 12
    ensures var res := lhs - 12;
            (lhs % 16 < 12) == Bit(Xor(Xor(lhs, 12), res), 4) &&
            (res >= 0x8000_0000) == Bit(res, 31) &&
            ((lhs >= 0x8000_0000) && (res < 0x8000_0000)) == Bit(And(Xor(lhs, 12), Xor(lhs, res)), 31)
  {
    var res := lhs - 12;
    hide Xor, And, Bit, Pow2;
    Borrow(lhs);
    XorBit(Xor(lhs, 12), res, 4); XorBit(lhs, 12, 4);
    AndBit(Xor(lhs, 12), Xor(lhs, res), 31); XorBit(lhs, 12, 31); XorBit(lhs, res, 31);
    BitDigits(lhs); BitDigits(12); BitDigits(res);
  }

  /** A borrow into bit 4 flips that bit. */
  lemma Borrow(lhs: u32)
    requires lhs >= 12
    ensures ((lhs / 0x10) % 2 == 1) != (((lhs - 12) / 0x10) % 2 == 1) <==> lhs % 16 < 12
    ensures (12 / 0x10) % 2 == 0
  {
    if lhs % 16 < 12 {
      assert (lhs - 12) / 16 == lhs / 16 - 1;
    } else {
      assert (lhs - 12) / 16 == lhs / 16;
    }
  }

  /** The samples taken in t satisfy cwd_seh_memory; memory outside them is as in s. */
  ghost predicate Sampled(c: CwdSehSpec, stage: nat, s: Cpu, t: Cpu, stack: seq<u32>, tib: seq<u32>)
    requires ValidSeh(c) && |stack| == 20 && |tib| == 7 && s.r.esp >= 65596
  {
    exists now_stack, now_tib ::
      View(s.mem, t.mem, s.r.esp - 60, now_stack, s.fs, now_tib) &&
      SehMemory(c, stage, s.r, tib, now_tib, stack, now_stack)
  }

  lemma SampledBy(c: CwdSehSpec, stage: nat, s: Cpu, t: Cpu, stack: seq<u32>, tib: seq<u32>,
                  now_stack: seq<u32>, now_tib: seq<u32>)
    requires ValidSeh(c) && |stack| == 20 && |tib| == 7 && s.r.esp >= 65596
    requires Seen(s.mem, t.mem, s.fs, s.r, now_stack, now_tib)
             && SehMemory(c, stage, s.r, tib, now_tib, stack, now_stack)
    ensures Sampled(c, stage, s, t, stack, tib)
  {}

  /** The stores of the prologue, in program order, leave the expected stack. */
  lemma Collect(c: CwdSehSpec, saved: Registers, tib: seq<u32>, stack: seq<u32>)
    requires ValidSeh(c) && |stack| == 20 && |tib| == 7 && saved.esp >= 65596
    ensures stack[14 := OuterReturn(c)][13 := 12][12 := Scope(c)][11 := PrologueReturn(c)]
              [10 := Handler(c)][9 := tib[0]][13 := saved.ebp]
              [5 := saved.ebx][4 := saved.esi][3 := saved.edi][7 := saved.esp - 48][2 := PrologueReturn(c)]
              [12 := U32_MAX][11 := Scope(c)]
            == ExpectedStack(c, 3, saved, tib, stack)
  {}

  /** The three runs, from any call site of the wrapper. */
  lemma WrapperRuns(prog: Program, c: CwdSehSpec, s: Cpu, stack: seq<u32>, tib: seq<u32>)
      returns (t1: Cpu, t2: Cpu, t3: Cpu)
    requires ValidSeh(c) && s.eip == Site(c) && WrapperListed(prog, c) && Seen(s.mem, s.mem, s.fs, s.r, stack, tib)
    requires SaveHeadListed(prog, c) && OpenFrameListed(prog, Prologue(c)) && SaveRegistersListed(prog, Prologue(c))
    requires SetStateListed(prog, Prologue(c)) && LinkHeadListed(prog, Prologue(c))
    requires |stack| == 20 && |tib| == 7 && 65596 <= s.r.esp
    ensures Reaches(prog, s, t1) && t1.eip == Wrapper(c) && t1.r == s.r.(esp := s.r.esp - 4, flags := Resume(s.r.flags))
    ensures Reaches(prog, t1, t2) && t2.eip == Prologue(c)
            && t2.r == s.r.(esp := s.r.esp - 16, flags := Resume(s.r.flags))
    ensures Reaches(prog, t2, t3) && t3.eip == PrologueReturn(c)
    ensures t3.r == s.r.(esp := s.r.esp - 48, eax := s.r.esp - 24, ebp := s.r.esp - 8, flags := After(s.r))
    ensures t1.fs == s.fs && t2.fs == s.fs && t3.fs == s.fs
    ensures Seen(s.mem, t1.mem, s.fs, s.r, ExpectedStack(c, 1, s.r, tib, stack), tib)
    ensures Seen(s.mem, t2.mem, s.fs, s.r, ExpectedStack(c, 2, s.r, tib, stack), tib)
    ensures Seen(s.mem, t3.mem, s.fs, s.r, ExpectedStack(c, 3, s.r, tib, stack), tib[0 := s.r.esp - 24])
  {
    hide Reaches, Run, Step, Seen, WrapperListed, SaveHeadListed, OpenFrameListed,
         SaveRegistersListed, SetStateListed, LinkHeadListed, After, Resume;
    t1 := ToWrapper(prog, c, s.mem, s, stack, tib);
    var st1: seq<u32> := stack[14 := OuterReturn(c)];
    t2 := ToPrologue(prog, c, s.mem, s.r, t1, st1, tib);
    var st2: seq<u32> := st1[13 := 12][12 := Scope(c)][11 := PrologueReturn(c)];
    t3 := ThroughPrologue(prog, c, s.mem, s.r, t2, st2, tib);
    Collect(c, s.r, tib, stack);
  }

  /** The three runs with their samples. */
  lemma StagesRun(prog: Program, c: CwdSehSpec, s: Cpu, stack: seq<u32>, tib: seq<u32>)
      returns (t1: Cpu, t2: Cpu, t3: Cpu)
    requires ValidSeh(c) && s.eip == Site(c) && WrapperListed(prog, c) && Seen(s.mem, s.mem, s.fs, s.r, stack, tib)
    requires SaveHeadListed(prog, c) && OpenFrameListed(prog, Prologue(c)) && SaveRegistersListed(prog, Prologue(c))
    requires SetStateListed(prog, Prologue(c)) && LinkHeadListed(prog, Prologue(c))
    requires |stack| == 20 && |tib| == 7 && ValidOrigin(s.r, tib)
    ensures Reaches(prog, s, t1) && t1.eip == Wrapper(c) && t1.r == s.r.(esp := s.r.esp - 4, flags := Resume(s.r.flags))
    ensures Reaches(prog, t1, t2) && t2.eip == Prologue(c)
            && t2.r == s.r.(esp := s.r.esp - 16, flags := Resume(s.r.flags))
    ensures Reaches(prog, t2, t3) && t3.eip == PrologueReturn(c)
    ensures t3.r == s.r.(esp := s.r.esp - 48, eax := s.r.esp - 24, ebp := s.r.esp - 8, flags := After(s.r))
    ensures Sampled(c, 1, s, t1, stack, tib) && Sampled(c, 2, s, t2, stack, tib) && Sampled(c, 3, s, t3, stack, tib)
  {
    hide Reaches, Run, Step, Seen, Sampled, WrapperListed, SaveHeadListed, OpenFrameListed,
         SaveRegistersListed, SetStateListed, LinkHeadListed, After, Resume;
    t1, t2, t3 := WrapperRuns(prog, c, s, stack, tib);
    SampledBy(c, 1, s, t1, stack, tib, ExpectedStack(c, 1, s.r, tib, stack), tib);
    SampledBy(c, 2, s, t2, stack, tib, ExpectedStack(c, 2, s.r, tib, stack), tib);
    SampledBy(c, 3, s, t3, stack, tib, ExpectedStack(c, 3, s.r, tib, stack), tib[0 := s.r.esp - 24]);
  }

  /** Registers and flags at the three stops. */
  lemma FramesHold(c: CwdSehSpec, r: Registers, tib: seq<u32>)
    requires ValidSeh(c) && |tib| == 7 && ValidOrigin(r, tib)
    requires r.eax == 0 && r.ebx == 0 && r.esi == 0 && r.edi == 24 && !r.flags.tf && !r.flags.df
    ensures SehFrame(c, 1, r, r.(esp := r.esp - 4, flags := Resume(r.flags)))
    ensures SehFrame(c, 2, r, r.(esp := r.esp - 16, flags := Resume(r.flags)))
    ensures SehFrame(c, 3, r, r.(esp := r.esp - 48, eax := r.esp - 24, ebp := r.esp - 8, flags := After(r)))
  {
    hide EvenParity, Bit, Xor, And;
    SubFlagFormulas(r.esp - 24);
  }

  /** From the manager's CALL in an admitted origin, the three stops are exactly as
      cwd_seh_frame and cwd_seh_memory demand, and no other memory changes. */
  lemma PrologueRuns(code: Code, c: CwdSehSpec, s: Cpu, stack: seq<u32>, tib: seq<u32>) returns (run: seq<Cpu>)
    requires ValidSeh(c) && s.eip == Site(c)
    requires Loaded(code, Site(c), c.wrapper.call) && Loaded(code, Wrapper(c), WrapperBytes(c))
    requires Loaded(code, Wrapper(c) + 7, c.prologue.call) && Loaded(code, Prologue(c), PrologueBytes(c))
    requires |stack| == 20 && |tib| == 7 && ValidOrigin(s.r, tib) && s.fs == tib[6]
    requires View(s.mem, s.mem, s.r.esp - 60, stack, s.fs, tib)
    requires s.r.eax == 0 && s.r.ebx == 0 && s.r.esi == 0 && s.r.edi == 24 && !s.r.flags.tf && !s.r.flags.df
    ensures |run| == 3 && run[0].eip == Wrapper(c) && run[1].eip == Prologue(c) && run[2].eip == PrologueReturn(c)
    ensures forall k :: 0 <= k < 3 ==>
              Reaches(Disassembly(code), if k == 0 then s else run[k - 1], run[k]) &&
              SehFrame(c, k + 1, s.r, run[k].r)
    ensures forall k :: 0 <= k < 3 ==> Sampled(c, k + 1, s, run[k], stack, tib)
  {
    hide Reaches, Run, Step, Loaded, Disassembly, View, Sampled, WrapperListed, SaveHeadListed, OpenFrameListed,
         SaveRegistersListed, SetStateListed, LinkHeadListed, SehFrame, After, Resume, Seen;
    var prog := Disassembly(code);
    CallReachesTarget(code, c.wrapper);
    CallReachesTarget(code, c.prologue);
    WrapperDecodes(code, c);
    WrapperIsListed(prog, c);
    PrologueDecodes(code, c);
    SeenAtStart(c, s, stack, tib);
    var t1, t2, t3 := StagesRun(prog, c, s, stack, tib);
    FramesHold(c, s.r, tib);
    run := [t1, t2, t3];
  }

  lemma SeenAtStart(c: CwdSehSpec, s: Cpu, stack: seq<u32>, tib: seq<u32>)
    requires |stack| == 20 && |tib| == 7 && ValidOrigin(s.r, tib)
    requires View(s.mem, s.mem, s.r.esp - 60, stack, s.fs, tib)
    ensures Seen(s.mem, s.mem, s.fs, s.r, stack, tib)
  {
    hide View;
  }

  lemma WrapperIsListed(prog: Program, c: CwdSehSpec)
    requires ValidSeh(c) && Calls(prog, Site(c), Wrapper(c)) && Calls(prog, Wrapper(c) + 7, Prologue(c))
    requires Lists(prog, Wrapper(c), Push(Imm(12)), 2) && Lists(prog, Wrapper(c) + 2, Push(Imm(Scope(c))), 5)
    ensures WrapperListed(prog, c)
  {}
}
