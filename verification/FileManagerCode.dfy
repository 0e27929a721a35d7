// The code that takes the SEH frame down and finishes the directory: wrapper
// tail, cleanup, unlock, SEH epilogue, and the file manager behind its CALL.

module FileManagerCode {
  import opened Words
  import opened X86
  import opened CwdSeh

  /** Absolute addresses at the admitted image base. */
  datatype ReadySite = ReadySite(tail: u32, cleanup: u32, unlock: u32, epilogue: u32, manager: u32,
                                 table: u32, iat: u32, buffer: u32, suffix: u32)

  predicate ValidSite(l: ReadySite) {
    && l.tail < M32 - 24 && l.cleanup < M32 - 9 && l.unlock < M32 - 21 && l.epilogue < M32 - 17
    && l.manager < M32 - 51 && l.table < M32 - 68 && l.iat < M32 - 4
    && 0 < l.buffer <= U32_MAX - 128 && l.suffix < M32 - 2
  }

  function ToCleanup(l: ReadySite): u32 { Wrap(l.cleanup - (l.tail + 15)) }
  function ToEpilogue(l: ReadySite): u32 { Wrap(l.epilogue - (l.tail + 23)) }
  function ToUnlock(l: ReadySite): u32 { Wrap(l.unlock - (l.cleanup + 7)) }

  // ---- file_manager_ready_code --------------------------------------------

  function TailHead(l: ReadySite): seq<byte> {
    [0x83, 0xc4, 0x0c, 0x89, 0x45, 0xe4, 0x83, 0x4d, 0xfc, 0xff]
  }

  function CallText(rel: u32): seq<byte> { [0xe8] + Bytes(rel) }

  const TAIL_RELOAD: seq<byte> := [0x8b, 0x45, 0xe4]

  function TailBytes(l: ReadySite): seq<byte> {
    TailHead(l) + CallText(ToCleanup(l)) + TAIL_RELOAD + CallText(ToEpilogue(l)) + [0xc3]
  }

  function CleanupBytes(l: ReadySite): seq<byte> { [0x6a, 0x07] + CallText(ToUnlock(l)) + [0x59, 0xc3] }

  const UNLOCK_HEAD: seq<byte> := [0x55, 0x8b, 0xec, 0x8b, 0x45, 0x08]

  function UnlockBytes(l: ReadySite): seq<byte> {
    UNLOCK_HEAD + ([0xff, 0x34, 0xc5] + Bytes(l.table)) + ([0xff, 0x15] + Bytes(l.iat)) + [0x5d, 0xc3]
  }

  const RESTORE_HEAD: seq<byte> := [0x64, 0x89, 0x0d, 0, 0, 0, 0]

  const EPILOGUE_POPS: seq<byte> := [0x59, 0x5f, 0x5e, 0x5b, 0xc9, 0x51, 0xc3]

  // ---- file_manager_body ---------------------------------------------------

  const SCAN_HEAD: seq<byte> := [0x83, 0xc4, 0x08, 0x4f]

  /** LEA ESP,[ESP+0]: a seven-byte no-operation before the loop. */
  const PADDING: seq<byte> := [0x8d, 0xa4, 0x24, 0, 0, 0, 0]

  const SCAN_LOOP: seq<byte> := [0x8a, 0x47, 0x01, 0x47, 0x84, 0xc0, 0x75, 0xf8]

  const SCAN_END: seq<byte> := [0x66, 0x89, 0x07, 0x5f, 0xc3]

  /** The whole body; rel is the displacement of the CALL of the directory wrapper. */
  function ManagerBytes(l: ReadySite, rel: u32): seq<byte> {
    ([0x57, 0x68, 0x80, 0, 0, 0, 0x68] + Bytes(l.buffer)) + CallText(rel) + ([0xbf] + Bytes(l.buffer)) +
    SCAN_HEAD + PADDING + SCAN_LOOP + ([0x66, 0xa1] + Bytes(l.suffix)) + SCAN_END
  }

  // ---- Disassembly ------------------------------------------------------

  predicate TailListed(prog: Program, l: ReadySite) {
    && Lists(prog, l.tail, Arith(ADD, R32(ESP), Imm(12)), 3)
    && Lists(prog, l.tail + 3, Mov(Mem32(Based(EBP, -28)), R32(EAX)), 3)
    && Lists(prog, l.tail + 6, Arith(OR, Mem32(Based(EBP, -4)), Imm(U32_MAX)), 4)
    && Lists(prog, l.tail + 10, Call(Signed32(ToCleanup(l))), 5)
    && Lists(prog, l.tail + 15, Mov(R32(EAX), Mem32(Based(EBP, -28))), 3)
    && Lists(prog, l.tail + 18, Call(Signed32(ToEpilogue(l))), 5)
    && Lists(prog, l.tail + 23, Ret, 1)
  }

  predicate CleanupListed(prog: Program, l: ReadySite) {
    && Lists(prog, l.cleanup, Push(Imm(7)), 2)
    && Lists(prog, l.cleanup + 2, Call(Signed32(ToUnlock(l))), 5)
    && Lists(prog, l.cleanup + 7, Pop(ECX), 1)
    && Lists(prog, l.cleanup + 8, Ret, 1)
  }

  function Slot(l: ReadySite): Addr { Addr(false, NoReg, Of(EAX), 8, Signed32(l.table)) }
  function Import(l: ReadySite): Addr { Addr(false, NoReg, NoReg, 1, Signed32(l.iat)) }

  predicate UnlockListed(prog: Program, l: ReadySite) {
    && Lists(prog, l.unlock, Push(R32(EBP)), 1)
    && Lists(prog, l.unlock + 1, Mov(R32(EBP), R32(ESP)), 2)
    && Lists(prog, l.unlock + 3, Mov(R32(EAX), Mem32(Based(EBP, 8))), 3)
    && Lists(prog, l.unlock + 6, Push(Mem32(Slot(l))), 7)
    && Lists(prog, l.unlock + 13, CallTo(Mem32(Import(l))), 6)
    && Lists(prog, l.unlock + 19, Pop(EBP), 1)
    && Lists(prog, l.unlock + 20, Ret, 1)
  }

  predicate EpilogueListed(prog: Program, p: int) {
    && Lists(prog, p, Mov(R32(ECX), Mem32(Based(EBP, -16))), 3)
    && Lists(prog, p + 3, Mov(Mem32(TibHead()), R32(ECX)), 7)
    && Lists(prog, p + 10, Pop(ECX), 1)
    && Lists(prog, p + 11, Pop(EDI), 1)
    && Lists(prog, p + 12, Pop(ESI), 1)
    && Lists(prog, p + 13, Pop(EBX), 1)
    && Lists(prog, p + 14, Leave, 1)
    && Lists(prog, p + 15, Push(R32(ECX)), 1)
    && Lists(prog, p + 16, Ret, 1)
  }

  predicate ScanListed(prog: Program, l: ReadySite) {
    && Lists(prog, l.manager + 16, Mov(R32(EDI), Imm(l.buffer)), 5)
    && Lists(prog, l.manager + 21, Arith(ADD, R32(ESP), Imm(8)), 3)
    && Lists(prog, l.manager + 24, Dec(EDI), 1)
    && Lists(prog, l.manager + 25, Lea(ESP, Based(ESP, 0)), 7)
    && Lists(prog, l.manager + 32, Mov(Low8(EAX), Mem8(Based(EDI, 1))), 3)
    && Lists(prog, l.manager + 35, Inc(EDI), 1)
    && Lists(prog, l.manager + 36, Arith(TEST, Low8(EAX), Low8(EAX)), 2)
    && Lists(prog, l.manager + 38, Jcc(NotEqual, -8), 2)
  }

  predicate SuffixListed(prog: Program, l: ReadySite) {
    && Lists(prog, l.manager + 40, Mov(R16(EAX), Mem16(Addr(false, NoReg, NoReg, 1, l.suffix))), 6)
    && Lists(prog, l.manager + 46, Mov(Mem16(Based(EDI, 0)), R16(EAX)), 3)
    && Lists(prog, l.manager + 49, Pop(EDI), 1)
    && Lists(prog, l.manager + 50, Ret, 1)
  }

  lemma CallTextDecodes(code: Code, p: int, rel: u32)
    requires Loaded(code, p, CallText(rel))
    ensures Lists(Disassembly(code), p, Call(Signed32(rel)), 5)
  {
    hide ByteOf;
    var text := CallText(rel);
    JoinBytes(rel);
    assert text[1] == ByteOf(rel, 0) && text[2] == ByteOf(rel, 1) && text[3] == ByteOf(rel, 2)
           && text[4] == ByteOf(rel, 3);
    assert Word(code, p + 1) == rel;
    assert Decode(code, p) == Some(Fetched(Call(Signed32(rel)), 5));
  }

  lemma TailHeadDecodes(code: Code, l: ReadySite)
    requires Loaded(code, l.tail, TailHead(l))
    ensures Lists(Disassembly(code), l.tail, Arith(ADD, R32(ESP), Imm(12)), 3)
    ensures Lists(Disassembly(code), l.tail + 3, Mov(Mem32(Based(EBP, -28)), R32(EAX)), 3)
    ensures Lists(Disassembly(code), l.tail + 6, Arith(OR, Mem32(Based(EBP, -4)), Imm(U32_MAX)), 4)
  {
    var p: int := l.tail;
    assert Decode(code, p) == Some(Fetched(Arith(ADD, R32(ESP), Imm(12)), 3));
    assert Decode(code, p + 3) == Some(Fetched(Mov(Mem32(Based(EBP, -28)), R32(EAX)), 3));
    assert Decode(code, p + 6) == Some(Fetched(Arith(OR, Mem32(Based(EBP, -4)), Imm(U32_MAX)), 4));
  }

  lemma TailReloadDecodes(code: Code, p: int)
    requires Loaded(code, p, TAIL_RELOAD)
    ensures Lists(Disassembly(code), p, Mov(R32(EAX), Mem32(Based(EBP, -28))), 3)
  {
    assert Decode(code, p) == Some(Fetched(Mov(R32(EAX), Mem32(Based(EBP, -28))), 3));
  }

  lemma TailDecodes(code: Code, l: ReadySite)
    requires Loaded(code, l.tail, TailBytes(l))
    ensures TailListed(Disassembly(code), l)
  {
    hide Loaded, Disassembly;
    var a := TailHead(l);
    var b := CallText(ToCleanup(l));
    var d := CallText(ToEpilogue(l));
    LoadedParts(code, l.tail, a + b + TAIL_RELOAD + d, [0xc3]);
    LoadedParts(code, l.tail, a + b + TAIL_RELOAD, d);
    LoadedParts(code, l.tail, a + b, TAIL_RELOAD);
    LoadedParts(code, l.tail, a, b);
    TailHeadDecodes(code, l);
    CallTextDecodes(code, l.tail + 10, ToCleanup(l));
    TailReloadDecodes(code, l.tail + 15);
    CallTextDecodes(code, l.tail + 18, ToEpilogue(l));
    ByteLoaded(code, l.tail + 23, [0xc3], 0);
    RetDecodes(code, l.tail + 23);
  }

  lemma CleanupEndsDecode(code: Code, p: int)
    requires Loaded(code, p, [0x6a, 0x07]) && Loaded(code, p + 7, [0x59, 0xc3])
    ensures Lists(Disassembly(code), p, Push(Imm(7)), 2)
    ensures Lists(Disassembly(code), p + 7, Pop(ECX), 1) && Lists(Disassembly(code), p + 8, Ret, 1)
  {
    assert Decode(code, p) == Some(Fetched(Push(Imm(7)), 2));
    assert Decode(code, p + 7) == Some(Fetched(Pop(ECX), 1));
    assert Decode(code, p + 8) == Some(Fetched(Ret, 1));
  }

  lemma CleanupDecodes(code: Code, l: ReadySite)
    requires Loaded(code, l.cleanup, CleanupBytes(l))
    ensures CleanupListed(Disassembly(code), l)
  {
    hide Loaded, Disassembly;
    var b := CallText(ToUnlock(l));
    LoadedParts(code, l.cleanup, [0x6a, 0x07] + b, [0x59, 0xc3]);
    LoadedParts(code, l.cleanup, [0x6a, 0x07], b);
    CallTextDecodes(code, l.cleanup + 2, ToUnlock(l));
    CleanupEndsDecode(code, l.cleanup);
  }

  lemma UnlockEndsDecode(code: Code, p: int)
    requires Loaded(code, p, UNLOCK_HEAD) && Loaded(code, p + 19, [0x5d, 0xc3])
    ensures Lists(Disassembly(code), p, Push(R32(EBP)), 1)
            && Lists(Disassembly(code), p + 1, Mov(R32(EBP), R32(ESP)), 2)
    ensures Lists(Disassembly(code), p + 3, Mov(R32(EAX), Mem32(Based(EBP, 8))), 3)
    ensures Lists(Disassembly(code), p + 19, Pop(EBP), 1) && Lists(Disassembly(code), p + 20, Ret, 1)
  {
    assert Decode(code, p) == Some(Fetched(Push(R32(EBP)), 1));
    assert Decode(code, p + 1) == Some(Fetched(Mov(R32(EBP), R32(ESP)), 2));
    assert Decode(code, p + 3) == Some(Fetched(Mov(R32(EAX), Mem32(Based(EBP, 8))), 3));
    assert Decode(code, p + 19) == Some(Fetched(Pop(EBP), 1));
    assert Decode(code, p + 20) == Some(Fetched(Ret, 1));
  }

  lemma SlotDecodes(code: Code, p: int, l: ReadySite)
    requires Loaded(code, p, [0xff, 0x34, 0xc5] + Bytes(l.table))
    ensures Lists(Disassembly(code), p, Push(Mem32(Slot(l))), 7)
  {
    hide ByteOf;
    var text := [0xff, 0x34, 0xc5] + Bytes(l.table);
    JoinBytes(l.table);
    assert text[3] == ByteOf(l.table, 0) && text[4] == ByteOf(l.table, 1);
    assert text[5] == ByteOf(l.table, 2) && text[6] == ByteOf(l.table, 3);
    assert Word(code, p + 3) == l.table;
    assert Decode(code, p) == Some(Fetched(Push(Mem32(Slot(l))), 7));
  }

  lemma ImportDecodes(code: Code, p: int, l: ReadySite)
    requires Loaded(code, p, [0xff, 0x15] + Bytes(l.iat))
    ensures Lists(Disassembly(code), p, CallTo(Mem32(Import(l))), 6)
  {
    hide ByteOf;
    var text := [0xff, 0x15] + Bytes(l.iat);
    JoinBytes(l.iat);
    assert text[2] == ByteOf(l.iat, 0) && text[3] == ByteOf(l.iat, 1);
    assert text[4] == ByteOf(l.iat, 2) && text[5] == ByteOf(l.iat, 3);
    assert Word(code, p + 2) == l.iat;
    assert Decode(code, p) == Some(Fetched(CallTo(Mem32(Import(l))), 6));
  }

  lemma UnlockParts(code: Code, l: ReadySite)
    requires Loaded(code, l.unlock, UnlockBytes(l))
    ensures Loaded(code, l.unlock, UNLOCK_HEAD) && Loaded(code, l.unlock + 6, [0xff, 0x34, 0xc5] + Bytes(l.table))
    ensures Loaded(code, l.unlock + 13, [0xff, 0x15] + Bytes(l.iat)) && Loaded(code, l.unlock + 19, [0x5d, 0xc3])
  {
    hide Loaded;
    var b := [0xff, 0x34, 0xc5] + Bytes(l.table);
    var d := [0xff, 0x15] + Bytes(l.iat);
    LoadedParts(code, l.unlock, UNLOCK_HEAD + b + d, [0x5d, 0xc3]);
    LoadedParts(code, l.unlock, UNLOCK_HEAD + b, d);
    LoadedParts(code, l.unlock, UNLOCK_HEAD, b);
  }

  lemma UnlockDecodes(code: Code, l: ReadySite)
    requires Loaded(code, l.unlock, UNLOCK_HEAD) && Loaded(code, l.unlock + 6, [0xff, 0x34, 0xc5] + Bytes(l.table))
    requires Loaded(code, l.unlock + 13, [0xff, 0x15] + Bytes(l.iat)) && Loaded(code, l.unlock + 19, [0x5d, 0xc3])
    ensures UnlockListed(Disassembly(code), l)
  {
    hide Loaded, Disassembly;
    UnlockEndsDecode(code, l.unlock);
    SlotDecodes(code, l.unlock + 6, l);
    ImportDecodes(code, l.unlock + 13, l);
  }

  lemma EpilogueHeadDecodes(code: Code, p: int)
    requires Loaded(code, p, [0x8b, 0x4d, 0xf0])
    ensures Lists(Disassembly(code), p, Mov(R32(ECX), Mem32(Based(EBP, -16))), 3)
  {
    assert Decode(code, p) == Some(Fetched(Mov(R32(ECX), Mem32(Based(EBP, -16))), 3));
  }

  lemma RestoreHeadFetched(code: Code, p: int)
    requires Loaded(code, p, RESTORE_HEAD)
    ensures p in code && At(code, p) == 0x64 && At(code, p + 1) == 0x89 && At(code, p + 2) == 0x0d
            && Word(code, p + 3) == 0
  {}

  lemma RestoreHeadDecodes(code: Code, p: int)
    requires p in code && At(code, p) == 0x64 && At(code, p + 1) == 0x89 && At(code, p + 2) == 0x0d
             && Word(code, p + 3) == 0
    ensures Lists(Disassembly(code), p, Mov(Mem32(TibHead()), R32(ECX)), 7)
  {
    hide At, Word, Decode;
    SegmentPrefix(code, p);
    assert DecodeModRm(code, p + 2, true) == ModRm(1, RmMem(TibHead()), 5);
    assert DecodeOpcode(code, p + 1, 1, true) == Some(Fetched(Mov(Mem32(TibHead()), R32(ECX)), 7));
  }

  lemma EpiloguePopsDecode(code: Code, p: int)
    requires Loaded(code, p, EPILOGUE_POPS)
    ensures Lists(Disassembly(code), p, Pop(ECX), 1) && Lists(Disassembly(code), p + 1, Pop(EDI), 1)
    ensures Lists(Disassembly(code), p + 2, Pop(ESI), 1) && Lists(Disassembly(code), p + 3, Pop(EBX), 1)
    ensures Lists(Disassembly(code), p + 4, Leave, 1) && Lists(Disassembly(code), p + 5, Push(R32(ECX)), 1)
    ensures Lists(Disassembly(code), p + 6, Ret, 1)
  {
    assert Decode(code, p) == Some(Fetched(Pop(ECX), 1));
    assert Decode(code, p + 1) == Some(Fetched(Pop(EDI), 1));
    assert Decode(code, p + 2) == Some(Fetched(Pop(ESI), 1));
    assert Decode(code, p + 3) == Some(Fetched(Pop(EBX), 1));
    assert Decode(code, p + 4) == Some(Fetched(Leave, 1));
    assert Decode(code, p + 5) == Some(Fetched(Push(R32(ECX)), 1));
    assert Decode(code, p + 6) == Some(Fetched(Ret, 1));
  }

  lemma EpilogueDecodes(code: Code, p: int)
    requires Loaded(code, p, [0x8b, 0x4d, 0xf0] + RESTORE_HEAD + EPILOGUE_POPS)
    ensures EpilogueListed(Disassembly(code), p)
  {
    hide Loaded, Disassembly, At, Word;
    LoadedParts(code, p, [0x8b, 0x4d, 0xf0] + RESTORE_HEAD, EPILOGUE_POPS);
    LoadedParts(code, p, [0x8b, 0x4d, 0xf0], RESTORE_HEAD);
    EpilogueHeadDecodes(code, p);
    RestoreHeadFetched(code, p + 3);
    RestoreHeadDecodes(code, p + 3);
    EpiloguePopsDecode(code, p + 10);
  }

  lemma ScanHeadDecodes(code: Code, p: int)
    requires Loaded(code, p, SCAN_HEAD)
    ensures Lists(Disassembly(code), p, Arith(ADD, R32(ESP), Imm(8)), 3)
    ensures Lists(Disassembly(code), p + 3, Dec(EDI), 1)
  {
    assert Decode(code, p) == Some(Fetched(Arith(ADD, R32(ESP), Imm(8)), 3));
    assert Decode(code, p + 3) == Some(Fetched(Dec(EDI), 1));
  }

  lemma PaddingFetched(code: Code, p: int)
    requires Loaded(code, p, PADDING)
    ensures p in code && At(code, p) == 0x8d && At(code, p + 1) == 0xa4 && At(code, p + 2) == 0x24
            && Word(code, p + 3) == 0
  {}

  lemma PaddingDecodes(code: Code, p: int)
    requires p in code && At(code, p) == 0x8d && At(code, p + 1) == 0xa4 && At(code, p + 2) == 0x24
             && Word(code, p + 3) == 0
    ensures Lists(Disassembly(code), p, Lea(ESP, Based(ESP, 0)), 7)
  {
    hide At, Word;
    assert DecodeModRm(code, p + 1, false) == ModRm(4, RmMem(Based(ESP, 0)), 6);
    assert Decode(code, p) == Some(Fetched(Lea(ESP, Based(ESP, 0)), 7));
  }

  lemma ScanLoopDecodes(code: Code, p: int)
    requires Loaded(code, p, SCAN_LOOP)
    ensures Lists(Disassembly(code), p, Mov(Low8(EAX), Mem8(Based(EDI, 1))), 3)
    ensures Lists(Disassembly(code), p + 3, Inc(EDI), 1)
    ensures Lists(Disassembly(code), p + 4, Arith(TEST, Low8(EAX), Low8(EAX)), 2)
    ensures Lists(Disassembly(code), p + 6, Jcc(NotEqual, -8), 2)
  {
    assert Decode(code, p) == Some(Fetched(Mov(Low8(EAX), Mem8(Based(EDI, 1))), 3));
    assert Decode(code, p + 3) == Some(Fetched(Inc(EDI), 1));
    assert Decode(code, p + 4) == Some(Fetched(Arith(TEST, Low8(EAX), Low8(EAX)), 2));
    assert Decode(code, p + 6) == Some(Fetched(Jcc(NotEqual, -8), 2));
  }

  lemma SuffixLoadDecodes(code: Code, p: int, v: u32)
    requires Loaded(code, p, [0x66, 0xa1] + Bytes(v))
    ensures Lists(Disassembly(code), p, Mov(R16(EAX), Mem16(Addr(false, NoReg, NoReg, 1, v))), 6)
  {
    hide ByteOf;
    var text := [0x66, 0xa1] + Bytes(v);
    JoinBytes(v);
    assert text[2] == ByteOf(v, 0) && text[3] == ByteOf(v, 1) && text[4] == ByteOf(v, 2) && text[5] == ByteOf(v, 3);
    assert Word(code, p + 2) == v;
    assert Decode(code, p) == Some(Fetched(Mov(R16(EAX), Mem16(Addr(false, NoReg, NoReg, 1, v))), 6));
  }

  lemma BufferLoadDecodes(code: Code, p: int, v: u32)
    requires Loaded(code, p, [0xbf] + Bytes(v))
    ensures Lists(Disassembly(code), p, Mov(R32(EDI), Imm(v)), 5)
  {
    hide ByteOf;
    var text := [0xbf] + Bytes(v);
    JoinBytes(v);
    assert text[1] == ByteOf(v, 0) && text[2] == ByteOf(v, 1) && text[3] == ByteOf(v, 2) && text[4] == ByteOf(v, 3);
    assert Word(code, p + 1) == v;
    assert Decode(code, p) == Some(Fetched(Mov(R32(EDI), Imm(v)), 5));
  }

  lemma ScanEndDecodes(code: Code, p: int)
    requires Loaded(code, p, SCAN_END)
    ensures Lists(Disassembly(code), p, Mov(Mem16(Based(EDI, 0)), R16(EAX)), 3)
    ensures Lists(Disassembly(code), p + 3, Pop(EDI), 1) && Lists(Disassembly(code), p + 4, Ret, 1)
  {
    assert Decode(code, p) == Some(Fetched(Mov(Mem16(Based(EDI, 0)), R16(EAX)), 3));
    assert Decode(code, p + 3) == Some(Fetched(Pop(EDI), 1));
    assert Decode(code, p + 4) == Some(Fetched(Ret, 1));
  }

  lemma ManagerDecodes(code: Code, l: ReadySite, rel: u32)
    requires Loaded(code, l.manager, ManagerBytes(l, rel))
    ensures ScanListed(Disassembly(code), l) && SuffixListed(Disassembly(code), l)
  {
    hide Loaded, Disassembly, At, Word;
    var a := [0x57, 0x68, 0x80, 0, 0, 0, 0x68] + Bytes(l.buffer);
    var b := CallText(rel);
    var d := [0xbf] + Bytes(l.buffer);
    var e := [0x66, 0xa1] + Bytes(l.suffix);
    LoadedParts(code, l.manager, a + b + d + SCAN_HEAD + PADDING + SCAN_LOOP + e, SCAN_END);
    LoadedParts(code, l.manager, a + b + d + SCAN_HEAD + PADDING + SCAN_LOOP, e);
    LoadedParts(code, l.manager, a + b + d + SCAN_HEAD + PADDING, SCAN_LOOP);
    LoadedParts(code, l.manager, a + b + d + SCAN_HEAD, PADDING);
    LoadedParts(code, l.manager, a + b + d, SCAN_HEAD);
    LoadedParts(code, l.manager, a + b, d);
    BufferLoadDecodes(code, l.manager + 16, l.buffer);
    ScanHeadDecodes(code, l.manager + 21);
    PaddingFetched(code, l.manager + 25);
    PaddingDecodes(code, l.manager + 25);
    ScanLoopDecodes(code, l.manager + 32);
    SuffixLoadDecodes(code, l.manager + 40, l.suffix);
    ScanEndDecodes(code, l.manager + 46);
  }
}
