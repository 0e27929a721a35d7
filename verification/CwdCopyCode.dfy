// The shared string copier of the CRT, byte for byte, and the instructions its
// bytes decode to.

module CwdCopyCode {
  import opened Words
  import opened X86

  /** The entry of the copier and, 117 bytes behind its start, its body. */
  const ENTRY: seq<byte> := [0x57, 0x8b, 0x7c, 0x24, 0x08, 0xeb, 0x6e]

  const ALIGN_BYTES: seq<byte> := [
    0x8b, 0x4c, 0x24, 0x0c,  // 0
    0xf7, 0xc1, 0x03, 0x00, 0x00, 0x00,  // 4
    0x74, 0x1d   // 10
  ]

  const LEAD_BYTES: seq<byte> := [
    0x8a, 0x11,  // 12
    0x83, 0xc1, 0x01,  // 14
    0x84, 0xd2,  // 17
    0x74, 0x66,  // 19
    0x88, 0x17   // 21
  ]

  const LEAD_NEXT_BYTES: seq<byte> := [
    0x83, 0xc7, 0x01,  // 23
    0xf7, 0xc1, 0x03, 0x00, 0x00, 0x00,  // 26
    0x75, 0xea,  // 32
    0xeb, 0x05   // 34
  ]

  const STORE_WORD_BYTES: seq<byte> := [
    0x89, 0x17,  // 36
    0x83, 0xc7, 0x04   // 38
  ]

  const PROBE_BYTES: seq<byte> := [
    0xba, 0xff, 0xfe, 0xfe, 0x7e,  // 41
    0x8b, 0x01,  // 46
    0x03, 0xd0,  // 48
    0x83, 0xf0, 0xff,  // 50
    0x33, 0xc2   // 53
  ]

  const PROBE_TEST_BYTES: seq<byte> := [
    0x8b, 0x11,  // 55
    0x83, 0xc1, 0x04,  // 57
    0xa9, 0x00, 0x01, 0x01, 0x81,  // 60
    0x74, 0xe1   // 65
  ]

  const LOW_BYTES: seq<byte> := [
    0x84, 0xd2,  // 67
    0x74, 0x34,  // 69
    0x84, 0xf6,  // 71
    0x74, 0x27   // 73
  ]

  const MID_BYTES: seq<byte> := [
    0xf7, 0xc2, 0x00, 0x00, 0xff, 0x00,  // 75
    0x74, 0x12   // 81
  ]

  const HIGH_BYTES: seq<byte> := [
    0xf7, 0xc2, 0x00, 0x00, 0x00, 0xff,  // 83
    0x74, 0x02,  // 89
    0xeb, 0xc7   // 91
  ]

  const TAIL4_BYTES: seq<byte> := [
    0x89, 0x17,  // 93
    0x8b, 0x44, 0x24, 0x08,  // 95
    0x5f,  // 99
    0xc3   // 100
  ]

  const TAIL3_BYTES: seq<byte> := [
    0x66, 0x89, 0x17,  // 101
    0x8b, 0x44, 0x24, 0x08,  // 104
    0xc6, 0x47, 0x02, 0x00,  // 108
    0x5f,  // 112
    0xc3   // 113
  ]

  const TAIL2_BYTES: seq<byte> := [
    0x66, 0x89, 0x17,  // 114
    0x8b, 0x44, 0x24, 0x08,  // 117
    0x5f,  // 121
    0xc3   // 122
  ]

  const TAIL1_BYTES: seq<byte> := [
    0x88, 0x17,  // 123
    0x8b, 0x44, 0x24, 0x08,  // 125
    0x5f,  // 129
    0xc3   // 130
  ]

  const BODY: seq<byte> :=
    ALIGN_BYTES + LEAD_BYTES + LEAD_NEXT_BYTES + STORE_WORD_BYTES +
    PROBE_BYTES + PROBE_TEST_BYTES + LOW_BYTES + MID_BYTES + HIGH_BYTES +
    TAIL4_BYTES + TAIL3_BYTES + TAIL2_BYTES + TAIL1_BYTES

  predicate Align(prog: Program, at: int) {
    && Lists(prog, at + 0, Mov(R32(ECX), Mem32(Based(ESP, 12))), 4)
    && Lists(prog, at + 4, Arith(TEST, R32(ECX), Imm(3)), 6)
    && Lists(prog, at + 10, Jcc(Equal, 29), 2)
  }

  lemma AlignTestDecodes(code: Code, at: int)
    requires Loaded(code, at + 0, ALIGN_BYTES)
    ensures Decode(code, at + 0) == Some(Fetched(Mov(R32(ECX), Mem32(Based(ESP, 12))), 4)) && at + 0 in code
    ensures Decode(code, at + 4) == Some(Fetched(Arith(TEST, R32(ECX), Imm(3)), 6)) && at + 4 in code
  {}

  lemma AlignDecodes(code: Code, at: int)
    requires Loaded(code, at + 0, ALIGN_BYTES)
    ensures Align(Disassembly(code), at)
  {
    AlignTestDecodes(code, at);
    assert Decode(code, at + 10) == Some(Fetched(Jcc(Equal, 29), 2));
  }

  predicate Lead(prog: Program, at: int) {
    && Lists(prog, at + 12, Mov(Low8(EDX), Mem8(Based(ECX, 0))), 2)
    && Lists(prog, at + 14, Arith(ADD, R32(ECX), Imm(1)), 3)
    && Lists(prog, at + 17, Arith(TEST, Low8(EDX), Low8(EDX)), 2)
    && Lists(prog, at + 19, Jcc(Equal, 102), 2)
    && Lists(prog, at + 21, Mov(Mem8(Based(EDI, 0)), Low8(EDX)), 2)
  }

  lemma LeadLoadDecodes(code: Code, at: int)
    requires Loaded(code, at + 12, LEAD_BYTES)
    ensures Decode(code, at + 12) == Some(Fetched(Mov(Low8(EDX), Mem8(Based(ECX, 0))), 2)) && at + 12 in code
    ensures Decode(code, at + 14) == Some(Fetched(Arith(ADD, R32(ECX), Imm(1)), 3)) && at + 14 in code
  {}

  lemma LeadDecodes(code: Code, at: int)
    requires Loaded(code, at + 12, LEAD_BYTES)
    ensures Lead(Disassembly(code), at)
  {
    LeadLoadDecodes(code, at);
    assert Decode(code, at + 17) == Some(Fetched(Arith(TEST, Low8(EDX), Low8(EDX)), 2));
    assert Decode(code, at + 19) == Some(Fetched(Jcc(Equal, 102), 2));
    assert Decode(code, at + 21) == Some(Fetched(Mov(Mem8(Based(EDI, 0)), Low8(EDX)), 2));
  }

  predicate LeadNext(prog: Program, at: int) {
    && Lists(prog, at + 23, Arith(ADD, R32(EDI), Imm(1)), 3)
    && Lists(prog, at + 26, Arith(TEST, R32(ECX), Imm(3)), 6)
    && Lists(prog, at + 32, Jcc(NotEqual, -22), 2)
    && Lists(prog, at + 34, Jmp(5), 2)
  }

  lemma LeadAddDecodes(code: Code, at: int)
    requires Loaded(code, at + 23, LEAD_NEXT_BYTES)
    ensures Decode(code, at + 23) == Some(Fetched(Arith(ADD, R32(EDI), Imm(1)), 3)) && at + 23 in code
    ensures Decode(code, at + 26) == Some(Fetched(Arith(TEST, R32(ECX), Imm(3)), 6)) && at + 26 in code
  {}

  lemma LeadNextDecodes(code: Code, at: int)
    requires Loaded(code, at + 23, LEAD_NEXT_BYTES)
    ensures LeadNext(Disassembly(code), at)
  {
    LeadAddDecodes(code, at);
    assert Decode(code, at + 32) == Some(Fetched(Jcc(NotEqual, -22), 2));
    assert Decode(code, at + 34) == Some(Fetched(Jmp(5), 2));
  }

  predicate StoreWord(prog: Program, at: int) {
    && Lists(prog, at + 36, Mov(Mem32(Based(EDI, 0)), R32(EDX)), 2)
    && Lists(prog, at + 38, Arith(ADD, R32(EDI), Imm(4)), 3)
  }

  lemma StoreWordDecodes(code: Code, at: int)
    requires Loaded(code, at + 36, STORE_WORD_BYTES)
    ensures StoreWord(Disassembly(code), at)
  {
    assert Decode(code, at + 36) == Some(Fetched(Mov(Mem32(Based(EDI, 0)), R32(EDX)), 2));
    assert Decode(code, at + 38) == Some(Fetched(Arith(ADD, R32(EDI), Imm(4)), 3));
  }

  predicate Probe(prog: Program, at: int) {
    && Lists(prog, at + 41, Mov(R32(EDX), Imm(0x7efefeff)), 5)
    && Lists(prog, at + 46, Mov(R32(EAX), Mem32(Based(ECX, 0))), 2)
    && Lists(prog, at + 48, Arith(ADD, R32(EDX), R32(EAX)), 2)
    && Lists(prog, at + 50, Arith(XOR, R32(EAX), Imm(U32_MAX)), 3)
    && Lists(prog, at + 53, Arith(XOR, R32(EAX), R32(EDX)), 2)
  }

  lemma ProbeLoadsDecode(code: Code, at: int)
    requires Loaded(code, at + 41, PROBE_BYTES)
    ensures Decode(code, at + 41) == Some(Fetched(Mov(R32(EDX), Imm(0x7efefeff)), 5)) && at + 41 in code
    ensures Decode(code, at + 46) == Some(Fetched(Mov(R32(EAX), Mem32(Based(ECX, 0))), 2)) && at + 46 in code
  {}

  lemma ProbeDecodes(code: Code, at: int)
    requires Loaded(code, at + 41, PROBE_BYTES)
    ensures Probe(Disassembly(code), at)
  {
    ProbeLoadsDecode(code, at);
    assert Decode(code, at + 48) == Some(Fetched(Arith(ADD, R32(EDX), R32(EAX)), 2));
    assert Decode(code, at + 50) == Some(Fetched(Arith(XOR, R32(EAX), Imm(U32_MAX)), 3));
    assert Decode(code, at + 53) == Some(Fetched(Arith(XOR, R32(EAX), R32(EDX)), 2));
  }

  predicate ProbeTest(prog: Program, at: int) {
    && Lists(prog, at + 55, Mov(R32(EDX), Mem32(Based(ECX, 0))), 2)
    && Lists(prog, at + 57, Arith(ADD, R32(ECX), Imm(4)), 3)
    && Lists(prog, at + 60, Arith(TEST, R32(EAX), Imm(0x81010100)), 5)
    && Lists(prog, at + 65, Jcc(Equal, -31), 2)
  }

  lemma ProbeTestDecodes(code: Code, at: int)
    requires Loaded(code, at + 55, PROBE_TEST_BYTES)
    ensures ProbeTest(Disassembly(code), at)
  {
    assert Decode(code, at + 55) == Some(Fetched(Mov(R32(EDX), Mem32(Based(ECX, 0))), 2));
    assert Decode(code, at + 57) == Some(Fetched(Arith(ADD, R32(ECX), Imm(4)), 3));
    assert Decode(code, at + 60) == Some(Fetched(Arith(TEST, R32(EAX), Imm(0x81010100)), 5));
    assert Decode(code, at + 65) == Some(Fetched(Jcc(Equal, -31), 2));
  }

  predicate Low(prog: Program, at: int) {
    && Lists(prog, at + 67, Arith(TEST, Low8(EDX), Low8(EDX)), 2)
    && Lists(prog, at + 69, Jcc(Equal, 52), 2)
    && Lists(prog, at + 71, Arith(TEST, High8(EDX), High8(EDX)), 2)
    && Lists(prog, at + 73, Jcc(Equal, 39), 2)
  }

  lemma LowDecodes(code: Code, at: int)
    requires Loaded(code, at + 67, LOW_BYTES)
    ensures Low(Disassembly(code), at)
  {
    assert Decode(code, at + 67) == Some(Fetched(Arith(TEST, Low8(EDX), Low8(EDX)), 2));
    assert Decode(code, at + 69) == Some(Fetched(Jcc(Equal, 52), 2));
    assert Decode(code, at + 71) == Some(Fetched(Arith(TEST, High8(EDX), High8(EDX)), 2));
    assert Decode(code, at + 73) == Some(Fetched(Jcc(Equal, 39), 2));
  }

  predicate Mid(prog: Program, at: int) {
    && Lists(prog, at + 75, Arith(TEST, R32(EDX), Imm(0x00ff0000)), 6)
    && Lists(prog, at + 81, Jcc(Equal, 18), 2)
  }

  lemma MidDecodes(code: Code, at: int)
    requires Loaded(code, at + 75, MID_BYTES)
    ensures Mid(Disassembly(code), at)
  {
    assert Decode(code, at + 75) == Some(Fetched(Arith(TEST, R32(EDX), Imm(0x00ff0000)), 6));
    assert Decode(code, at + 81) == Some(Fetched(Jcc(Equal, 18), 2));
  }

  predicate High(prog: Program, at: int) {
    && Lists(prog, at + 83, Arith(TEST, R32(EDX), Imm(0xff000000)), 6)
    && Lists(prog, at + 89, Jcc(Equal, 2), 2)
    && Lists(prog, at + 91, Jmp(-57), 2)
  }

  lemma HighDecodes(code: Code, at: int)
    requires Loaded(code, at + 83, HIGH_BYTES)
    ensures High(Disassembly(code), at)
  {
    assert Decode(code, at + 83) == Some(Fetched(Arith(TEST, R32(EDX), Imm(0xff000000)), 6));
    assert Decode(code, at + 89) == Some(Fetched(Jcc(Equal, 2), 2));
    assert Decode(code, at + 91) == Some(Fetched(Jmp(-57), 2));
  }

  predicate Tail4(prog: Program, at: int) {
    && Lists(prog, at + 93, Mov(Mem32(Based(EDI, 0)), R32(EDX)), 2)
    && Lists(prog, at + 95, Mov(R32(EAX), Mem32(Based(ESP, 8))), 4)
    && Lists(prog, at + 99, Pop(EDI), 1)
    && Lists(prog, at + 100, Ret, 1)
  }

  lemma Tail4Decodes(code: Code, at: int)
    requires Loaded(code, at + 93, TAIL4_BYTES)
    ensures Tail4(Disassembly(code), at)
  {
    assert Decode(code, at + 93) == Some(Fetched(Mov(Mem32(Based(EDI, 0)), R32(EDX)), 2));
    assert Decode(code, at + 95) == Some(Fetched(Mov(R32(EAX), Mem32(Based(ESP, 8))), 4));
    assert Decode(code, at + 99) == Some(Fetched(Pop(EDI), 1));
    assert Decode(code, at + 100) == Some(Fetched(Ret, 1));
  }

  predicate Tail3(prog: Program, at: int) {
    && Lists(prog, at + 101, Mov(Mem16(Based(EDI, 0)), R16(EDX)), 3)
    && Lists(prog, at + 104, Mov(R32(EAX), Mem32(Based(ESP, 8))), 4)
    && Lists(prog, at + 108, Mov(Mem8(Based(EDI, 2)), Imm(0)), 4)
    && Lists(prog, at + 112, Pop(EDI), 1)
    && Lists(prog, at + 113, Ret, 1)
  }

  lemma Tail3MovesDecode(code: Code, at: int)
    requires Loaded(code, at + 101, TAIL3_BYTES)
    ensures Decode(code, at + 101) == Some(Fetched(Mov(Mem16(Based(EDI, 0)), R16(EDX)), 3)) && at + 101 in code
    ensures Decode(code, at + 104) == Some(Fetched(Mov(R32(EAX), Mem32(Based(ESP, 8))), 4)) && at + 104 in code
  {}

  lemma Tail3Decodes(code: Code, at: int)
    requires Loaded(code, at + 101, TAIL3_BYTES)
    ensures Tail3(Disassembly(code), at)
  {
    Tail3MovesDecode(code, at);
    assert Decode(code, at + 108) == Some(Fetched(Mov(Mem8(Based(EDI, 2)), Imm(0)), 4));
    assert Decode(code, at + 112) == Some(Fetched(Pop(EDI), 1));
    assert Decode(code, at + 113) == Some(Fetched(Ret, 1));
  }

  predicate Tail2(prog: Program, at: int) {
    && Lists(prog, at + 114, Mov(Mem16(Based(EDI, 0)), R16(EDX)), 3)
    && Lists(prog, at + 117, Mov(R32(EAX), Mem32(Based(ESP, 8))), 4)
    && Lists(prog, at + 121, Pop(EDI), 1)
    && Lists(prog, at + 122, Ret, 1)
  }

  lemma Tail2Decodes(code: Code, at: int)
    requires Loaded(code, at + 114, TAIL2_BYTES)
    ensures Tail2(Disassembly(code), at)
  {
    assert Decode(code, at + 114) == Some(Fetched(Mov(Mem16(Based(EDI, 0)), R16(EDX)), 3));
    assert Decode(code, at + 117) == Some(Fetched(Mov(R32(EAX), Mem32(Based(ESP, 8))), 4));
    assert Decode(code, at + 121) == Some(Fetched(Pop(EDI), 1));
    assert Decode(code, at + 122) == Some(Fetched(Ret, 1));
  }

  predicate Tail1(prog: Program, at: int) {
    && Lists(prog, at + 123, Mov(Mem8(Based(EDI, 0)), Low8(EDX)), 2)
    && Lists(prog, at + 125, Mov(R32(EAX), Mem32(Based(ESP, 8))), 4)
    && Lists(prog, at + 129, Pop(EDI), 1)
    && Lists(prog, at + 130, Ret, 1)
  }

  lemma Tail1Decodes(code: Code, at: int)
    requires Loaded(code, at + 123, TAIL1_BYTES)
    ensures Tail1(Disassembly(code), at)
  {
    assert Decode(code, at + 123) == Some(Fetched(Mov(Mem8(Based(EDI, 0)), Low8(EDX)), 2));
    assert Decode(code, at + 125) == Some(Fetched(Mov(R32(EAX), Mem32(Based(ESP, 8))), 4));
    assert Decode(code, at + 129) == Some(Fetched(Pop(EDI), 1));
    assert Decode(code, at + 130) == Some(Fetched(Ret, 1));
  }

  /** The disassembly of the copier at address at (body at at + 117). */
  predicate Copier(prog: Program, at: int) {
    && Lists(prog, at, Push(R32(EDI)), 1)
    && Lists(prog, at + 1, Mov(R32(EDI), Mem32(Based(ESP, 8))), 4)
    && Lists(prog, at + 5, Jmp(110), 2)
    && CopierBody(prog, at + 117)
  }

  predicate CopierBody(prog: Program, at: int) {
    && Align(prog, at) && Lead(prog, at) && LeadNext(prog, at) && StoreWord(prog, at)
    && Probe(prog, at) && ProbeTest(prog, at) && Low(prog, at) && Mid(prog, at) && High(prog, at)
    && Tail4(prog, at) && Tail3(prog, at) && Tail2(prog, at) && Tail1(prog, at)
  }

  lemma EntryDecodes(code: Code, at: int)
    requires Loaded(code, at, ENTRY)
    ensures Lists(Disassembly(code), at, Push(R32(EDI)), 1)
    ensures Lists(Disassembly(code), at + 1, Mov(R32(EDI), Mem32(Based(ESP, 8))), 4)
    ensures Lists(Disassembly(code), at + 5, Jmp(110), 2)
  {
    assert Decode(code, at) == Some(Fetched(Push(R32(EDI)), 1));
    assert Decode(code, at + 1) == Some(Fetched(Mov(R32(EDI), Mem32(Based(ESP, 8))), 4));
    assert Decode(code, at + 5) == Some(Fetched(Jmp(110), 2));
  }

  /** The bytes of the template are that disassembly. */
  lemma CopierDecodes(code: Code, at: int)
    requires Loaded(code, at, ENTRY) && Loaded(code, at + 117, BODY)
    ensures Copier(Disassembly(code), at)
  {
    EntryDecodes(code, at);
    BodyParts(code, at + 117);
    AlignDecodes(code, at + 117); LeadDecodes(code, at + 117); LeadNextDecodes(code, at + 117);
    StoreWordDecodes(code, at + 117); ProbeDecodes(code, at + 117); ProbeTestDecodes(code, at + 117);
    LowDecodes(code, at + 117); MidDecodes(code, at + 117); HighDecodes(code, at + 117);
    Tail4Decodes(code, at + 117); Tail3Decodes(code, at + 117); Tail2Decodes(code, at + 117);
    Tail1Decodes(code, at + 117);
  }

  lemma BodyParts(code: Code, at: int)
    requires Loaded(code, at, BODY)
    ensures Loaded(code, at + 0, ALIGN_BYTES) && Loaded(code, at + 12, LEAD_BYTES)
            && Loaded(code, at + 23, LEAD_NEXT_BYTES)
    ensures Loaded(code, at + 36, STORE_WORD_BYTES) && Loaded(code, at + 41, PROBE_BYTES)
            && Loaded(code, at + 55, PROBE_TEST_BYTES)
    ensures Loaded(code, at + 67, LOW_BYTES) && Loaded(code, at + 75, MID_BYTES) && Loaded(code, at + 83, HIGH_BYTES)
            && Loaded(code, at + 93, TAIL4_BYTES)
    ensures Loaded(code, at + 101, TAIL3_BYTES) && Loaded(code, at + 114, TAIL2_BYTES)
            && Loaded(code, at + 123, TAIL1_BYTES)
  {
    var words := ALIGN_BYTES + LEAD_BYTES + LEAD_NEXT_BYTES + STORE_WORD_BYTES;
    var probe := words + PROBE_BYTES + PROBE_TEST_BYTES;
    var tests := probe + LOW_BYTES + MID_BYTES + HIGH_BYTES;
    LoadedParts(code, at, tests + TAIL4_BYTES + TAIL3_BYTES + TAIL2_BYTES, TAIL1_BYTES);
    LoadedParts(code, at, tests + TAIL4_BYTES + TAIL3_BYTES, TAIL2_BYTES);
    LoadedParts(code, at, tests + TAIL4_BYTES, TAIL3_BYTES);
    LoadedParts(code, at, tests, TAIL4_BYTES);
    LoadedParts(code, at, probe + LOW_BYTES + MID_BYTES, HIGH_BYTES);
    LoadedParts(code, at, probe + LOW_BYTES, MID_BYTES);
    LoadedParts(code, at, probe, LOW_BYTES);
    LoadedParts(code, at, words + PROBE_BYTES, PROBE_TEST_BYTES);
    LoadedParts(code, at, words, PROBE_BYTES);
    LoadedParts(code, at, ALIGN_BYTES + LEAD_BYTES + LEAD_NEXT_BYTES, STORE_WORD_BYTES);
    LoadedParts(code, at, ALIGN_BYTES + LEAD_BYTES, LEAD_NEXT_BYTES);
    LoadedParts(code, at, ALIGN_BYTES, LEAD_BYTES);
  }
}
