// The observer's predicates about the copy - the register frame at each of the
// five stops and the contents of the destination window - and the proof that
// the helper's own instructions meet them at every stop.

module CwdCopyFrame {
  import opened Words
  import opened X86
  import opened X86Rules
  import opened CwdCopyCode
  import opened CwdCopy
  import opened CwdCopyRun

  // ---- cwd_copy_frame ---------------------------------------------------

  /** What the frame demands of the helper, of the API return, and of the arguments. */
  predicate Admitted(h: Registers, a: Registers, source: u32, destination: u32, length: u32) {
    && 3 <= length <= 126
    && 65536 + 304 <= h.esp <= U32_MAX - 72 && h.esp % 4 == 0 && h.ebp == h.esp + 44
    && source == h.esp - 284
    && 0 < destination <= U32_MAX - 128
    && !(source < destination + 128 && destination < source + 260)
    && a.esp == h.esp - 288 && a.ebp == h.esp - 16 && a.eax == length
    && a.ebx == 0 && a.esi == 0 && a.edi == 24 && !a.flags.tf && !a.flags.df
  }

  predicate CopyFrame(stage: nat, h: Registers, a: Registers, r: Registers,
                      source: u32, destination: u32, length: u32) {
    && 1 <= stage <= 5 && Admitted(h, a, source, destination, length)
    && !r.flags.tf && !r.flags.df && SameControl(r.flags, a.flags)
    && r.ebp == a.ebp && r.ebx == 0 && r.esi == 0 && r.edi == 24
    && r.esp == (if stage <= 2 then h.esp - 288 else if stage == 4 then h.esp - 300 else h.esp - 296)
    && r.eax == (if stage <= 2 then length + 1 else if stage == 5 then destination else source)
    && (stage == 5 ||
        (r.ecx == destination && r.edx == a.edx &&
         if stage == 1 then
           !r.flags.cf && !r.flags.zf && !r.flags.of &&
           r.flags.pf == EvenParity(destination) && r.flags.sf == (destination >= 0x8000_0000)
         else
           r.flags.cf && r.flags.sf && !r.flags.zf && !r.flags.of && r.flags.af == Some(false) &&
           r.flags.pf == EvenParity(Wrap(length + 1 - 128))))
  }

  // ---- cwd_copy_buffer --------------------------------------------------

  predicate Terminated(source: seq<byte>, length: nat)
    requires length < |source|
  {
    source[length] == 0 && forall k :: 0 <= k < length ==> source[k] != 0
  }

  function Expected(before: seq<byte>, source: seq<byte>, length: nat, copied: bool, i: nat): byte
    requires |before| == 136 && |source| == 260 && length <= 126 && i < 136
  {
    if copied && 4 <= i && i - 4 <= length then source[i - 4] else before[i]
  }

  predicate BufferMatches(before: seq<byte>, after: seq<byte>, source: seq<byte>, length: nat, copied: bool)
    requires |before| == 136 && |after| == 136 && |source| == 260
  {
    && 3 <= length <= 126 && Terminated(source, length)
    && forall i :: 0 <= i < 136 ==> after[i] == Expected(before, source, length, copied, i)
  }

  /** cwd_copy_buffer, with the search and the comparison as the loops they are. */
  method CopyBuffer(before: seq<byte>, after: seq<byte>, source: seq<byte>, length: nat, copied: bool)
    returns (ok: bool)
    requires |before| == 136 && |after| == 136 && |source| == 260
    ensures ok == BufferMatches(before, after, source, length, copied)
  {
    if length < 3 || length > 126 || source[length] != 0 {
      return false;
    }
    for k := 0 to length
      invariant forall j :: 0 <= j < k ==> source[j] != 0
    {
      if source[k] == 0 {
        return false;
      }
    }
    for i := 0 to 136
      invariant forall j :: 0 <= j < i ==> after[j] == Expected(before, source, length, copied, j)
    {
      var expected := if copied && i >= 4 && i - 4 <= length then source[i - 4] else before[i];
      if after[i] != expected {
        return false;
      }
    }
    return true;
  }

  // ---- The helper's code ------------------------------------------------

  const CHECKS: seq<byte> := [
    0x85, 0xc0, 0x74, 0xac, 0x40, 0x3d, 0x04, 0x01, 0x00, 0x00, 0x77, 0xa4,
    0x8b, 0x4d, 0x0c, 0x85, 0xc9, 0x75, 0x25
  ]

  const CAPACITY: seq<byte> := [0x3b, 0x45, 0x10, 0x7e, 0x10]

  /** The argument pushes and the call, whose displacement is relative to helper + 231. */
  function CallBytes(helper: u32, copier: u32): seq<byte> {
    [0x8d, 0x85, 0xf4, 0xfe, 0xff, 0xff, 0x50, 0x51, 0xe8] + Bytes(Wrap(copier - (helper + 231)))
  }

  predicate ChecksListed(prog: Program, p: int) {
    && Lists(prog, p, Arith(TEST, R32(EAX), R32(EAX)), 2)
    && Lists(prog, p + 2, Jcc(Equal, -84), 2)
    && Lists(prog, p + 4, Inc(EAX), 1)
    && Lists(prog, p + 5, Arith(CMP, R32(EAX), Imm(0x104)), 5)
    && Lists(prog, p + 10, Jcc(Above, -92), 2)
    && Lists(prog, p + 12, Mov(R32(ECX), Mem32(Based(EBP, 12))), 3)
    && Lists(prog, p + 15, Arith(TEST, R32(ECX), R32(ECX)), 2)
    && Lists(prog, p + 17, Jcc(NotEqual, 37), 2)
  }

  predicate CallListed(prog: Program, p: int, rel: int) {
    && Lists(prog, p, Lea(EAX, Based(EBP, -268)), 6)
    && Lists(prog, p + 6, Push(R32(EAX)), 1)
    && Lists(prog, p + 7, Push(R32(ECX)), 1)
    && Lists(prog, p + 8, Instr.Call(rel), 5)
  }

  lemma ChecksDecode(code: Code, p: int)
    requires Loaded(code, p, CHECKS)
    ensures ChecksListed(Disassembly(code), p)
  {
    hide Loaded, Decode;
    FirstChecks(code, p);
    LimitChecks(code, p);
    LastChecks(code, p);
  }

  lemma FirstChecks(code: Code, p: int)
    requires Loaded(code, p, CHECKS)
    ensures Decode(code, p) == Some(Fetched(Arith(TEST, R32(EAX), R32(EAX)), 2))
    ensures Decode(code, p + 2) == Some(Fetched(Jcc(Equal, -84), 2))
    ensures p in code && p + 2 in code
  {}

  lemma LimitChecks(code: Code, p: int)
    requires Loaded(code, p, CHECKS)
    ensures Decode(code, p + 4) == Some(Fetched(Inc(EAX), 1))
    ensures Decode(code, p + 5) == Some(Fetched(Arith(CMP, R32(EAX), Imm(0x104)), 5))
    ensures p + 4 in code && p + 5 in code
  {}

  lemma LastChecks(code: Code, p: int)
    requires Loaded(code, p, CHECKS)
    ensures Decode(code, p + 10) == Some(Fetched(Jcc(Above, -92), 2))
    ensures Decode(code, p + 12) == Some(Fetched(Mov(R32(ECX), Mem32(Based(EBP, 12))), 3))
    ensures Decode(code, p + 15) == Some(Fetched(Arith(TEST, R32(ECX), R32(ECX)), 2))
    ensures Decode(code, p + 17) == Some(Fetched(Jcc(NotEqual, 37), 2))
    ensures p + 10 in code && p + 12 in code && p + 15 in code && p + 17 in code
  {}

  lemma CapacityDecodes(code: Code, p: int)
    requires Loaded(code, p, CAPACITY)
    ensures Lists(Disassembly(code), p, Arith(CMP, R32(EAX), Mem32(Based(EBP, 16))), 3)
    ensures Lists(Disassembly(code), p + 3, Jcc(LessOrEqual, 16), 2)
  {
    assert Decode(code, p) == Some(Fetched(Arith(CMP, R32(EAX), Mem32(Based(EBP, 16))), 3));
    assert Decode(code, p + 3) == Some(Fetched(Jcc(LessOrEqual, 16), 2));
  }

  lemma CallDecodes(code: Code, p: int, helper: u32, copier: u32)
    requires Loaded(code, p, CallBytes(helper, copier))
    ensures CallListed(Disassembly(code), p, Signed32(Wrap(copier - (helper + 231))))
  {
    hide ByteOf;
    var delta := Wrap(copier - (helper + 231));
    JoinBytes(delta);
    var text := CallBytes(helper, copier);
    assert text[9] == ByteOf(delta, 0) && text[10] == ByteOf(delta, 1);
    assert text[11] == ByteOf(delta, 2) && text[12] == ByteOf(delta, 3);
    assert Word(code, p + 9) == delta;
    assert Decode(code, p) == Some(Fetched(Lea(EAX, Based(EBP, -268)), 6));
    assert Decode(code, p + 6) == Some(Fetched(Push(R32(EAX)), 1));
    assert Decode(code, p + 7) == Some(Fetched(Push(R32(ECX)), 1));
    assert Decode(code, p + 8) == Some(Fetched(Instr.Call(Signed32(delta)), 5));
  }

  // ---- The path through the stops ---------------------------------------

  /** The state at the API return: the length in EAX, the caller's arguments in place. */
  ghost predicate AtApiReturn(s: Cpu, helper: u32, h: Registers, src: u32, dst: u32, len: nat) {
    && s.eip == helper + 141 && helper < M32 - 247
    && len <= 126 && Admitted(h, s.r, src, dst, len)
    && Load32(s.mem, h.esp - 4) == Some(dst) && Load32(s.mem, h.esp) == Some(128)
    && (forall a :: h.esp - 304 <= a < h.esp - 288 ==> a in s.mem)
    && Source(s.mem, src, len)
    && (forall a :: dst <= a < dst + 128 ==> a in s.mem)
    && Apart(dst - 4, 136, h.esp - 304, 16)
  }

  /** The length test and the decrement of the checks. */
  lemma CountsLength(prog: Program, s: Cpu, helper: u32, h: Registers, src: u32, dst: u32, len: nat) returns (t: Cpu)
    requires ChecksListed(prog, helper + 141) && AtApiReturn(s, helper, h, src, dst, len)
    ensures Reaches(prog, s, t) && t.eip == helper + 146 && t.mem == s.mem && t.fs == s.fs
    ensures t.r == s.r.(eax := len + 1, flags := t.r.flags) && SameControl(t.r.flags, s.r.flags)
  {
    hide Reaches, Run, Step, Load32, Source, EvenParity, Words.And;
    Stay(prog, s);
    AndSelf(len);
    t := AluRule(prog, s, s, TEST, EAX, R32(EAX), 2, len);
    t := JccRule(prog, s, t, Equal, -84, 2);
    t := IncRule(prog, s, t, EAX);
  }

  /** Stop 1: before the JNE of the destination check. */
  lemma ToStop1(prog: Program, s: Cpu, helper: u32, h: Registers, src: u32, dst: u32, len: nat) returns (t: Cpu)
    requires ChecksListed(prog, helper + 141) && AtApiReturn(s, helper, h, src, dst, len)
    ensures Reaches(prog, s, t) && t.eip == helper + 158 && t.mem == s.mem && t.fs == s.fs
    ensures CopyFrame(1, h, s.r, t.r, src, dst, len)
  {
    hide Reaches, Run, Step, Load32, Source, EvenParity, Words.And;
    AndSelf(dst);
    t := CountsLength(prog, s, helper, h, src, dst, len);
    t := AluRule(prog, s, t, CMP, EAX, Imm(0x104), 5, 0x104);
    t := JccRule(prog, s, t, Above, -92, 2);
    t := LoadRule(prog, s, t, ECX, Based(EBP, 12), 3, dst);
    t := AluRule(prog, s, t, TEST, ECX, R32(ECX), 2, dst);
  }

  /** Stop 2: before the JLE of the capacity check. */
  lemma ToStop2(prog: Program, a: Registers, s: Cpu, helper: u32, h: Registers, src: u32, dst: u32, len: nat)
      returns (t: Cpu)
    requires ChecksListed(prog, helper + 141) && helper < M32 - 247
    requires Lists(prog, helper + 197, Arith(CMP, R32(EAX), Mem32(Based(EBP, 16))), 3)
    requires s.eip == helper + 158 && len <= 126 && CopyFrame(1, h, a, s.r, src, dst, len)
    requires Load32(s.mem, h.esp) == Some(128)
    ensures Reaches(prog, s, t) && t.eip == helper + 200 && t.mem == s.mem && t.fs == s.fs
    ensures CopyFrame(2, h, a, t.r, src, dst, len)
  {
    hide Reaches, Run, Step, Load32, EvenParity;
    Stay(prog, s);
    t := JccRule(prog, s, s, NotEqual, 37, 2);
    t := AluRule(prog, s, t, CMP, EAX, Mem32(Based(EBP, 16)), 3, 128);
  }

  /** Stop 3: before the CALL, with both arguments pushed. */
  lemma ToStop3(prog: Program, a: Registers, s: Cpu, helper: u32, h: Registers, src: u32, dst: u32, len: nat,
                rel: int, m1: Memory, m2: Memory) returns (t: Cpu)
    requires helper < M32 - 247
    requires Lists(prog, helper + 200, Jcc(LessOrEqual, 16), 2) && CallListed(prog, helper + 218, rel)
    requires s.eip == helper + 200 && len <= 126 && CopyFrame(2, h, a, s.r, src, dst, len)
    requires Store32(s.mem, h.esp - 292, src) == Some(m1) && Store32(m1, h.esp - 296, dst) == Some(m2)
    ensures Reaches(prog, s, t) && t.eip == helper + 226 && t.mem == m2 && t.fs == s.fs
    ensures CopyFrame(3, h, a, t.r, src, dst, len)
  {
    hide Reaches, Run, Step, Load32, Store32, EvenParity;
    Stay(prog, s);
    t := JccRule(prog, s, s, LessOrEqual, 16, 2);
    t := LeaRule(prog, s, t, EAX, Based(EBP, -268), 6);
    t := PushRule(prog, s, t, R32(EAX), 1, src, m1);
    t := PushRule(prog, s, t, R32(ECX), 1, dst, m2);
  }

  /** Stop 4: the entry of the copier. */
  lemma ToStop4(prog: Program, a: Registers, s: Cpu, helper: u32, copier: u32, h: Registers, src: u32, dst: u32,
                len: nat, m3: Memory) returns (t: Cpu)
    requires helper < M32 - 247
    requires CallListed(prog, helper + 218, Signed32(Wrap(copier - (helper + 231))))
    requires s.eip == helper + 226 && len <= 126 && CopyFrame(3, h, a, s.r, src, dst, len)
    requires Store32(s.mem, h.esp - 300, helper + 231) == Some(m3)
    ensures Reaches(prog, s, t) && t.eip == copier && t.mem == m3 && t.fs == s.fs
    ensures CopyFrame(4, h, a, t.r, src, dst, len)
  {
    hide Reaches, Run, Step, Load32, Store32, EvenParity;
    Stay(prog, s);
    t := CallRule(prog, s, s, Signed32(Wrap(copier - (helper + 231))), 5, m3);
  }

  /** The three pushes: what they put in place and what they keep. */
  lemma Pushes(s: Cpu, helper: u32, h: Registers, src: u32, dst: u32, len: nat)
    returns (m1: Memory, m2: Memory, m3: Memory)
    requires AtApiReturn(s, helper, h, src, dst, len)
    ensures Store32(s.mem, h.esp - 292, src) == Some(m1) && Store32(m1, h.esp - 296, dst) == Some(m2)
    ensures Store32(m2, h.esp - 300, helper + 231) == Some(m3)
    ensures m3.Keys == s.mem.Keys
    ensures forall x {:trigger m3[x]} :: x in s.mem && !(h.esp - 300 <= x < h.esp - 288) ==> m3[x] == s.mem[x]
    ensures Load32(m3, h.esp - 300) == Some(helper + 231)
    ensures Load32(m3, h.esp - 296) == Some(dst) && Load32(m3, h.esp - 292) == Some(src)
    ensures Source(m3, src, len)
  {
    hide Load32, Store32, Source, ByteOf, EvenParity;
    var a1, a2, a3 := h.esp - 292, h.esp - 296, h.esp - 300;
    assert a1 in s.mem && a1 + 1 in s.mem && a1 + 2 in s.mem && a1 + 3 in s.mem;
    assert a2 in s.mem && a2 + 1 in s.mem && a2 + 2 in s.mem && a2 + 3 in s.mem;
    assert a3 in s.mem && a3 + 1 in s.mem && a3 + 2 in s.mem && a3 + 3 in s.mem;
    m1 := Effect32(s.mem, a1, src);
    LoadStored(m1, a1, src);
    SourceKept(s.mem, m1, src, len, a1);
    m2 := Effect32(m1, a2, dst);
    LoadStored(m2, a2, dst);
    LoadKept(m1, m2, a2, a1, 4);
    SourceKept(m1, m2, src, len, a2);
    m3 := Effect32(m2, a3, helper + 231);
    LoadStored(m3, a3, helper + 231);
    LoadKept(m2, m3, a3, a1, 4);
    LoadKept(m2, m3, a3, a2, 4);
    SourceKept(m2, m3, src, len, a3);
    forall x | x in s.mem && !(h.esp - 300 <= x < h.esp - 288) ensures m3[x] == s.mem[x] {
      assert m2[x] == m3[x] && m1[x] == m2[x];
    }
  }

  lemma CallableAtEntry(s: Cpu, t: Cpu, helper: u32, h: Registers, src: u32, dst: u32, len: nat)
    requires AtApiReturn(s, helper, h, src, dst, len) && t.r.esp == h.esp - 300
    requires t.mem.Keys == s.mem.Keys && Source(t.mem, src, len)
    requires Load32(t.mem, h.esp - 300) == Some(helper + 231)
    requires Load32(t.mem, h.esp - 296) == Some(dst) && Load32(t.mem, h.esp - 292) == Some(src)
    ensures Callable(t, src, dst, len, helper + 231)
  {
    hide Load32, Source, EvenParity;
  }

  lemma BufferOf(s: Cpu, m3: Memory, t: Cpu, u: Cpu, helper: u32, h: Registers, src: u32, dst: u32, len: nat)
    requires AtApiReturn(s, helper, h, src, dst, len) && 3 <= len
    requires m3.Keys == s.mem.Keys && t.mem == m3 && t.r.esp == h.esp - 300
    requires forall x {:trigger m3[x]} :: x in s.mem && !(h.esp - 300 <= x < h.esp - 288) ==> m3[x] == s.mem[x]
    requires CopyEffect(t, u.mem, src, dst, len)
    ensures BufferMatches(Window(s.mem, dst - 4, 136), Window(u.mem, dst - 4, 136), Window(s.mem, src, 260), len, true)
  {
    hide Load32, ByteOf, EvenParity;
    var before, after, source := Window(s.mem, dst - 4, 136), Window(u.mem, dst - 4, 136), Window(s.mem, src, 260);
    forall i | 0 <= i < 136 ensures after[i] == Expected(before, source, len, true, i) {
      var a := dst - 4 + i;
      assert after[i] == At(u.mem, a) && before[i] == At(s.mem, a);
      assert a in u.mem <==> a in s.mem;
      if 4 <= i && i - 4 <= len {
        var x := src + (i - 4);
        assert a in s.mem && x in s.mem && m3[x] == s.mem[x];
        assert u.mem[a] == At(m3, src + (a - dst));
        assert source[i - 4] == At(s.mem, x);
      } else if a in s.mem {
        assert u.mem[a] == m3[a] && m3[a] == s.mem[a];
      }
    }
  }

  /** From the API return, the helper runs through the five stops; every frame and
      the copied buffer are what the observer demands. */
  lemma HelperCopies(code: Code, s: Cpu, helper: u32, copier: u32, h: Registers, src: u32, dst: u32, len: nat)
    returns (run: seq<Cpu>)
    requires Loaded(code, helper + 141, CHECKS) && Loaded(code, helper + 197, CAPACITY)
    requires Loaded(code, helper + 218, CallBytes(helper, copier))
    requires Loaded(code, copier, ENTRY) && Loaded(code, copier + 117, BODY) && copier < M32 - 248
    requires AtApiReturn(s, helper, h, src, dst, len)
    ensures |run| == 5
    ensures forall k :: 0 <= k < 5 ==>
              Reaches(Disassembly(code), if k == 0 then s else run[k - 1], run[k]) &&
              CopyFrame(k + 1, h, s.r, run[k].r, src, dst, len)
    ensures run[0].eip == helper + 158 && run[1].eip == helper + 200 && run[2].eip == helper + 226
    ensures run[3].eip == copier && run[4].eip == helper + 231
    ensures BufferMatches(Window(s.mem, dst - 4, 136), Window(run[4].mem, dst - 4, 136),
                          Window(s.mem, src, 260), len, true)
    ensures Window(run[4].mem, src, len + 1) == Window(s.mem, src, len + 1)
  {
    hide Load32, Store32, Source, ByteOf, EvenParity, Reaches, Loaded, Disassembly, CopyEffect, BufferMatches,
         ChecksListed, CallListed, At;
    var prog := Disassembly(code);
    ChecksDecode(code, helper + 141);
    CapacityDecodes(code, helper + 197);
    CallDecodes(code, helper + 218, helper, copier);
    var m1, m2, m3 := Pushes(s, helper, h, src, dst, len);
    var s1 := ToStop1(prog, s, helper, h, src, dst, len);
    var s2 := ToStop2(prog, s.r, s1, helper, h, src, dst, len);
    var s3 := ToStop3(prog, s.r, s2, helper, h, src, dst, len, Signed32(Wrap(copier - (helper + 231))), m1, m2);
    var s4 := ToStop4(prog, s.r, s3, helper, copier, h, src, dst, len, m3);
    CallableAtEntry(s, s4, helper, h, src, dst, len);
    CopierRuns(code, copier, s4, src, dst, len, helper + 231);
    var s5 :| Reaches(prog, s4, s5) && CopyDone(s4, s5, src, dst, len, helper + 231);
    BufferOf(s, m3, s4, s5, helper, h, src, dst, len);
    SourceUnchanged(s, m3, s4, s5.mem, helper, h, src, dst, len);
    run := [s1, s2, s3, s4, s5];
  }

  lemma SourceByteKept(s: Cpu, m3: Memory, t: Cpu, m: Memory, helper: u32, h: Registers, src: u32, dst: u32,
                       len: nat, x: int)
    requires AtApiReturn(s, helper, h, src, dst, len) && src <= x <= src + len
    requires m3.Keys == s.mem.Keys && t.mem == m3 && t.r.esp == h.esp - 300
    requires forall x {:trigger m3[x]} :: x in s.mem && !(h.esp - 300 <= x < h.esp - 288) ==> m3[x] == s.mem[x]
    requires CopyEffect(t, m, src, dst, len)
    ensures At(m, x) == At(s.mem, x)
  {
    hide Load32, ByteOf, EvenParity;
    if x in s.mem {
      assert m[x] == m3[x];
      assert m3[x] == s.mem[x];
    }
  }

  lemma SourceUnchanged(s: Cpu, m3: Memory, t: Cpu, m: Memory, helper: u32, h: Registers, src: u32, dst: u32, len: nat)
    requires AtApiReturn(s, helper, h, src, dst, len)
    requires m3.Keys == s.mem.Keys && t.mem == m3 && t.r.esp == h.esp - 300
    requires forall x {:trigger m3[x]} :: x in s.mem && !(h.esp - 300 <= x < h.esp - 288) ==> m3[x] == s.mem[x]
    requires CopyEffect(t, m, src, dst, len)
    ensures Window(m, src, len + 1) == Window(s.mem, src, len + 1)
  {
    var now, was := Window(m, src, len + 1), Window(s.mem, src, len + 1);
    forall k | 0 <= k < len + 1 ensures now[k] == was[k] {
      SourceByteKept(s, m3, t, m, helper, h, src, dst, len, src + k);
      hide At, AtApiReturn, CopyEffect;
    }
  }
}
