// Executing the copier: it ends, copies exactly the string with its NUL, and
// leaves every other byte of memory and every callee-saved register alone.

module CwdCopy {
  import opened Words
  import opened X86
  import opened X86Rules
  import opened CwdCopyCode

  /** One call of the copier: its arguments, the state behind PUSH EDI, the caller's registers. */
  datatype CopyCall = CopyCall(src: u32, dst: u32, len: nat, ret: u32, m0: Memory, r0: Registers, fs: u32)

  /** A NUL-terminated source, whose last aligned word is mapped to its end. */
  ghost predicate Source(m: Memory, src: u32, len: nat) {
    && src + len < M32
    && (forall a :: src <= a <= src + len ==> a in m)
    && (forall a {:trigger At(m, a)} :: src <= a < src + len ==> At(m, a) != 0)
    && At(m, src + len) == 0
    && (var w := src + len - (src + len) % 4; forall a :: src <= a && w <= a < w + 4 ==> a in m)
  }

  /** The frame of the body: saved EDI, return address, destination, source. */
  ghost predicate Ready(c: CopyCall) {
    && Source(c.m0, c.src, c.len)
    && c.dst + c.len < M32
    && (forall a :: c.dst <= a <= c.dst + c.len ==> a in c.m0)
    && Apart(c.src, c.len + 1, c.dst, c.len + 1)
    && c.r0.esp >= 4
    && Load32(c.m0, c.r0.esp - 4) == Some(c.r0.edi)
    && Load32(c.m0, c.r0.esp) == Some(c.ret)
    && Load32(c.m0, c.r0.esp + 4) == Some(c.dst)
    && Load32(c.m0, c.r0.esp + 8) == Some(c.src)
    && Apart(c.dst, c.len + 1, c.r0.esp - 4, 16)
  }

  /** The first n destination bytes hold the source's; all other bytes are as before. */
  ghost predicate Copied(c: CopyCall, m: Memory, n: int) {
    && m.Keys == c.m0.Keys
    && forall a {:trigger m[a]} :: a in m ==>
         m[a] == if c.dst <= a < c.dst + n then At(c.m0, c.src + (a - c.dst)) else c.m0[a]
  }

  /** EBX, ESI, EBP, FS and the control flags are the caller's. */
  predicate Kept(c: CopyCall, s: Cpu) {
    && s.r.ebx == c.r0.ebx && s.r.esi == c.r0.esi && s.r.ebp == c.r0.ebp && s.fs == c.fs
    && SameControl(s.r.flags, c.r0.flags)
  }

  /** Inside the body, i bytes copied and known to be nonzero. */
  ghost predicate Inside(c: CopyCall, s: Cpu, i: nat) {
    && Ready(c) && Kept(c, s) && s.r.esp == c.r0.esp - 4
    && i <= c.len && s.r.edi == c.dst + i
    && Copied(c, s.mem, i)
  }

  /** The cdecl return with the destination in EAX. */
  ghost predicate Returned(c: CopyCall, s: Cpu) {
    && Kept(c, s) && s.eip == c.ret && s.r.esp == Wrap(c.r0.esp + 4)
    && s.r.eax == c.dst && s.r.edi == c.r0.edi
    && Copied(c, s.mem, c.len + 1)
  }

  // ---- The stack frame survives ---------------------------------------

  lemma FrameWords(c: CopyCall, m: Memory, n: nat)
    requires Ready(c) && n <= c.len + 1 && Copied(c, m, n)
    ensures Load32(m, c.r0.esp - 4) == Some(c.r0.edi)
    ensures Load32(m, c.r0.esp) == Some(c.ret)
    ensures Load32(m, c.r0.esp + 4) == Some(c.dst)
    ensures Load32(m, c.r0.esp + 8) == Some(c.src)
  {
    hide Load32, Source;
    LoadKept(c.m0, m, c.dst, c.r0.esp - 4, n);
    LoadKept(c.m0, m, c.dst, c.r0.esp, n);
    LoadKept(c.m0, m, c.dst, c.r0.esp + 4, n);
    LoadKept(c.m0, m, c.dst, c.r0.esp + 8, n);
  }

  /** Storing the next k source bytes extends the copy. */
  lemma Extend(c: CopyCall, m: Memory, i: nat, m': Memory, k: nat)
    requires Ready(c) && Copied(c, m, i) && i + k <= c.len + 1
    requires m'.Keys == m.Keys
    requires forall a :: a in m && !(c.dst + i <= a < c.dst + i + k) ==> m'[a] == m[a]
    requires forall a {:trigger m'[a]} ::
               c.dst + i <= a < c.dst + i + k ==> m'[a] == At(c.m0, c.src + (a - c.dst))
    ensures Copied(c, m', i + k)
  {
    forall a | a in m'
      ensures m'[a] == if c.dst <= a < c.dst + (i + k) then At(c.m0, c.src + (a - c.dst)) else c.m0[a]
    {
      if !(c.dst + i <= a < c.dst + i + k) {
        assert m'[a] == m[a];
      }
    }
  }

  // ---- Returning -------------------------------------------------------

  /** The state behind POP EDI; RET. */
  function Popped(s: Cpu, edi: u32, ret: u32): Cpu {
    s.(eip := ret, r := s.r.(edi := edi, esp := Wrap(Wrap(s.r.esp + 4) + 4), flags := Resume(s.r.flags)))
  }

  lemma PopRet(prog: Program, at: int, s0: Cpu, s: Cpu, edi: u32, ret: u32)
    requires Lists(prog, at, Pop(EDI), 1) && Lists(prog, at + 1, Ret, 1)
    requires s.eip == at && 0 <= at < M32 - 2 && s.r.esp < M32 - 8
    requires Load32(s.mem, s.r.esp) == Some(edi) && Load32(s.mem, s.r.esp + 4) == Some(ret)
    requires Reaches(prog, s0, s)
    ensures Reaches(prog, s0, Popped(s, edi, ret))
  {
    hide Reaches, Run, Step, Load32, ByteOf, Join;
    var t := PopRule(prog, s0, s, EDI, edi);
    t := RetRule(prog, s0, t, ret);
  }

  /** MOV EAX,[ESP+8]; POP EDI; RET behind the last store. */
  lemma LoadPopRet(prog: Program, at: int, s0: Cpu, s: Cpu, dst: u32, edi: u32, ret: u32)
    requires Lists(prog, at, Mov(R32(EAX), Mem32(Based(ESP, 8))), 4)
    requires Lists(prog, at + 4, Pop(EDI), 1) && Lists(prog, at + 5, Ret, 1)
    requires s.eip == at && 0 <= at < M32 - 6 && s.r.esp < M32 - 12
    requires Load32(s.mem, s.r.esp) == Some(edi) && Load32(s.mem, s.r.esp + 4) == Some(ret)
    requires Load32(s.mem, s.r.esp + 8) == Some(dst)
    requires Reaches(prog, s0, s)
    ensures Reaches(prog, s0, Popped(s.(r := s.r.(eax := dst)), edi, ret))
  {
    hide Reaches, Run, Step, Load32, ByteOf, Join;
    var t := LoadRule(prog, s0, s, EAX, Based(ESP, 8), 4, dst);
    PopRet(prog, at + 4, s0, t, edi, ret);
    assert Popped(t, edi, ret) == Popped(s.(r := s.r.(eax := dst)), edi, ret);
  }

  /** The machine state is past the last store of the copy. */
  ghost predicate Stored(c: CopyCall, s: Cpu) {
    && Ready(c) && Kept(c, s) && s.r.esp == c.r0.esp - 4 && Copied(c, s.mem, c.len + 1)
  }

  lemma Finish(prog: Program, at: int, c: CopyCall, s0: Cpu, s: Cpu)
    requires Lists(prog, at, Mov(R32(EAX), Mem32(Based(ESP, 8))), 4)
    requires Lists(prog, at + 4, Pop(EDI), 1) && Lists(prog, at + 5, Ret, 1)
    requires s.eip == at && 0 <= at < M32 - 6
    requires Stored(c, s) && Reaches(prog, s0, s)
    ensures exists t :: Reaches(prog, s0, t) && Returned(c, t)
  {
    hide Reaches, Run, Step, Load32, ByteOf, Join;
    FrameWords(c, s.mem, c.len + 1);
    FrameBound(c);
    LoadPopRet(prog, at, s0, s, c.dst, c.r0.edi, c.ret);
    assert Returned(c, Popped(s.(r := s.r.(eax := c.dst)), c.r0.edi, c.ret));
  }

  lemma FrameBound(c: CopyCall)
    requires Ready(c)
    ensures 4 <= c.r0.esp < M32 - 11
  {}

  lemma DestinationMapped(c: CopyCall, m: Memory, i: nat, k: nat)
    requires Ready(c) && Copied(c, m, i) && i + k <= c.len + 1
    ensures forall a :: c.dst + i <= a < c.dst + i + k ==> 0 <= a < M32 && a in m
  {}

  lemma StoreOne(c: CopyCall, m: Memory, i: nat, v: u32) returns (m': Memory)
    requires Ready(c) && Copied(c, m, i) && i <= c.len
    requires ByteOf(v, 0) == At(c.m0, c.src + i)
    ensures Store8(m, c.dst + i, v) == Some(m') && Copied(c, m', i + 1)
  {
    hide *;
    DestinationMapped(c, m, i, 1);
    assert c.dst + i in m;
    m' := Effect8(m, c.dst + i, v);
    Extend(c, m, i, m', 1);
  }

  /** A 16-bit store of two source bytes. */
  lemma StoreTwo(c: CopyCall, m: Memory, i: nat, v: u32) returns (m': Memory)
    requires Ready(c) && Copied(c, m, i) && i + 1 <= c.len
    requires ByteOf(v, 0) == At(c.m0, c.src + i) && ByteOf(v, 1) == At(c.m0, c.src + (i + 1))
    ensures Store16(m, c.dst + i, Low16(v)) == Some(m') && Copied(c, m', i + 2)
  {
    hide *;
    HalfBytes(v);
    DestinationMapped(c, m, i, 2);
    assert c.dst + i in m && c.dst + i + 1 in m && c.dst + i + 1 < M32;
    m' := Effect16(m, c.dst + i, Low16(v));
    Extend(c, m, i, m', 2);
  }

  /** A dword store of four source bytes. */
  lemma StoreFour(c: CopyCall, m: Memory, i: nat, v: u32) returns (m': Memory)
    requires Ready(c) && Copied(c, m, i) && i + 3 <= c.len
    requires FourBytes(c, i, v)
    ensures Store32(m, c.dst + i, v) == Some(m') && Copied(c, m', i + 4)
  {
    hide *;
    DestinationMapped(c, m, i, 4);
    assert c.dst + i in m && c.dst + i + 1 in m && c.dst + i + 2 in m && c.dst + i + 3 in m;
    assert c.dst + i + 3 < M32;
    FourBytesAre(c, i, v);
    m' := Effect32(m, c.dst + i, v);
    Extend(c, m, i, m', 4);
  }

  /** v holds the four source bytes from i on. */
  predicate FourBytes(c: CopyCall, i: nat, v: u32) {
    && ByteOf(v, 0) == At(c.m0, c.src + i) && ByteOf(v, 1) == At(c.m0, c.src + (i + 1))
    && ByteOf(v, 2) == At(c.m0, c.src + (i + 2)) && ByteOf(v, 3) == At(c.m0, c.src + (i + 3))
  }

  lemma DestinationBound(c: CopyCall, i: nat)
    requires Ready(c) && i <= c.len
    ensures c.dst + i < M32 && c.src + i < M32
  {}

  lemma SourceEnd(c: CopyCall)
    requires Ready(c)
    ensures At(c.m0, c.src + c.len) == 0
  {}

  lemma FourBytesAre(c: CopyCall, i: nat, v: u32)
    requires FourBytes(c, i, v)
    ensures ByteOf(v, 0) == At(c.m0, c.src + i) && ByteOf(v, 1) == At(c.m0, c.src + (i + 1))
    ensures ByteOf(v, 2) == At(c.m0, c.src + (i + 2)) && ByteOf(v, 3) == At(c.m0, c.src + (i + 3))
  {}

  lemma Tail1Ends(prog: Program, at: int, c: CopyCall, s0: Cpu, s: Cpu)
    requires Tail1(prog, at) && 0 <= at < M32 - 131 && s.eip == at + 123
    requires Inside(c, s, c.len) && ByteOf(s.r.edx, 0) == 0
    requires Reaches(prog, s0, s)
    ensures exists t :: Reaches(prog, s0, t) && Returned(c, t)
  {
    hide Copied, Ready, Source, Reaches, Run, Step, Load32, ByteOf, Store8;
    ByteOfByte(0);
    SourceEnd(c);
    DestinationBound(c, c.len);
    var m := StoreOne(c, s.mem, c.len, 0);
    var t := StoreByteRule(prog, s0, s, Based(EDI, 0), Low8(EDX), 2, 0, m);
    Finish(prog, at + 125, c, s0, t);
  }

  lemma Tail2Ends(prog: Program, at: int, c: CopyCall, s0: Cpu, s: Cpu, i: nat)
    requires Tail2(prog, at) && 0 <= at < M32 - 131 && s.eip == at + 114
    requires Inside(c, s, i) && c.len == i + 1
    requires ByteOf(s.r.edx, 0) == At(c.m0, c.src + i) && ByteOf(s.r.edx, 1) == 0
    requires Reaches(prog, s0, s)
    ensures exists t :: Reaches(prog, s0, t) && Returned(c, t)
  {
    hide Copied, Ready, Source, Reaches, Run, Step, Load32, ByteOf, Join;
    hide Store16, Low16;
    SourceEnd(c);
    var m := StoreTwo(c, s.mem, i, s.r.edx);
    var t := StoreHalfRule(prog, s0, s, Based(EDI, 0), EDX, 3, m);
    Finish(prog, at + 117, c, s0, t);
  }

  lemma Tail3Ends(prog: Program, at: int, c: CopyCall, s0: Cpu, s: Cpu, i: nat)
    requires Tail3(prog, at) && 0 <= at < M32 - 131 && s.eip == at + 101
    requires Inside(c, s, i) && c.len == i + 2
    requires ByteOf(s.r.edx, 0) == At(c.m0, c.src + i) && ByteOf(s.r.edx, 1) == At(c.m0, c.src + (i + 1))
    requires Reaches(prog, s0, s)
    ensures exists t :: Reaches(prog, s0, t) && Returned(c, t)
  {
    hide Copied, Ready, Source, Reaches, Run, Step, Load32, ByteOf, Join;
    hide Store16, Low16, Store8;
    ByteOfByte(0);
    SourceEnd(c);
    DestinationBound(c, c.len);
    var m := StoreTwo(c, s.mem, i, s.r.edx);
    FrameWords(c, m, i + 2);
    FrameBound(c);
    var t := StoreHalfRule(prog, s0, s, Based(EDI, 0), EDX, 3, m);
    var u := LoadRule(prog, s0, t, EAX, Based(ESP, 8), 4, c.dst);
    var m' := StoreOne(c, m, i + 2, 0);
    var w := StoreByteRule(prog, s0, u, Based(EDI, 2), Imm(0), 4, 0, m');
    FrameWords(c, m', c.len + 1);
    FrameBound(c);
    PopRet(prog, at + 112, s0, w, c.r0.edi, c.ret);
    assert Returned(c, Popped(w, c.r0.edi, c.ret));
  }

  lemma Tail4Ends(prog: Program, at: int, c: CopyCall, s0: Cpu, s: Cpu, i: nat)
    requires Tail4(prog, at) && 0 <= at < M32 - 131 && s.eip == at + 93
    requires Inside(c, s, i) && c.len == i + 3
    requires FourBytes(c, i, s.r.edx)
    requires Reaches(prog, s0, s)
    ensures exists t :: Reaches(prog, s0, t) && Returned(c, t)
  {
    hide Copied, Ready, Source, Reaches, Run, Step, Load32, Store32, ByteOf, Join;
    var m := StoreFour(c, s.mem, i, s.r.edx);
    var t := StoreRule(prog, s0, s, Based(EDI, 0), R32(EDX), 2, s.r.edx, m);
    Finish(prog, at + 95, c, s0, t);
  }

  // ---- The zero-byte test ----------------------------------------------

  /** The four probe bits of ((x + 0x7efefeff) ^ ~x) & 0x81010100. */
  lemma ProbeBits(x: u32, e: u32, p: u32)
    requires p == Xor(Xor(x, U32_MAX), e)
    ensures And(p, 0x8101_0100) == 0 <==>
            (x / 0x100) % 2 != (e / 0x100) % 2 && (x / 0x1_0000) % 2 != (e / 0x1_0000) % 2 &&
            (x / 0x100_0000) % 2 != (e / 0x100_0000) % 2 && (x >= 0x8000_0000) != (e >= 0x8000_0000)
  {
    forall k: nat | k < 32 ensures Bit(p, k) == (Bit(x, k) == Bit(e, k)) {
      XorBit(Xor(x, U32_MAX), e, k);
      XorBit(x, U32_MAX, k);
      NotBit(0, k);
      ZeroHasNoBits(k);
    }
    assert Bit(p, 8) == (Bit(x, 8) == Bit(e, 8)) && Bit(p, 16) == (Bit(x, 16) == Bit(e, 16));
    assert Bit(p, 24) == (Bit(x, 24) == Bit(e, 24)) && Bit(p, 31) == (Bit(x, 31) == Bit(e, 31));
    BitDigits(x); BitDigits(e); BitDigits(p);
    MaskTest(p);
  }

  /** The four bits the mask 0x81010100 selects. */
  lemma MaskTest(p: u32)
    ensures And(p, 0x8101_0100) == 0 <==>
            (p / 0x100) % 2 == 0 && (p / 0x1_0000) % 2 == 0 &&
            (p / 0x100_0000) % 2 == 0 && p < 0x8000_0000
  {
    hide Words.And;
    var p1 := p / 256;
    var p2 := p1 / 256;
    var p3 := p2 / 256;
    AndSplit8(p, 0, 0x81_0101);
    AndNothing(p % 256);
    AndSplit8(p1, 1, 0x8101);
    AndSplit8(p2, 1, 0x81);
    AndOne(p1 % 256); AndOne(p2 % 256);
    And81(p3);
    Shifts(p);
  }

  lemma Shifts(p: u32)
    ensures p / 256 / 256 == p / 0x1_0000 && p / 256 / 256 / 256 == p / 0x100_0000 < 256
    ensures p / 256 % 256 % 2 == p / 256 % 2 && p / 0x1_0000 % 256 % 2 == p / 0x1_0000 % 2
  {
    var p1, b0 := p / 256, p % 256;
    var p2, b1 := p1 / 256, p1 % 256;
    var p3, b2 := p2 / 256, p2 % 256;
    Divided65536(p2, 256 * b1 + b0);
    assert p == 0x1_0000 * p2 + (256 * b1 + b0);
    Divided16M(p3, 0x1_0000 * b2 + 256 * b1 + b0);
    assert p == 0x100_0000 * p3 + (0x1_0000 * b2 + 256 * b1 + b0);
    LowBitKept(p2, b1);
    LowBitKept(p3, b2);
  }

  lemma LowBitKept(q: nat, r: nat)
    ensures (256 * q + r) % 2 == r % 2
  {
    assert 256 * q + r == 2 * (128 * q) + r;
  }

  lemma AndOne(x: nat)
    ensures And(x, 1) == x % 2
  {
    AndStep(x, 1);
    assert And(x / 2, 0) == 0;
  }

  lemma And81(x: byte)
    ensures And(x, 0x81) == 0 <==> x % 2 == 0 && x < 0x80
  {
    hide And;
    AndDigit16(x % 16, x / 16, 1, 8);
    AndOne(x % 16);
    AndEight(x / 16);
  }

  lemma AndEight(h: nat)
    requires h < 16
    ensures And(h, 8) == if h >= 8 then 8 else 0
  {
    AndNothing(h % 4);
    hide And;
    AndDigit4(h % 4, h / 4, 0, 2);
    AndDigit(h / 4 % 2, h / 8, 0, 1);
    AndDigit(h / 8, 0, 1, 0);
    AndNothing(0);
  }

  /** The probe is zero exactly when the first three bytes are nonzero and the last is
      neither zero nor 0x80: the last case is the false positive. */
  lemma ProbeMeaning(b0: byte, b1: byte, b2: byte, b3: byte, e: u32)
    requires e == Wrap(0x7efe_feff + Join(b0, b1, b2, b3))
    ensures var p := Xor(Xor(Join(b0, b1, b2, b3), U32_MAX), e);
            p < M32 && (And(p, 0x8101_0100) == 0 <==> b0 != 0 && b1 != 0 && b2 != 0 && b3 % 0x80 != 0)
  {
    var x := Join(b0, b1, b2, b3);
    var p := Xor(Xor(x, U32_MAX), e);
    Pow2Values();
    XorBound(x, U32_MAX, 32); XorBound(Xor(x, U32_MAX), e, 32);
    ProbeBits(x, e, p);
    Carries(b0, b1, b2, b3, e);
  }

  lemma Digits(b0: byte, b1: byte, b2: byte, b3: byte)
    ensures var x := Join(b0, b1, b2, b3);
            (x / 0x100) % 2 == b1 % 2 && (x / 0x1_0000) % 2 == b2 % 2 && (x / 0x100_0000) % 2 == b3 % 2 &&
            (x >= 0x8000_0000 <==> b3 >= 0x80)
  {
    var x := Join(b0, b1, b2, b3);
    assert x / 0x100 == b1 + 2 * (0x80 * b2 + 0x8000 * b3);
    assert x / 0x1_0000 == b2 + 2 * (0x80 * b3);
    assert x / 0x100_0000 == b3;
  }

  lemma Flips(b: byte, k: nat, carry: nat, out: nat)
    requires carry < 2
    ensures b % 2 != (b + 2 * k + carry - 256 * out) % 2 <==> carry == 1
  {
    assert b + 2 * k + carry - 256 * out == (b % 2 + carry) + 2 * (b / 2 + k - 128 * out);
  }

  lemma TopBit(b: byte, carry: nat, out: nat, e: byte)
    requires carry < 2 && out < 2 && e == b + 0x7e + carry - 256 * out
    ensures carry == 1 ==> ((b >= 0x80) != (e >= 0x80) <==> b % 0x80 != 0)
  {}

  lemma Carries(b0: byte, b1: byte, b2: byte, b3: byte, e: u32)
    requires e == Wrap(0x7efe_feff + Join(b0, b1, b2, b3))
    ensures var x := Join(b0, b1, b2, b3);
            ((x / 0x100) % 2 != (e / 0x100) % 2 && (x / 0x1_0000) % 2 != (e / 0x1_0000) % 2 &&
             (x / 0x100_0000) % 2 != (e / 0x100_0000) % 2 && (x >= 0x8000_0000) != (e >= 0x8000_0000))
            <==> b0 != 0 && b1 != 0 && b2 != 0 && b3 % 0x80 != 0
  {
    var c0 := if b0 + 0xff >= 256 then 1 else 0;
    var c1 := if b1 + 0xfe + c0 >= 256 then 1 else 0;
    var c2 := if b2 + 0xfe + c1 >= 256 then 1 else 0;
    var c3 := if b3 + 0x7e + c2 >= 256 then 1 else 0;
    var e0: byte, e1: byte := b0 + 0xff - 256 * c0, b1 + 0xfe + c0 - 256 * c1;
    var e2: byte, e3: byte := b2 + 0xfe + c1 - 256 * c2, b3 + 0x7e + c2 - 256 * c3;
    assert e == Join(e0, e1, e2, e3);
    Digits(b0, b1, b2, b3);
    Digits(e0, e1, e2, e3);
    hide Join;
    Flips(b1, 0x7f, c0, c1);
    Flips(b2, 0x7f, c1, c2);
    Flips(b3, 0x3f, c2, c3);
    TopBit(b3, c2, c3, e3);
  }
}
