// The aligned allocation of the streaming buffer: the address arithmetic the
// observer recomputes, and the tail of the game's own routine that performs it.

module CdStreamAllocation {
  import opened Words
  import opened X86
  import opened X86Rules

  predicate AlignmentValid(a: u32) { 512 <= a <= 65536 && Words.And(a, a - 1) == 0 }

  datatype AllocationLayout = AllocationLayout(raw: u32, aligned: u32, metadata: u32, bytes: u32)

  /** cd_stream_allocation_layout: the raw block, the rounded address, the word before it. */
  method Layout(raw: u32, a: u32) returns (layout: Option<AllocationLayout>)
    ensures layout.Some? <==> AlignmentValid(a) && raw >= 65536 && raw % 8 == 0 && raw + 2048 + a <= U32_MAX
    ensures layout.Some? ==> layout.value.raw == raw && layout.value.bytes == 2048 + a
                             && layout.value.aligned == layout.value.metadata + 4
                             && IsAlignedIn(raw, a, layout.value.aligned)
  {
    if !AlignmentValid(a) || raw < 65536 || raw % 8 != 0 || raw > U32_MAX - 2048 - a {
      return None;
    }
    RoundsUp(raw, a);
    var aligned: u32 := Words.And(raw + a, Not(a - 1));
    if aligned < raw + 4 || aligned > raw + a {
      return None;
    }
    return Some(AllocationLayout(raw, aligned, aligned - 4, 2048 + a));
  }

  /** The aligned address: the one multiple of a in (raw, raw + a], with room for the
      metadata word behind raw and for 2048 bytes before the end of the block. */
  ghost predicate IsAlignedIn(raw: u32, a: u32, aligned: u32) {
    && (exists q: nat :: aligned == q * a)
    && raw + 8 <= aligned <= raw + a
    && aligned + 2048 <= raw + (2048 + a) <= U32_MAX
  }

  /** The alignment is a power of two, as its mask test says. */
  lemma AlignmentIsPower(a: u32) returns (k: nat)
    requires AlignmentValid(a)
    ensures a == Pow2(k) && 9 <= k <= 16 && Not(a - 1) == Pow2(32) - Pow2(k)
  {
    Pow2Values();
    k := PowerOfTwo(a);
    if k < 9 { Pow2Monotone(k, 9); }
    if k > 16 { Pow2Monotone(16, k); }
  }

  lemma LowBitsMod8(x: nat, k: nat)
    requires k >= 3
    ensures LowBits(x, k) % 8 == x % 8
  {
    assert LowBits(x, k) == x % 2 + 2 * LowBits(x / 2, k - 1);
    assert LowBits(x / 2, k - 1) == x / 2 % 2 + 2 * LowBits(x / 2 / 2, k - 2);
    assert LowBits(x / 2 / 2, k - 2) == x / 2 / 2 % 2 + 2 * LowBits(x / 2 / 2 / 2, k - 3);
    Mod8(x, LowBits(x / 2 / 2 / 2, k - 3));
  }

  lemma Mod8(x: nat, h: nat)
    ensures (x % 2 + 2 * (x / 2 % 2 + 2 * (x / 2 / 2 % 2 + 2 * h))) % 8 == x % 8
  {
    var a, b, c, w := x % 2, x / 2 % 2, x / 2 / 2 % 2, x / 2 / 2 / 2;
    assert x == 8 * w + (a + 2 * b + 4 * c);
    Eight(w, a + 2 * b + 4 * c);
    Eight(h, a + 2 * b + 4 * c);
  }

  lemma Eight(q: nat, r: nat)
    requires r < 8
    ensures (8 * q + r) % 8 == r
  {}

  /** The mask rounds down, the added alignment makes it up: the bounds re-check of the
      layout never fires. */
  lemma RoundsUp(raw: u32, a: u32)
    requires AlignmentValid(a) && raw >= 65536 && raw % 8 == 0 && raw + 2048 + a <= U32_MAX
    ensures IsAlignedIn(raw, a, Words.And(raw + a, Not(a - 1)))
  {
    hide Words.And, Pow2, LowBits, HighBits;
    var k := AlignmentIsPower(a);
    var x := raw + a;
    assert Pow2(32) == M32 by { Pow2Values(); }
    AndHighMask(x, 32, k);
    WithoutLowBits(x, k);
    var low := LowBits(x, k);
    var aligned := x - low;
    assert aligned == HighBits(x, k) * a;
    LowBitsMod8(x, k);
    EightDivides(k);
    Eighths(raw, a, low);
  }

  lemma EightDivides(k: nat)
    requires 3 <= k
    ensures Pow2(k) % 8 == 0
  {
    assert Pow2(k) == 2 * Pow2(k - 1) && Pow2(k - 1) == 2 * Pow2(k - 2) && Pow2(k - 2) == 2 * Pow2(k - 3);
    hide Pow2;
    assert Pow2(k) == 8 * Pow2(k - 3);
  }

  lemma Eighths(raw: nat, a: nat, low: nat)
    requires raw % 8 == 0 && a % 8 == 0 && low % 8 == (raw + a) % 8 && low < a
    ensures raw + 8 <= raw + a - low
  {}

  lemma AlignedUnique(raw: u32, a: u32, p: u32, q: u32)
    requires a > 0 && IsAlignedIn(raw, a, p) && IsAlignedIn(raw, a, q)
    ensures p == q
  {
    var i: nat :| p == i * a;
    var j: nat :| q == j * a;
    MultiplesApart(i, j, a);
    MultiplesApart(j, i, a);
  }

  lemma MultiplesApart(i: nat, j: nat, a: nat)
    ensures i < j ==> i * a + a <= j * a
  {
    if i < j {
      var d := j - i - 1;
      assert j == i + 1 + d;
      assert (i + 1 + d) * a == i * a + a + d * a;
      assert d * a >= 0;
    }
  }

  // ---- cd_stream_allocation_frame ----------------------------------------

  predicate TestFlags(f: Flags, v: u32) {
    !f.cf && !f.of && f.pf == EvenParity(v) && f.zf == (v == 0) && f.sf == (v >= 0x8000_0000)
  }

  /** c: the caller; b: the accepted layout (raw 0 while there is none); back: the heap return. */
  predicate AllocationFrame(stage: nat, c: Registers, r: Registers, a: u32, b: AllocationLayout, back: Registers) {
    && 1 <= stage <= 10 && c.esp >= 65700 && c.esp % 4 == 0 && AlignmentValid(a)
    && !c.flags.tf && !c.flags.df && !r.flags.tf && !r.flags.df && r.ebx == c.ebx && r.edi == c.edi
    && r.ebp == (if 3 <= stage <= 7 then c.esp - 40 else c.ebp)
    && r.esi == (if 3 <= stage <= 7 then 2048 + a else if stage == 9 then Not(a - 1)
                 else if 2 <= stage <= 8 then a else c.esi)
    && r.esp == c.esp - [0, 4, 36, 80, 80, 92, 96, 80, 12, 8, 0][stage]
    && (stage == 1 ==> r.eax == c.eax && r.ecx == c.ecx && r.edx == c.edx && r.flags.(rf := c.flags.rf) == c.flags)
    && (stage == 2 ==> r.eax == 2048 + a && r.ecx == c.ecx && r.edx == c.edx)
    && (3 <= stage <= 6 ==> r.eax == c.esp - 56 && r.ecx == c.ecx && r.edx == c.edx)
    && (stage >= 8 ==> b.raw != 0 && r.edx == back.edx)
    && (stage == 8 ==> r.eax == b.raw && r.ecx == 0 && TestFlags(r.flags, b.raw))
    && (stage >= 9 ==> r.eax == b.aligned && r.ecx == b.raw && TestFlags(r.flags, b.aligned) &&
                       SameControl(r.flags, back.flags))
  }

  // ---- The tail of the aligned allocator ----------------------------------

  /** Offsets 17 to 34 of the 35 bytes, behind the CALL of malloc. */
  const ALIGN_TAIL: seq<byte> := [0x8b, 0xc8, 0x8d, 0x04, 0x31, 0x83, 0xc4, 0x04, 0x4e, 0xf7, 0xd6]

  const ALIGN_END: seq<byte> := [0x23, 0xc6, 0x89, 0x48, 0xfc, 0x5e, 0xc3]

  function Sum(): Addr { Addr(false, Of(ECX), Of(ESI), 1, 0) }

  predicate AlignListed(prog: Program, p: int) {
    && Lists(prog, p, Mov(R32(ECX), R32(EAX)), 2)
    && Lists(prog, p + 2, Lea(EAX, Sum()), 3)
    && Lists(prog, p + 5, Arith(ADD, R32(ESP), Imm(4)), 3)
    && Lists(prog, p + 8, Dec(ESI), 1)
    && Lists(prog, p + 9, Neg1(ESI), 2)
    && Lists(prog, p + 11, Arith(AND, R32(EAX), R32(ESI)), 2)
    && Lists(prog, p + 13, Mov(Mem32(Based(EAX, -4)), R32(ECX)), 3)
    && Lists(prog, p + 16, Pop(ESI), 1)
    && Lists(prog, p + 17, Ret, 1)
  }

  lemma AlignTailDecodes(code: Code, p: int)
    requires Loaded(code, p, ALIGN_TAIL)
    ensures Lists(Disassembly(code), p, Mov(R32(ECX), R32(EAX)), 2)
    ensures Lists(Disassembly(code), p + 2, Lea(EAX, Sum()), 3)
    ensures Lists(Disassembly(code), p + 5, Arith(ADD, R32(ESP), Imm(4)), 3)
    ensures Lists(Disassembly(code), p + 8, Dec(ESI), 1)
    ensures Lists(Disassembly(code), p + 9, Neg1(ESI), 2)
  {
    assert Decode(code, p) == Some(Fetched(Mov(R32(ECX), R32(EAX)), 2));
    assert Decode(code, p + 2) == Some(Fetched(Lea(EAX, Sum()), 3));
    assert Decode(code, p + 5) == Some(Fetched(Arith(ADD, R32(ESP), Imm(4)), 3));
    assert Decode(code, p + 8) == Some(Fetched(Dec(ESI), 1));
    assert Decode(code, p + 9) == Some(Fetched(Neg1(ESI), 2));
  }

  lemma AlignEndDecodes(code: Code, p: int)
    requires Loaded(code, p, ALIGN_END)
    ensures Lists(Disassembly(code), p, Arith(AND, R32(EAX), R32(ESI)), 2)
    ensures Lists(Disassembly(code), p + 2, Mov(Mem32(Based(EAX, -4)), R32(ECX)), 3)
    ensures Lists(Disassembly(code), p + 5, Pop(ESI), 1) && Lists(Disassembly(code), p + 6, Ret, 1)
  {
    assert Decode(code, p) == Some(Fetched(Arith(AND, R32(EAX), R32(ESI)), 2));
    assert Decode(code, p + 2) == Some(Fetched(Mov(Mem32(Based(EAX, -4)), R32(ECX)), 3));
    assert Decode(code, p + 5) == Some(Fetched(Pop(ESI), 1));
    assert Decode(code, p + 6) == Some(Fetched(Ret, 1));
  }

  /** From the malloc return to the metadata store. */
  lemma Aligns(prog: Program, p: u32, s: Cpu, a: u32) returns (t: Cpu)
    requires AlignListed(prog, p) && p < M32 - 18 && s.eip == p && AlignmentValid(a)
    requires s.r.esi == a && s.r.eax + a <= U32_MAX && s.r.esp < M32 - 4
    ensures Reaches(prog, s, t) && t.eip == p + 13 && t.mem == s.mem && t.fs == s.fs
    ensures t.r == s.r.(ecx := s.r.eax, eax := Words.And(s.r.eax + a, Not(a - 1)), esi := Not(a - 1),
                        esp := s.r.esp + 4, flags := t.r.flags)
    ensures TestFlags(t.r.flags, t.r.eax) && SameControl(t.r.flags, s.r.flags)
  {
    hide Reaches, Run, Step, EvenParity, Words.And;
    Stay(prog, s);
    t := MovRule(prog, s, s, ECX, R32(EAX), 2, s.r.eax);
    t := LeaRule(prog, s, t, EAX, Sum(), 3);
    t := AluRule(prog, s, t, ADD, ESP, Imm(4), 3, 4);
    t := DecRule(prog, s, t, ESI);
    t := NotRule(prog, s, t, ESI);
    t := AluRule(prog, s, t, AND, EAX, R32(ESI), 2, Not(a - 1));
  }

  /** The metadata store, POP ESI and RET. */
  lemma StoresMetadata(prog: Program, p: u32, s: Cpu, esi: u32, ret: u32) returns (t: Cpu, m: Memory)
    requires AlignListed(prog, p) && p < M32 - 18 && s.eip == p + 13
    requires 4 <= s.r.eax && s.r.eax - 4 in s.mem && s.r.eax - 3 in s.mem && s.r.eax - 2 in s.mem
             && s.r.eax - 1 in s.mem
    requires s.r.esp < M32 - 8 && (s.r.eax <= s.r.esp || s.r.esp + 8 <= s.r.eax - 4)
    requires Load32(s.mem, s.r.esp) == Some(esi) && Load32(s.mem, s.r.esp + 4) == Some(ret)
    ensures Reaches(prog, s, t) && m.Keys == s.mem.Keys && Load32(m, s.r.eax - 4) == Some(s.r.ecx)
    ensures forall x {:trigger m[x]} :: x in m && !(s.r.eax - 4 <= x < s.r.eax) ==> m[x] == s.mem[x]
    ensures t == s.(eip := ret, mem := m, r := s.r.(esi := esi, esp := s.r.esp + 8, flags := Resume(s.r.flags)))
  {
    hide Reaches, Run, Step, Load32, Store32, ByteOf;
    Stay(prog, s);
    m := Effect32(s.mem, s.r.eax - 4, s.r.ecx);
    Stored(s.mem, m, s.r.eax - 4, s.r.ecx, s.r.esp);
    Stored(s.mem, m, s.r.eax - 4, s.r.ecx, s.r.esp + 4);
    t := StoreRule(prog, s, s, Based(EAX, -4), R32(ECX), 3, s.r.ecx, m);
    t := PopRule(prog, s, t, ESI, esi);
    t := RetRule(prog, s, t, ret);
  }

  lemma Stored(m: Memory, m': Memory, a: u32, v: u32, b: u32)
    requires a < M32 - 3 && a in m && a + 1 in m && a + 2 in m && a + 3 in m && m'.Keys == m.Keys
    requires m'[a] == ByteOf(v, 0) && m'[a + 1] == ByteOf(v, 1) && m'[a + 2] == ByteOf(v, 2)
             && m'[a + 3] == ByteOf(v, 3)
    requires forall x {:trigger m'[x]} :: x in m && !(a <= x < a + 4) ==> m'[x] == m[x]
    requires a + 4 <= b || b + 4 <= a
    ensures Load32(m', a) == Some(v) && Load32(m', b) == Load32(m, b)
  {
    hide ByteOf;
    JoinBytes(v);
  }

  /** For every accepted raw address and alignment, stops 9 and 10 are as the frame
      demands, the word before the aligned address names the raw block, and nothing
      outside the block changes. */
  lemma AlignedReturn(code: Code, p: u32, c: Registers, back: Registers, s: Cpu, a: u32, b: AllocationLayout, ret: u32)
    returns (s9: Cpu, s10: Cpu)
    requires Loaded(code, p, ALIGN_TAIL) && Loaded(code, p + 11, ALIGN_END) && p < M32 - 18 && s.eip == p
    requires AllocationFrame(8, c, s.r, a, b, back) && SameControl(s.r.flags, back.flags)
    requires b.raw >= 65536 && b.raw % 8 == 0 && b.raw + 2048 + a <= U32_MAX
    requires b == AllocationLayout(b.raw, Words.And(b.raw + a, Not(a - 1)), b.metadata, 2048 + a)
             && b.metadata + 4 == b.aligned
    requires forall x :: b.raw <= x < b.raw + b.bytes ==> x in s.mem
    requires c.esp < M32 - 4 && (b.raw + b.bytes <= c.esp - 8 || c.esp <= b.raw)
    requires Load32(s.mem, c.esp - 8) == Some(c.esi) && Load32(s.mem, c.esp - 4) == Some(ret)
    ensures Reaches(Disassembly(code), s, s9) && s9.eip == p + 13 && AllocationFrame(9, c, s9.r, a, b, back)
    ensures Reaches(Disassembly(code), s9, s10) && s10.eip == ret && AllocationFrame(10, c, s10.r, a, b, back)
    ensures s10.mem.Keys == s.mem.Keys && s10.fs == s.fs
    ensures Load32(s10.mem, b.metadata) == Some(b.raw) && b.raw < b.metadata && b.metadata + 4 <= b.raw + b.bytes
    ensures forall x {:trigger s10.mem[x]} ::
              x in s10.mem && !(b.raw <= x < b.raw + b.bytes) ==> x in s.mem && s10.mem[x] == s.mem[x]
  {
    hide Reaches, Load32, Loaded, Disassembly, Words.And, EvenParity;
    AlignTailDecodes(code, p);
    AlignEndDecodes(code, p + 11);
    RoundsUp(b.raw, a);
    s9 := Aligns(Disassembly(code), p, s, a);
    var m;
    s10, m := StoresMetadata(Disassembly(code), p, s9, c.esi, ret);
  }
}
