// The part of the 32-bit x86 instruction set that the reviewed byte templates
// use: a decoder for the encodings, a memory that faults outside its mapped
// addresses, and a small-step semantics.  Status flags follow section 3.4.3.1
// of volume 1 of the Intel Software Developer's Manual.

module X86 {
  import opened Words

  type Code = map<u32, byte>
  type Memory = map<u32, byte>

  /** AF is undefined after the logical instructions: af == None. */
  datatype Flags = Flags(cf: bool, pf: bool, af: Option<bool>, zf: bool, sf: bool, of: bool,
                         rf: bool, tf: bool, df: bool, rest: u32)

  /** The register record the observers compare (EventDispatchRegisters). */
  datatype Registers = Registers(esp: u32, eax: u32, ebx: u32, ecx: u32, edx: u32,
                                 esi: u32, edi: u32, ebp: u32, flags: Flags)

  datatype Cpu = Cpu(eip: u32, r: Registers, fs: u32, mem: Memory)

  datatype Reg = EAX | ECX | EDX | EBX | ESP | EBP | ESI | EDI

  datatype Part = NoReg | Of(reg: Reg)

  /** Segment FS or flat; base + index * scale + disp. */
  datatype Addr = Addr(seg: bool, base: Part, index: Part, scale: nat, disp: int)

  datatype Operand =
    | R32(reg: Reg) | R16(reg: Reg) | Low8(reg: Reg) | High8(reg: Reg)
    | Mem32(addr: Addr) | Mem16(addr: Addr) | Mem8(addr: Addr)
    | Imm(v: u32)

  datatype Alu = ADD | OR | AND | SUB | XOR | CMP | TEST

  datatype Cond = Equal | NotEqual | Above | LessOrEqual

  datatype Instr =
    | Mov(dst: Operand, src: Operand)
    | MovZx(to: Reg, src: Operand)
    | Lea(to: Reg, addr: Addr)
    | Push(src: Operand)
    | Pop(to: Reg)
    | Arith(op: Alu, dst: Operand, src: Operand)
    | Inc(to: Reg)
    | Dec(to: Reg)
    | Neg1(to: Reg)                 // NOT r32
    | Jmp(rel: int)
    | Jcc(cond: Cond, rel: int)
    | JmpTo(src: Operand)
    | Call(rel: int)
    | CallTo(src: Operand)
    | Ret
    | Leave
    | Nop

  datatype Fetched = Fetched(i: Instr, len: nat)

  type Program = map<u32, Fetched>

  // ---- Decoding --------------------------------------------------------

  function At(code: Code, a: int): byte { if a in code then code[a] else 0xf1 }

  function Word(code: Code, a: int): u32 {
    Join(At(code, a), At(code, a + 1), At(code, a + 2), At(code, a + 3))
  }

  function RegOf(n: int): Reg {
    if n == 0 then EAX else if n == 1 then ECX else if n == 2 then EDX else if n == 3 then EBX
    else if n == 4 then ESP else if n == 5 then EBP else if n == 6 then ESI else EDI
  }

  function Reg8(n: int): Operand { if n < 4 then Low8(RegOf(n)) else High8(RegOf(n - 4)) }

  /** The r/m half of a ModR/M byte: a register number or an address. */
  datatype Rm = RmReg(n: int) | RmMem(addr: Addr)

  datatype ModRm = ModRm(reg: int, rm: Rm, len: nat)

  function Displaced(code: Code, p: int, mod: int, seg: bool, base: Part, index: Part,
                     scale: nat, reg: int, len: nat): ModRm {
    if mod == 0 then ModRm(reg, RmMem(Addr(seg, base, index, scale, 0)), len)
    else if mod == 1 then
      ModRm(reg, RmMem(Addr(seg, base, index, scale, Signed8(At(code, p + len)))), len + 1)
    else
      ModRm(reg, RmMem(Addr(seg, base, index, scale, Signed32(Word(code, p + len)))), len + 4)
  }

  function DecodeModRm(code: Code, p: int, seg: bool): ModRm {
    var b := At(code, p);
    var mod, reg, rm := b / 64, (b / 8) % 8, b % 8;
    if mod == 3 then ModRm(reg, RmReg(rm), 1)
    else if rm == 4 then
      var sib := At(code, p + 1);
      var index := if (sib / 8) % 8 == 4 then NoReg else Of(RegOf((sib / 8) % 8));
      var scale := if sib / 64 == 0 then 1 else if sib / 64 == 1 then 2 else if sib / 64 == 2 then 4 else 8;
      if mod == 0 && sib % 8 == 5 then Displaced(code, p, 2, seg, NoReg, index, scale, reg, 2)
      else Displaced(code, p, mod, seg, Of(RegOf(sib % 8)), index, scale, reg, 2)
    else if mod == 0 && rm == 5 then Displaced(code, p, 2, seg, NoReg, NoReg, 1, reg, 1)
    else Displaced(code, p, mod, seg, Of(RegOf(rm)), NoReg, 1, reg, 1)
  }

  function Rm32(m: ModRm): Operand {
    match m.rm case RmReg(n) => R32(RegOf(n)) case RmMem(a) => Mem32(a)
  }

  function Rm16(m: ModRm): Operand {
    match m.rm case RmReg(n) => R16(RegOf(n)) case RmMem(a) => Mem16(a)
  }

  function Rm8(m: ModRm): Operand {
    match m.rm case RmReg(n) => Reg8(n) case RmMem(a) => Mem8(a)
  }

  function Group1(n: int): Option<Alu> {
    if n == 0 then Some(ADD) else if n == 1 then Some(OR) else if n == 4 then Some(AND)
    else if n == 5 then Some(SUB) else if n == 6 then Some(XOR) else if n == 7 then Some(CMP)
    else None
  }

  function CondOf(n: int): Option<Cond> {
    if n == 4 then Some(Equal) else if n == 5 then Some(NotEqual)
    else if n == 7 then Some(Above) else if n == 14 then Some(LessOrEqual) else None
  }

  /** Decodes the instruction at a; None when the encoding is outside this subset. */
  function Decode(code: Code, a: int): Option<Fetched> {
    if At(code, a) == 0x64 then DecodeOpcode(code, a + 1, 1, true)
    else if At(code, a) == 0x66 then DecodeOpcode16(code, a + 1)
    else DecodeOpcode(code, a, 0, false)
  }

  /** Operand-size prefix 66: only the MOV forms appear. */
  function DecodeOpcode16(code: Code, p: int): Option<Fetched> {
    var op := At(code, p);
    if op == 0x89 then
      var m := DecodeModRm(code, p + 1, false);
      Some(Fetched(Mov(Rm16(m), R16(RegOf(m.reg))), 2 + m.len))
    else if op == 0xa1 then
      Some(Fetched(Mov(R16(EAX), Mem16(Addr(false, NoReg, NoReg, 1, Word(code, p + 1)))), 6))
    else None
  }

  predicate IsRegRm(op: int) {
    || op == 0x03 || op == 0x23 || op == 0x2b || op == 0x33 || op == 0x3b || op == 0x85
    || op == 0x84 || op == 0x88 || op == 0x89 || op == 0x8a || op == 0x8b || op == 0x8d
  }

  function DecodeOpcode(code: Code, p: int, prefix: nat, seg: bool): Option<Fetched> {
    var op := At(code, p);
    if 0x40 <= op < 0x60 then Some(Fetched(DecodeShort(op), prefix + 1))
    else if 0x70 <= op < 0x80 then
      (match CondOf(op - 0x70)
       case Some(c) => Some(Fetched(Jcc(c, Signed8(At(code, p + 1))), prefix + 2))
       case None => None)
    else if op == 0x83 then
      var m := DecodeModRm(code, p + 1, seg);
      (match Group1(m.reg)
       case Some(alu) => Some(Fetched(Arith(alu, Rm32(m), Imm(Wrap(Signed8(At(code, p + 1 + m.len))))),
                                      prefix + 2 + m.len))
       case None => None)
    else if IsRegRm(op) then
      var m := DecodeModRm(code, p + 1, seg);
      (match DecodeRegRm(op, m) case Some(i) => Some(Fetched(i, prefix + 1 + m.len)) case None => None)
    else if op == 0xc6 || op == 0xc7 || op == 0xf7 || op == 0xff then DecodeGroup(code, p, prefix, seg, op)
    else if op == 0x0f then DecodeTwoByte(code, p, prefix, seg)
    else DecodeImmediate(code, p, prefix, seg, op)
  }

  function DecodeShort(op: int): Instr {
    if op < 0x48 then Inc(RegOf(op - 0x40))
    else if op < 0x50 then Dec(RegOf(op - 0x48))
    else if op < 0x58 then Push(R32(RegOf(op - 0x50)))
    else Pop(RegOf(op - 0x58))
  }

  function DecodeRegRm(op: int, m: ModRm): Option<Instr> {
    var reg := R32(RegOf(m.reg));
    if op == 0x03 then Some(Arith(ADD, reg, Rm32(m)))
    else if op == 0x23 then Some(Arith(AND, reg, Rm32(m)))
    else if op == 0x2b then Some(Arith(SUB, reg, Rm32(m)))
    else if op == 0x33 then Some(Arith(XOR, reg, Rm32(m)))
    else if op == 0x3b then Some(Arith(CMP, reg, Rm32(m)))
    else if op == 0x85 then Some(Arith(TEST, Rm32(m), reg))
    else if op == 0x84 then Some(Arith(TEST, Rm8(m), Reg8(m.reg)))
    else if op == 0x88 then Some(Mov(Rm8(m), Reg8(m.reg)))
    else if op == 0x89 then Some(Mov(Rm32(m), reg))
    else if op == 0x8a then Some(Mov(Reg8(m.reg), Rm8(m)))
    else if op == 0x8b then Some(Mov(reg, Rm32(m)))
    else match m.rm case RmMem(a) => Some(Lea(RegOf(m.reg), a)) case RmReg(_) => None
  }

  function DecodeGroup(code: Code, p: int, prefix: nat, seg: bool, op: int): Option<Fetched> {
    var m := DecodeModRm(code, p + 1, seg);
    if op == 0xc6 && m.reg == 0 then
      Some(Fetched(Mov(Rm8(m), Imm(At(code, p + 1 + m.len))), prefix + 2 + m.len))
    else if op == 0xc7 && m.reg == 0 then
      Some(Fetched(Mov(Rm32(m), Imm(Word(code, p + 1 + m.len))), prefix + 5 + m.len))
    else if op == 0xf7 && m.reg == 0 then
      Some(Fetched(Arith(TEST, Rm32(m), Imm(Word(code, p + 1 + m.len))), prefix + 5 + m.len))
    else if op == 0xf7 && m.reg == 2 && m.rm.RmReg? then
      Some(Fetched(Neg1(RegOf(m.rm.n)), prefix + 1 + m.len))
    else if op == 0xff && m.reg == 2 then Some(Fetched(CallTo(Rm32(m)), prefix + 1 + m.len))
    else if op == 0xff && m.reg == 4 then Some(Fetched(JmpTo(Rm32(m)), prefix + 1 + m.len))
    else if op == 0xff && m.reg == 6 then Some(Fetched(Push(Rm32(m)), prefix + 1 + m.len))
    else None
  }

  function DecodeTwoByte(code: Code, p: int, prefix: nat, seg: bool): Option<Fetched> {
    var op := At(code, p + 1);
    if op == 0xb6 then
      var m := DecodeModRm(code, p + 2, seg);
      Some(Fetched(MovZx(RegOf(m.reg), Rm8(m)), prefix + 2 + m.len))
    else if 0x80 <= op < 0x90 then
      (match CondOf(op - 0x80)
       case Some(c) => Some(Fetched(Jcc(c, Signed32(Word(code, p + 2))), prefix + 6))
       case None => None)
    else None
  }

  function DecodeImmediate(code: Code, p: int, prefix: nat, seg: bool, op: int): Option<Fetched> {
    var absolute := Addr(seg, NoReg, NoReg, 1, Word(code, p + 1));
    if op == 0x3d then Some(Fetched(Arith(CMP, R32(EAX), Imm(Word(code, p + 1))), prefix + 5))
    else if op == 0x68 then Some(Fetched(Push(Imm(Word(code, p + 1))), prefix + 5))
    else if op == 0x6a then Some(Fetched(Push(Imm(Wrap(Signed8(At(code, p + 1))))), prefix + 2))
    else if op == 0x90 then Some(Fetched(Nop, prefix + 1))
    else if op == 0xa1 then Some(Fetched(Mov(R32(EAX), Mem32(absolute)), prefix + 5))
    else if op == 0xa3 then Some(Fetched(Mov(Mem32(absolute), R32(EAX)), prefix + 5))
    else if op == 0xa9 then Some(Fetched(Arith(TEST, R32(EAX), Imm(Word(code, p + 1))), prefix + 5))
    else if 0xb8 <= op < 0xc0 then Some(Fetched(Mov(R32(RegOf(op - 0xb8)), Imm(Word(code, p + 1))), prefix + 5))
    else if op == 0xc3 then Some(Fetched(Ret, prefix + 1))
    else if op == 0xc9 then Some(Fetched(Leave, prefix + 1))
    else if op == 0xe8 then Some(Fetched(Call(Signed32(Word(code, p + 1))), prefix + 5))
    else if op == 0xe9 then Some(Fetched(Jmp(Signed32(Word(code, p + 1))), prefix + 5))
    else if op == 0xeb then Some(Fetched(Jmp(Signed8(At(code, p + 1))), prefix + 2))
    else None
  }

  lemma SegmentPrefix(code: Code, a: int)
    requires At(code, a) == 0x64
    ensures Decode(code, a) == DecodeOpcode(code, a + 1, 1, true)
  {}

  /** text occupies the code addresses from base on. */
  predicate Loaded(code: Code, base: int, text: seq<byte>) {
    forall a {:trigger At(code, a)} ::
      base <= a < base + |text| ==> a in code && At(code, a) == text[a - base]
  }

  lemma ByteLoaded(code: Code, base: int, text: seq<byte>, k: nat)
    requires Loaded(code, base, text) && k < |text|
    ensures base + k in code && At(code, base + k) == text[k]
  {}

  /** prog holds exactly what the processor fetches at each address of the code. */
  ghost predicate Disassembles(prog: Program, code: Code) {
    forall a {:trigger Decode(code, a)} ::
      (a in prog <==> a in code && Decode(code, a).Some?) && (a in prog ==> prog[a] == Decode(code, a).value)
  }

  ghost function Disassembly(code: Code): (prog: Program)
    ensures Disassembles(prog, code)
  {
    assert Disassembles(map a | a in code && Decode(code, a).Some? :: Decode(code, a).value, code);
    var prog :| Disassembles(prog, code);
    prog
  }

  predicate Lists(prog: Program, a: int, i: Instr, len: nat) {
    a in prog && prog[a] == Fetched(i, len)
  }

  // ---- Memory ----------------------------------------------------------

  function Load32(m: Memory, a: int): Option<u32> {
    if a in m && a + 1 in m && a + 2 in m && a + 3 in m
    then Some(Join(m[a], m[a + 1], m[a + 2], m[a + 3])) else None
  }

  function Load16(m: Memory, a: int): Option<u32> {
    if a in m && a + 1 in m then Some((m[a] as int) + 0x100 * (m[a + 1] as int)) else None
  }

  function Load8(m: Memory, a: int): Option<u32> {
    if a in m then Some(m[a]) else None
  }

  function Store32(m: Memory, a: int, v: u32): Option<Memory> {
    if a in m && a + 1 in m && a + 2 in m && a + 3 in m
    then Some(m[a := ByteOf(v, 0)][a + 1 := ByteOf(v, 1)][a + 2 := ByteOf(v, 2)][a + 3 := ByteOf(v, 3)])
    else None
  }

  function Store16(m: Memory, a: int, v: u32): Option<Memory> {
    if a in m && a + 1 in m then Some(m[a := ByteOf(v, 0)][a + 1 := ByteOf(v, 1)]) else None
  }

  function Store8(m: Memory, a: int, v: u32): Option<Memory> {
    if a in m then Some(m[a := ByteOf(v, 0)]) else None
  }

  /** Two address ranges without a common byte. */
  predicate Apart(a: int, n: int, b: int, k: int) { a + n <= b || b + k <= a }

  /** n bytes of memory from address a on. */
  function Window(m: Memory, a: int, n: nat): (w: seq<byte>)
    ensures |w| == n
  {
    seq<byte>(n, k requires 0 <= k < n => At(m, a + k))
  }

  /** A word outside the changed range reads as before. */
  lemma LoadKept(m: Memory, m': Memory, a: int, b: int, n: int)
    requires m'.Keys == m.Keys && Apart(a, n, b, 4)
    requires forall x {:trigger m'[x]} :: x in m && !(a <= x < a + n) ==> m'[x] == m[x]
    ensures Load32(m', b) == Load32(m, b)
  {}

  lemma LoadStored(m': Memory, a: int, v: u32)
    requires 0 <= a < M32 - 3 && a in m' && a + 1 in m' && a + 2 in m' && a + 3 in m'
    requires m'[a] == ByteOf(v, 0) && m'[a + 1] == ByteOf(v, 1)
    requires m'[a + 2] == ByteOf(v, 2) && m'[a + 3] == ByteOf(v, 3)
    ensures Load32(m', a) == Some(v)
  {
    hide ByteOf;
    JoinBytes(v);
  }

  /** What a store changes, byte by byte. */
  lemma Effect8(m: Memory, a: int, v: u32) returns (m': Memory)
    requires 0 <= a < M32 && a in m
    ensures Store8(m, a, v) == Some(m') && m'.Keys == m.Keys
    ensures forall b {:trigger m'[b]} :: b in m && b != a ==> m'[b] == m[b]
    ensures m'[a] == ByteOf(v, 0)
  {
    m' := Store8(m, a, v).value;
  }

  lemma Effect16(m: Memory, a: int, v: u32) returns (m': Memory)
    requires 0 <= a < M32 - 1 && a in m && a + 1 in m
    ensures Store16(m, a, v) == Some(m') && m'.Keys == m.Keys
    ensures forall b {:trigger m'[b]} :: b in m && !(a <= b < a + 2) ==> m'[b] == m[b]
    ensures m'[a] == ByteOf(v, 0) && m'[a + 1] == ByteOf(v, 1)
  {
    hide ByteOf;
    m' := Store16(m, a, v).value;
  }

  lemma Effect32(m: Memory, a: int, v: u32) returns (m': Memory)
    requires 0 <= a < M32 - 3 && a in m && a + 1 in m && a + 2 in m && a + 3 in m
    ensures Store32(m, a, v) == Some(m') && m'.Keys == m.Keys
    ensures forall b {:trigger m'[b]} :: b in m && !(a <= b < a + 4) ==> m'[b] == m[b]
    ensures m'[a] == ByteOf(v, 0) && m'[a + 1] == ByteOf(v, 1)
    ensures m'[a + 2] == ByteOf(v, 2) && m'[a + 3] == ByteOf(v, 3)
  {
    hide ByteOf;
    m' := Store32(m, a, v).value;
  }

  // ---- Execution -------------------------------------------------------

  function Get(r: Registers, n: Reg): u32 {
    match n
    case EAX => r.eax case ECX => r.ecx case EDX => r.edx case EBX => r.ebx
    case ESP => r.esp case EBP => r.ebp case ESI => r.esi case EDI => r.edi
  }

  function Set(r: Registers, n: Reg, v: u32): Registers {
    match n
    case EAX => r.(eax := v) case ECX => r.(ecx := v) case EDX => r.(edx := v) case EBX => r.(ebx := v)
    case ESP => r.(esp := v) case EBP => r.(ebp := v) case ESI => r.(esi := v) case EDI => r.(edi := v)
  }

  function Effective(s: Cpu, a: Addr): u32 {
    Wrap((if a.seg then s.fs else 0) +
         (match a.base case Of(n) => Get(s.r, n) case NoReg => 0) +
         (match a.index case Of(n) => Get(s.r, n) * a.scale case NoReg => 0) + a.disp)
  }

  function Read(s: Cpu, o: Operand): Option<u32> {
    match o
    case R32(n) => Some(Get(s.r, n))
    case R16(n) => Some(Low16(Get(s.r, n)))
    case Low8(n) => Some(ByteOf(Get(s.r, n), 0))
    case High8(n) => Some(ByteOf(Get(s.r, n), 1))
    case Mem32(a) => Load32(s.mem, Effective(s, a))
    case Mem16(a) => Load16(s.mem, Effective(s, a))
    case Mem8(a) => Load8(s.mem, Effective(s, a))
    case Imm(v) => Some(v)
  }

  function WithMemory(s: Cpu, m: Option<Memory>): Option<Cpu> {
    match m case Some(mem) => Some(s.(mem := mem)) case None => None
  }

  function Write(s: Cpu, o: Operand, v: u32): Option<Cpu> {
    match o
    case R32(n) => Some(s.(r := Set(s.r, n, v)))
    case R16(n) => Some(s.(r := Set(s.r, n, Get(s.r, n) - Get(s.r, n) % 0x1_0000 + v % 0x1_0000)))
    case Low8(n) => Some(s.(r := Set(s.r, n, Get(s.r, n) - Get(s.r, n) % 256 + v % 256)))
    case High8(n) => None
    case Mem32(a) => WithMemory(s, Store32(s.mem, Effective(s, a), v))
    case Mem16(a) => WithMemory(s, Store16(s.mem, Effective(s, a), v))
    case Mem8(a) => WithMemory(s, Store8(s.mem, Effective(s, a), v))
    case Imm(_) => None
  }

  /** 2^(n-1) and 2^n for the operand's width n. */
  function HalfRange(o: Operand): int {
    match o
    case R32(_) => 0x8000_0000 case Mem32(_) => 0x8000_0000 case Imm(_) => 0x8000_0000
    case R16(_) => 0x8000 case Mem16(_) => 0x8000
    case Low8(_) => 0x80 case High8(_) => 0x80 case Mem8(_) => 0x80
  }

  function SubFlags(f: Flags, a: u32, b: u32, half: int): Flags {
    var res := if a >= b then a - b else a - b + 2 * half;
    f.(cf := a < b, zf := a == b, sf := res >= half, pf := res >= 0 && EvenParity(res),
       af := Some(a % 16 < b % 16),
       of := (a >= half) != (b >= half) && (res >= half) != (a >= half), rf := false)
  }

  function AddFlags(f: Flags, a: u32, b: u32, half: int): Flags {
    var res := if a + b < 2 * half then a + b else a + b - 2 * half;
    f.(cf := a + b >= 2 * half, zf := res == 0, sf := res >= half, pf := res >= 0 && EvenParity(res),
       af := Some(a % 16 + b % 16 >= 16),
       of := (a >= half) == (b >= half) && (res >= half) != (a >= half), rf := false)
  }

  function LogicFlags(f: Flags, res: nat, half: int): Flags {
    f.(cf := false, zf := res == 0, sf := res >= half, pf := EvenParity(res),
       af := None, of := false, rf := false)
  }

  /** The flags outside the arithmetic ones and RF. */
  predicate SameControl(f: Flags, g: Flags) { f.tf == g.tf && f.df == g.df && f.rest == g.rest }

  /** Every instruction other than the arithmetic ones leaves the status flags. */
  function Resume(f: Flags): Flags { f.(rf := false) }

  function Clamp(x: int): u32 { if 0 <= x < M32 then x else 0 }

  function ExecArith(s: Cpu, op: Alu, dst: Operand, src: Operand): Option<Cpu> {
    match (Read(s, dst), Read(s, src))
    case (Some(a), Some(b)) =>
      var half := HalfRange(dst);
      var f := s.r.flags;
      (match op
       case CMP => Some(s.(r := s.r.(flags := SubFlags(f, a, b, half))))
       case TEST => Some(s.(r := s.r.(flags := LogicFlags(f, And(a, b), half))))
       case ADD =>
         Write(s.(r := s.r.(flags := AddFlags(f, a, b, half))), dst,
               Clamp(if a + b < 2 * half then a + b else a + b - 2 * half))
       case SUB =>
         Write(s.(r := s.r.(flags := SubFlags(f, a, b, half))), dst,
               Clamp(if a >= b then a - b else a - b + 2 * half))
       case AND => Write(s.(r := s.r.(flags := LogicFlags(f, And(a, b), half))), dst, And(a, b))
       case OR => Write(s.(r := s.r.(flags := LogicFlags(f, Or(a, b), half))), dst, Clamp(Or(a, b)))
       case XOR => Write(s.(r := s.r.(flags := LogicFlags(f, Xor(a, b), half))), dst, Clamp(Xor(a, b))))
    case _ => None
  }

  function ExecPush(s: Cpu, v: u32): Option<Cpu> {
    var top := Wrap(s.r.esp - 4);
    WithMemory(s.(r := s.r.(esp := top, flags := Resume(s.r.flags))), Store32(s.mem, top, v))
  }

  function Holds(f: Flags, c: Cond): bool {
    match c
    case Equal => f.zf
    case NotEqual => !f.zf
    case Above => !f.cf && !f.zf
    case LessOrEqual => f.zf || f.sf != f.of
  }

  function GoTo(s: Cpu, target: u32): Option<Cpu> {
    Some(s.(eip := target, r := s.r.(flags := Resume(s.r.flags))))
  }

  /** Executes i; s.eip already points behind it. */
  function Exec(s: Cpu, i: Instr): Option<Cpu> {
    var plain := s.(r := s.r.(flags := Resume(s.r.flags)));
    match i
    case Mov(dst, src) =>
      (match Read(s, src) case Some(v) => Write(plain, dst, v) case None => None)
    case MovZx(to, src) =>
      (match Read(s, src) case Some(v) => Write(plain, R32(to), v) case None => None)
    case Lea(to, a) => Write(plain, R32(to), Effective(s, a))
    case Push(src) => (match Read(s, src) case Some(v) => ExecPush(s, v) case None => None)
    case Pop(to) =>
      (match Load32(s.mem, s.r.esp)
       case Some(v) => Write(plain.(r := plain.r.(esp := Wrap(s.r.esp + 4))), R32(to), v)
       case None => None)
    case Arith(op, dst, src) => ExecArith(s, op, dst, src)
    case Inc(to) =>
      var v := Get(s.r, to);
      Write(s.(r := s.r.(flags := AddFlags(s.r.flags, v, 1, 0x8000_0000).(cf := s.r.flags.cf))), R32(to), Wrap(v + 1))
    case Dec(to) =>
      var v := Get(s.r, to);
      Write(s.(r := s.r.(flags := SubFlags(s.r.flags, v, 1, 0x8000_0000).(cf := s.r.flags.cf))), R32(to), Wrap(v - 1))
    case Neg1(to) => Write(plain, R32(to), Not(Get(s.r, to)))
    case Jmp(rel) => GoTo(s, Wrap(s.eip + rel))
    case Jcc(c, rel) => GoTo(s, if Holds(s.r.flags, c) then Wrap(s.eip + rel) else s.eip)
    case JmpTo(src) => (match Read(s, src) case Some(v) => GoTo(s, v) case None => None)
    case Call(rel) =>
      (match ExecPush(s, s.eip) case Some(t) => GoTo(t, Wrap(s.eip + rel)) case None => None)
    case CallTo(src) =>
      (match Read(s, src)
       case Some(v) => (match ExecPush(s, s.eip) case Some(t) => GoTo(t, v) case None => None)
       case None => None)
    case Ret =>
      (match Load32(s.mem, s.r.esp)
       case Some(v) => GoTo(s.(r := s.r.(esp := Wrap(s.r.esp + 4))), v)
       case None => None)
    case Leave =>
      (match Load32(s.mem, s.r.ebp)
       case Some(v) => Some(plain.(r := plain.r.(esp := Wrap(s.r.ebp + 4), ebp := v)))
       case None => None)
    case Nop => Some(plain)
  }

  /** One instruction; None is a fault: nothing decodable, or an unmapped access. */
  function Step(prog: Program, s: Cpu): Option<Cpu> {
    if s.eip in prog
    then Exec(s.(eip := Wrap(s.eip + prog[s.eip].len)), prog[s.eip].i)
    else None
  }

  function Run(prog: Program, s: Cpu, n: nat): Option<Cpu>
    decreases n
  {
    if n == 0 then Some(s)
    else match Step(prog, s) case Some(t) => Run(prog, t, n - 1) case None => None
  }

  /** Execution from s arrives at t after finitely many instructions, without a fault. */
  ghost predicate Reaches(prog: Program, s: Cpu, t: Cpu) {
    exists n: nat :: Run(prog, s, n) == Some(t)
  }

  lemma Stay(prog: Program, s: Cpu)
    ensures Reaches(prog, s, s)
  {
    assert Run(prog, s, 0) == Some(s);
  }

  lemma {:induction false} RunAdd(prog: Program, s: Cpu, m: nat, n: nat)
    ensures Run(prog, s, m + n) == match Run(prog, s, m) case Some(t) => Run(prog, t, n) case None => None
    decreases m
  {
    if m > 0 {
      match Step(prog, s)
      case Some(t) => RunAdd(prog, t, m - 1, n);
      case None =>
    }
  }

  lemma Chain(prog: Program, s: Cpu, t: Cpu, u: Cpu)
    requires Reaches(prog, s, t) && Reaches(prog, t, u)
    ensures Reaches(prog, s, u)
  {
    var m: nat :| Run(prog, s, m) == Some(t);
    var n: nat :| Run(prog, t, n) == Some(u);
    RunAdd(prog, s, m, n);
  }

  lemma LoadedParts(code: Code, base: int, a: seq<byte>, b: seq<byte>)
    requires Loaded(code, base, a + b)
    ensures Loaded(code, base, a) && Loaded(code, base + |a|, b)
  {
    forall p | base <= p < base + |a| ensures p in code && At(code, p) == a[p - base] {
      assert At(code, p) == (a + b)[p - base];
    }
    forall p | base + |a| <= p < base + |a| + |b| ensures p in code && At(code, p) == b[p - base - |a|] {
      assert At(code, p) == (a + b)[p - base];
    }
  }

  function Based(r: Reg, disp: int): Addr { Addr(false, Of(r), NoReg, 1, disp) }

  /** The state behind one instruction that does not fault. */
  function Next(prog: Program, s: Cpu): Cpu {
    match Step(prog, s) case Some(t) => t case None => s
  }

  lemma Advance(prog: Program, s: Cpu, t: Cpu, u: Cpu)
    requires Reaches(prog, s, t) && Step(prog, t) == Some(u)
    ensures Reaches(prog, s, u)
  {
    assert Run(prog, u, 0) == Some(u);
    assert Run(prog, t, 1) == Some(u);
    Chain(prog, s, t, u);
  }
}
