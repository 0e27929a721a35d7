// One rule per instruction form: what a single step does, as an explicit
// next state.  The proofs about templates only ever use these rules.

module X86Rules {
  import opened Words
  import opened X86

  function Bump(s: Cpu, len: nat): Cpu {
    s.(eip := Wrap(s.eip + len), r := s.r.(flags := Resume(s.r.flags)))
  }

  lemma LoadRule(prog: Program, s0: Cpu, s: Cpu, n: Reg, a: Addr, len: nat, v: u32) returns (t: Cpu)
    requires Reaches(prog, s0, s) && Lists(prog, s.eip, Mov(R32(n), Mem32(a)), len)
    requires Load32(s.mem, Effective(s, a)) == Some(v)
    ensures Reaches(prog, s0, t)
    ensures t == Bump(s, len).(r := Set(Bump(s, len).r, n, v))
  {
    hide EvenParity, Load32, Store32, Load16, Store16, Load8, Store8, ByteOf, Low16;
    t := Next(prog, s);
    Advance(prog, s0, s, t);
  }

  lemma LoadByteRule(prog: Program, s0: Cpu, s: Cpu, n: Reg, a: Addr, len: nat, v: byte) returns (t: Cpu)
    requires Reaches(prog, s0, s) && Lists(prog, s.eip, Mov(Low8(n), Mem8(a)), len)
    requires Load8(s.mem, Effective(s, a)) == Some(v)
    ensures Reaches(prog, s0, t)
    ensures t == Bump(s, len).(r := Set(Bump(s, len).r, n, Get(s.r, n) - Get(s.r, n) % 256 + v))
  {
    hide EvenParity, Load32, Store32, Load16, Store16, Load8, Store8, ByteOf, Low16;
    t := Next(prog, s);
    Advance(prog, s0, s, t);
  }

  lemma LoadHalfRule(prog: Program, s0: Cpu, s: Cpu, n: Reg, a: Addr, len: nat, v: u32) returns (t: Cpu)
    requires Reaches(prog, s0, s) && Lists(prog, s.eip, Mov(R16(n), Mem16(a)), len)
    requires Load16(s.mem, Effective(s, a)) == Some(v) && v < 0x1_0000
    ensures Reaches(prog, s0, t)
    ensures Get(s.r, n) - Get(s.r, n) % 0x1_0000 + v < M32
    ensures t == Bump(s, len).(r := Set(Bump(s, len).r, n, Get(s.r, n) - Get(s.r, n) % 0x1_0000 + v))
  {
    hide EvenParity, Load32, Store32, Load16, Store16, Load8, Store8, ByteOf, Low16;
    t := Next(prog, s);
    Advance(prog, s0, s, t);
  }

  lemma MovRule(prog: Program, s0: Cpu, s: Cpu, n: Reg, src: Operand, len: nat, v: u32) returns (t: Cpu)
    requires Reaches(prog, s0, s) && Lists(prog, s.eip, Mov(R32(n), src), len)
    requires Read(s, src) == Some(v)
    ensures Reaches(prog, s0, t)
    ensures t == Bump(s, len).(r := Set(Bump(s, len).r, n, v))
  {
    ReadIgnoresEip(s, Wrap(s.eip + len), src);
    hide Read, ExecArith, ExecPush, EvenParity, Load32, Store32, Load16, Store16, Load8, Store8, ByteOf, Low16;
    t := Next(prog, s);
    Advance(prog, s0, s, t);
  }

  lemma StoreRule(prog: Program, s0: Cpu, s: Cpu, a: Addr, src: Operand, len: nat, v: u32, m: Memory)
    returns (t: Cpu)
    requires Reaches(prog, s0, s) && Lists(prog, s.eip, Mov(Mem32(a), src), len)
    requires Read(s, src) == Some(v) && Store32(s.mem, Effective(s, a), v) == Some(m)
    ensures Reaches(prog, s0, t)
    ensures t == Bump(s, len).(mem := m)
  {
    ReadIgnoresEip(s, Wrap(s.eip + len), src);
    hide Read, ExecArith, ExecPush, EvenParity, Load32, Store32, Load16, Store16, Load8, Store8, ByteOf, Low16;
    t := Next(prog, s);
    assert Effective(s.(eip := Wrap(s.eip + len)), a) == Effective(s, a);
    Advance(prog, s0, s, t);
  }

  lemma StoreHalfRule(prog: Program, s0: Cpu, s: Cpu, a: Addr, n: Reg, len: nat, m: Memory) returns (t: Cpu)
    requires Reaches(prog, s0, s) && Lists(prog, s.eip, Mov(Mem16(a), R16(n)), len)
    requires Store16(s.mem, Effective(s, a), Low16(Get(s.r, n))) == Some(m)
    ensures Reaches(prog, s0, t)
    ensures t == Bump(s, len).(mem := m)
  {
    hide EvenParity, Load32, Store32, Load16, Store16, Load8, Store8, ByteOf, Low16;
    t := Next(prog, s);
    Advance(prog, s0, s, t);
  }

  lemma StoreByteRule(prog: Program, s0: Cpu, s: Cpu, a: Addr, src: Operand, len: nat, v: u32, m: Memory)
    returns (t: Cpu)
    requires Reaches(prog, s0, s) && Lists(prog, s.eip, Mov(Mem8(a), src), len)
    requires Read(s, src) == Some(v) && Store8(s.mem, Effective(s, a), v) == Some(m)
    ensures Reaches(prog, s0, t)
    ensures t == Bump(s, len).(mem := m)
  {
    ReadIgnoresEip(s, Wrap(s.eip + len), src);
    hide Read, ExecArith, ExecPush, EvenParity, Load32, Store32, Load16, Store16, Load8, Store8, ByteOf, Low16;
    t := Next(prog, s);
    assert Effective(s.(eip := Wrap(s.eip + len)), a) == Effective(s, a);
    Advance(prog, s0, s, t);
  }

  lemma MovZxRule(prog: Program, s0: Cpu, s: Cpu, n: Reg, a: Addr, len: nat, v: byte) returns (t: Cpu)
    requires Reaches(prog, s0, s) && Lists(prog, s.eip, MovZx(n, Mem8(a)), len)
    requires Load8(s.mem, Effective(s, a)) == Some(v)
    ensures Reaches(prog, s0, t)
    ensures t == Bump(s, len).(r := Set(Bump(s, len).r, n, v))
  {
    hide EvenParity, Load32, Store32, Load16, Store16, Load8, Store8, ByteOf, Low16;
    t := Next(prog, s);
    Advance(prog, s0, s, t);
  }

  lemma LeaRule(prog: Program, s0: Cpu, s: Cpu, n: Reg, a: Addr, len: nat) returns (t: Cpu)
    requires Reaches(prog, s0, s) && Lists(prog, s.eip, Lea(n, a), len)
    ensures Reaches(prog, s0, t)
    ensures t == Bump(s, len).(r := Set(Bump(s, len).r, n, Effective(s, a)))
  {
    hide EvenParity, Load32, Store32;
    t := Next(prog, s);
    assert Effective(s.(eip := Wrap(s.eip + len)), a) == Effective(s, a);
    Advance(prog, s0, s, t);
  }

  lemma PushRule(prog: Program, s0: Cpu, s: Cpu, src: Operand, len: nat, v: u32, m: Memory) returns (t: Cpu)
    requires Reaches(prog, s0, s) && Lists(prog, s.eip, Push(src), len)
    requires Read(s, src) == Some(v) && s.r.esp >= 4 && Store32(s.mem, s.r.esp - 4, v) == Some(m)
    ensures Reaches(prog, s0, t)
    ensures t == Bump(s, len).(r := Bump(s, len).r.(esp := s.r.esp - 4), mem := m)
  {
    ReadIgnoresEip(s, Wrap(s.eip + len), src);
    hide Read, ExecArith, EvenParity, Load32, Store32, Load16, Store16, Load8, Store8;
    t := Next(prog, s);
    Advance(prog, s0, s, t);
  }

  lemma PopRule(prog: Program, s0: Cpu, s: Cpu, n: Reg, v: u32) returns (t: Cpu)
    requires Reaches(prog, s0, s) && Lists(prog, s.eip, Pop(n), 1)
    requires Load32(s.mem, s.r.esp) == Some(v)
    ensures Reaches(prog, s0, t)
    ensures t == Bump(s, 1).(r := Set(Bump(s, 1).r.(esp := Wrap(s.r.esp + 4)), n, v))
  {
    hide EvenParity, Load32, Store32, Load16, Store16, Load8, Store8, ByteOf, Low16;
    t := Next(prog, s);
    Advance(prog, s0, s, t);
  }

  lemma RetRule(prog: Program, s0: Cpu, s: Cpu, v: u32) returns (t: Cpu)
    requires Reaches(prog, s0, s) && Lists(prog, s.eip, Ret, 1)
    requires Load32(s.mem, s.r.esp) == Some(v)
    ensures Reaches(prog, s0, t)
    ensures t == s.(eip := v, r := s.r.(esp := Wrap(s.r.esp + 4), flags := Resume(s.r.flags)))
  {
    hide EvenParity, Load32, Store32, Load16, Store16, Load8, Store8, ByteOf, Low16;
    t := Next(prog, s);
    Advance(prog, s0, s, t);
  }

  lemma LeaveRule(prog: Program, s0: Cpu, s: Cpu, v: u32) returns (t: Cpu)
    requires Reaches(prog, s0, s) && Lists(prog, s.eip, Leave, 1)
    requires Load32(s.mem, s.r.ebp) == Some(v)
    ensures Reaches(prog, s0, t)
    ensures t == Bump(s, 1).(r := Bump(s, 1).r.(esp := Wrap(s.r.ebp + 4), ebp := v))
  {
    hide EvenParity, Load32, Store32, Load16, Store16, Load8, Store8, ByteOf, Low16;
    t := Next(prog, s);
    Advance(prog, s0, s, t);
  }

  lemma JmpRule(prog: Program, s0: Cpu, s: Cpu, rel: int, len: nat) returns (t: Cpu)
    requires Reaches(prog, s0, s) && Lists(prog, s.eip, Jmp(rel), len)
    ensures Reaches(prog, s0, t)
    ensures t == s.(eip := Wrap(Wrap(s.eip + len) + rel), r := s.r.(flags := Resume(s.r.flags)))
  {
    hide EvenParity, Load32, Store32, Load16, Store16, Load8, Store8, ByteOf, Low16;
    t := Next(prog, s);
    Advance(prog, s0, s, t);
  }

  lemma JccRule(prog: Program, s0: Cpu, s: Cpu, c: Cond, rel: int, len: nat) returns (t: Cpu)
    requires Reaches(prog, s0, s) && Lists(prog, s.eip, Jcc(c, rel), len)
    ensures Reaches(prog, s0, t)
    ensures t == s.(eip := if Holds(s.r.flags, c) then Wrap(Wrap(s.eip + len) + rel) else Wrap(s.eip + len),
                    r := s.r.(flags := Resume(s.r.flags)))
  {
    hide EvenParity, Load32, Store32, Load16, Store16, Load8, Store8, ByteOf, Low16;
    t := Next(prog, s);
    Advance(prog, s0, s, t);
  }

  lemma JmpToRule(prog: Program, s0: Cpu, s: Cpu, a: Addr, len: nat, v: u32) returns (t: Cpu)
    requires Reaches(prog, s0, s) && Lists(prog, s.eip, JmpTo(Mem32(a)), len)
    requires Load32(s.mem, Effective(s, a)) == Some(v)
    ensures Reaches(prog, s0, t)
    ensures t == s.(eip := v, r := s.r.(flags := Resume(s.r.flags)))
  {
    hide EvenParity, Load32, Store32;
    t := Next(prog, s);
    assert Effective(s.(eip := Wrap(s.eip + len)), a) == Effective(s, a);
    Advance(prog, s0, s, t);
  }

  lemma CallRule(prog: Program, s0: Cpu, s: Cpu, rel: int, len: nat, m: Memory) returns (t: Cpu)
    requires Reaches(prog, s0, s) && Lists(prog, s.eip, Call(rel), len)
    requires s.r.esp >= 4 && Store32(s.mem, s.r.esp - 4, Wrap(s.eip + len)) == Some(m)
    ensures Reaches(prog, s0, t)
    ensures t == s.(eip := Wrap(Wrap(s.eip + len) + rel), mem := m,
                    r := s.r.(esp := s.r.esp - 4, flags := Resume(s.r.flags)))
  {
    hide EvenParity, Load32, Store32, Load16, Store16, Load8, Store8, ByteOf, Low16;
    t := Next(prog, s);
    Advance(prog, s0, s, t);
  }

  lemma CallToRule(prog: Program, s0: Cpu, s: Cpu, a: Addr, len: nat, v: u32, m: Memory) returns (t: Cpu)
    requires Reaches(prog, s0, s) && Lists(prog, s.eip, CallTo(Mem32(a)), len)
    requires Load32(s.mem, Effective(s, a)) == Some(v)
    requires s.r.esp >= 4 && Store32(s.mem, s.r.esp - 4, Wrap(s.eip + len)) == Some(m)
    ensures Reaches(prog, s0, t)
    ensures t == s.(eip := v, mem := m, r := s.r.(esp := s.r.esp - 4, flags := Resume(s.r.flags)))
  {
    hide EvenParity, Load32, Store32;
    t := Next(prog, s);
    assert Effective(s.(eip := Wrap(s.eip + len)), a) == Effective(s, a);
    Advance(prog, s0, s, t);
  }

  lemma NopRule(prog: Program, s0: Cpu, s: Cpu) returns (t: Cpu)
    requires Reaches(prog, s0, s) && Lists(prog, s.eip, Nop, 1)
    ensures Reaches(prog, s0, t)
    ensures t == Bump(s, 1)
  {
    hide EvenParity, Load32, Store32, Load16, Store16, Load8, Store8, ByteOf, Low16;
    t := Next(prog, s);
    Advance(prog, s0, s, t);
  }

  /** ADD, SUB, AND, XOR on a register. */
  function AluResult(op: Alu, a: u32, b: u32): u32 {
    match op
    case ADD => Wrap(a + b)
    case SUB => Wrap(a - b)
    case AND => Words.And(a, b)
    case OR => Clamp(Words.Or(a, b))
    case XOR => Clamp(Words.Xor(a, b))
    case CMP => a
    case TEST => a
  }

  function AluFlags(f: Flags, op: Alu, a: u32, b: u32): Flags {
    match op
    case ADD => AddFlags(f, a, b, 0x8000_0000)
    case SUB => SubFlags(f, a, b, 0x8000_0000)
    case CMP => SubFlags(f, a, b, 0x8000_0000)
    case AND => LogicFlags(f, Words.And(a, b), 0x8000_0000)
    case TEST => LogicFlags(f, Words.And(a, b), 0x8000_0000)
    case OR => LogicFlags(f, Words.Or(a, b), 0x8000_0000)
    case XOR => LogicFlags(f, Words.Xor(a, b), 0x8000_0000)
  }

  lemma AluRule(prog: Program, s0: Cpu, s: Cpu, op: Alu, n: Reg, src: Operand, len: nat, b: u32)
    returns (t: Cpu)
    requires Reaches(prog, s0, s) && Lists(prog, s.eip, Arith(op, R32(n), src), len)
    requires Read(s, src) == Some(b)
    ensures Reaches(prog, s0, t)
    ensures var a := Get(s.r, n);
            t == s.(eip := Wrap(s.eip + len),
                    r := Set(s.r.(flags := AluFlags(s.r.flags, op, a, b)), n, AluResult(op, a, b)))
  {
    ReadIgnoresEip(s, Wrap(s.eip + len), src);
    hide ExecArith, Read, AluResult, AluFlags, Load32, Store32, Load16, Store16, Load8, Store8;
    t := Next(prog, s);
    ExecAlu(s.(eip := Wrap(s.eip + len)), op, n, src, b);
    Advance(prog, s0, s, t);
  }

  lemma ReadIgnoresEip(s: Cpu, eip: u32, src: Operand)
    ensures Read(s.(eip := eip), src) == Read(s, src)
  {
    hide Load32, Load16, Load8;
  }

  lemma ExecAlu(s: Cpu, op: Alu, n: Reg, src: Operand, b: u32)
    requires Read(s, src) == Some(b)
    ensures ExecArith(s, op, R32(n), src) ==
              Some(s.(r := Set(s.r.(flags := AluFlags(s.r.flags, op, Get(s.r, n), b)), n,
                               AluResult(op, Get(s.r, n), b))))
  {
    hide Words.Or, Words.And, Words.Xor, EvenParity, Load32, Store32, AddFlags, SubFlags, LogicFlags;
  }

  /** OR of a dword in memory. */
  lemma OrStoreRule(prog: Program, s0: Cpu, s: Cpu, a: Addr, b: u32, len: nat, v: u32, m: Memory)
    returns (t: Cpu)
    requires Reaches(prog, s0, s) && Lists(prog, s.eip, Arith(OR, Mem32(a), Imm(b)), len)
    requires Load32(s.mem, Effective(s, a)) == Some(v)
    requires Store32(s.mem, Effective(s, a), Clamp(Words.Or(v, b))) == Some(m)
    ensures Reaches(prog, s0, t)
    ensures t == s.(eip := Wrap(s.eip + len), mem := m,
                    r := s.r.(flags := AluFlags(s.r.flags, OR, v, b)))
  {
    hide ExecArith, Load32, Store32, AluFlags;
    t := Next(prog, s);
    assert Effective(s.(eip := Wrap(s.eip + len)), a) == Effective(s, a);
    ExecOrStore(s.(eip := Wrap(s.eip + len)), a, b, v, m);
    Advance(prog, s0, s, t);
  }

  lemma ExecOrStore(s: Cpu, a: Addr, b: u32, v: u32, m: Memory)
    requires Load32(s.mem, Effective(s, a)) == Some(v)
    requires Store32(s.mem, Effective(s, a), Clamp(Words.Or(v, b))) == Some(m)
    ensures ExecArith(s, OR, Mem32(a), Imm(b)) == Some(s.(mem := m, r := s.r.(flags := AluFlags(s.r.flags, OR, v, b))))
  {
    hide Words.Or, Words.And, Words.Xor, EvenParity, Load32, Store32, AddFlags, SubFlags, LogicFlags;
  }

  /** CMP of a dword in memory. */
  lemma CmpStoredRule(prog: Program, s0: Cpu, s: Cpu, a: Addr, b: u32, len: nat, v: u32) returns (t: Cpu)
    requires Reaches(prog, s0, s) && Lists(prog, s.eip, Arith(CMP, Mem32(a), Imm(b)), len)
    requires Load32(s.mem, Effective(s, a)) == Some(v)
    ensures Reaches(prog, s0, t)
    ensures t == s.(eip := Wrap(s.eip + len), r := s.r.(flags := SubFlags(s.r.flags, v, b, 0x8000_0000)))
  {
    hide Load32, SubFlags;
    t := Next(prog, s);
    assert Effective(s.(eip := Wrap(s.eip + len)), a) == Effective(s, a);
    Advance(prog, s0, s, t);
  }

  /** TEST of a byte register with itself. */
  lemma TestByteRule(prog: Program, s0: Cpu, s: Cpu, o: Operand, len: nat, v: byte) returns (t: Cpu)
    requires o.Low8? || o.High8?
    requires Reaches(prog, s0, s) && Lists(prog, s.eip, Arith(TEST, o, o), len)
    requires Read(s, o) == Some(v)
    ensures Reaches(prog, s0, t)
    ensures t == s.(eip := Wrap(s.eip + len), r := s.r.(flags := LogicFlags(s.r.flags, v, 0x80)))
  {
    t := Next(prog, s);
    AndSelf(v);
    Advance(prog, s0, s, t);
  }

  lemma IncRule(prog: Program, s0: Cpu, s: Cpu, n: Reg) returns (t: Cpu)
    requires Reaches(prog, s0, s) && Lists(prog, s.eip, Inc(n), 1)
    ensures Reaches(prog, s0, t)
    ensures t == s.(eip := Wrap(s.eip + 1),
                    r := Set(s.r.(flags := AddFlags(s.r.flags, Get(s.r, n), 1, 0x8000_0000).(cf := s.r.flags.cf)),
                             n, Wrap(Get(s.r, n) + 1)))
  {
    hide EvenParity, Load32, Store32, Load16, Store16, Load8, Store8, ByteOf, Low16;
    t := Next(prog, s);
    Advance(prog, s0, s, t);
  }

  lemma DecRule(prog: Program, s0: Cpu, s: Cpu, n: Reg) returns (t: Cpu)
    requires Reaches(prog, s0, s) && Lists(prog, s.eip, Dec(n), 1)
    ensures Reaches(prog, s0, t)
    ensures t == s.(eip := Wrap(s.eip + 1),
                    r := Set(s.r.(flags := SubFlags(s.r.flags, Get(s.r, n), 1, 0x8000_0000).(cf := s.r.flags.cf)),
                             n, Wrap(Get(s.r, n) - 1)))
  {
    hide EvenParity, Load32, Store32, Load16, Store16, Load8, Store8, ByteOf, Low16;
    t := Next(prog, s);
    Advance(prog, s0, s, t);
  }

  lemma NotRule(prog: Program, s0: Cpu, s: Cpu, n: Reg) returns (t: Cpu)
    requires Reaches(prog, s0, s) && Lists(prog, s.eip, Neg1(n), 2)
    ensures Reaches(prog, s0, t)
    ensures t == Bump(s, 2).(r := Set(Bump(s, 2).r, n, Not(Get(s.r, n))))
  {
    hide EvenParity, Load32, Store32, Load16, Store16, Load8, Store8, ByteOf, Low16;
    t := Next(prog, s);
    Advance(prog, s0, s, t);
  }
}
