// One whole call of the copier, from its entry to its return.

module CwdCopyRun {
  import opened Words
  import opened X86
  import opened X86Rules
  import opened CwdCopyCode
  import opened CwdCopy
  import opened CwdCopyLoop

  /** What a caller of the copier must arrange: the cdecl arguments, a terminated
      source, room at the destination, and no overlap among them and the stack slots. */
  ghost predicate Callable(s: Cpu, src: u32, dst: u32, len: nat, ret: u32) {
    && 4 <= s.r.esp <= M32 - 12
    && (forall a :: s.r.esp - 4 <= a < s.r.esp ==> a in s.mem)
    && Load32(s.mem, s.r.esp) == Some(ret)
    && Load32(s.mem, s.r.esp + 4) == Some(dst)
    && Load32(s.mem, s.r.esp + 8) == Some(src)
    && Source(s.mem, src, len)
    && dst + len < M32 && (forall a :: dst <= a <= dst + len ==> a in s.mem)
    && Apart(src, len + 1, dst, len + 1)
    && Apart(src, len + 1, s.r.esp - 4, 4)
    && Apart(dst, len + 1, s.r.esp - 4, 16)
  }

  /** The whole effect of the call on memory: the string with its NUL at the
      destination, the saved EDI below the stack pointer, nothing else. */
  ghost predicate CopyEffect(s: Cpu, m: Memory, src: u32, dst: u32, len: nat) {
    && m.Keys == s.mem.Keys
    && forall a {:trigger m[a]} :: a in m ==> ByteEffect(s, m, src, dst, len, a)
  }

  ghost predicate CopyDone(s: Cpu, t: Cpu, src: u32, dst: u32, len: nat, ret: u32) {
    && t.eip == ret && t.r.esp == Wrap(s.r.esp + 4) && t.r.eax == dst && t.fs == s.fs
    && t.r.ebx == s.r.ebx && t.r.esi == s.r.esi && t.r.edi == s.r.edi && t.r.ebp == s.r.ebp
    && SameControl(t.r.flags, s.r.flags)
    && CopyEffect(s, t.mem, src, dst, len)
  }

  lemma SourceKept(m: Memory, m': Memory, src: u32, len: nat, a: int)
    requires Source(m, src, len) && Apart(src, len + 1, a, 4) && m'.Keys == m.Keys
    requires forall x {:trigger m'[x]} :: x in m && !(a <= x < a + 4) ==> m'[x] == m[x]
    ensures Source(m', src, len)
  {
    forall x | src <= x <= src + len ensures At(m', x) == At(m, x) {
      assert x in m;
      assert m'[x] == m[x];
    }
  }

  /** PUSH EDI makes the call ready. */
  lemma Entering(s: Cpu, src: u32, dst: u32, len: nat, ret: u32) returns (m0: Memory)
    requires Callable(s, src, dst, len, ret)
    ensures Store32(s.mem, s.r.esp - 4, s.r.edi) == Some(m0) && m0.Keys == s.mem.Keys
    ensures forall x {:trigger m0[x]} :: x in s.mem && !(s.r.esp - 4 <= x < s.r.esp) ==> m0[x] == s.mem[x]
    ensures forall x {:trigger m0[x]} :: s.r.esp - 4 <= x < s.r.esp ==>
              x in m0 && m0[x] == ByteOf(s.r.edi, x - (s.r.esp - 4))
    ensures Ready(CopyCall(src, dst, len, ret, m0, s.r, s.fs))
  {
    hide Load32, Store32, Source, ByteOf, At;
    var a := s.r.esp - 4;
    assert a in s.mem && a + 1 in s.mem && a + 2 in s.mem && a + 3 in s.mem;
    m0 := Effect32(s.mem, a, s.r.edi);
    LoadStored(m0, a, s.r.edi);
    LoadKept(s.mem, m0, a, a + 4, 4);
    LoadKept(s.mem, m0, a, a + 8, 4);
    LoadKept(s.mem, m0, a, a + 12, 4);
    SourceKept(s.mem, m0, src, len, a);
    assert a + 4 == s.r.esp && a + 8 == s.r.esp + 4 && a + 12 == s.r.esp + 8;
  }

  /** The entry, up to the first loop. */
  lemma Enters(prog: Program, at: int, s: Cpu, c: CopyCall) returns (t: Cpu)
    requires Copier(prog, at) && 0 <= at < M32 - 248 && s.eip == at
    requires Ready(c) && c.r0 == s.r && c.fs == s.fs
    requires 4 <= s.r.esp < M32 - 11 && Store32(s.mem, s.r.esp - 4, s.r.edi) == Some(c.m0)
    ensures Reaches(prog, s, t)
    ensures t.eip == at + 117 && t.mem == c.m0 && t.r.esp == s.r.esp - 4 && t.r.edi == c.dst && Kept(c, t)
  {
    hide Ready, Reaches, Run, Step, Load32, Store32, CopierBody;
    ReadyWords(c);
    Stay(prog, s);
    t := PushRule(prog, s, s, R32(EDI), 1, s.r.edi, c.m0);
    t := LoadRule(prog, s, t, EDI, Based(ESP, 8), 4, c.dst);
    t := JmpRule(prog, s, t, 110, 2);
  }

  lemma ReadyWords(c: CopyCall)
    requires Ready(c)
    ensures Load32(c.m0, c.r0.esp + 4) == Some(c.dst) && Load32(c.m0, c.r0.esp + 8) == Some(c.src)
    ensures c.r0.esp >= 4
  {}

  lemma CopiedNothing(c: CopyCall)
    ensures Copied(c, c.m0, 0)
  {}

  /** Offsets 0 to 10 of the body. */
  lemma Aligns(prog: Program, at: int, c: CopyCall, s0: Cpu, s: Cpu) returns (t: Cpu)
    requires Align(prog, at) && 0 <= at < M32 - 131 && s.eip == at && Reaches(prog, s0, s)
    requires Ready(c) && Kept(c, s) && s.r.esp == c.r0.esp - 4 && s.r.edi == c.dst && s.mem == c.m0
    requires 4 <= c.r0.esp < M32 - 11
    ensures Reaches(prog, s0, t) && Top(at, if c.src % 4 == 0 then 41 else 12, c, t, 0)
  {
    hide Ready, Copied, Reaches, Run, Step, Load32, Words.And;
    ReadyWords(c);
    CopiedNothing(c);
    t := LoadRule(prog, s0, s, ECX, Based(ESP, 12), 4, c.src);
    AndThree(c.src);
    t := AluRule(prog, s0, t, TEST, ECX, Imm(3), 6, 3);
    t := JccRule(prog, s0, t, Equal, 29, 2);
  }

  /** From what the body leaves to what the call leaves. */
  ghost predicate EntryEffect(s: Cpu, c: CopyCall) {
    && c.m0.Keys == s.mem.Keys
    && (forall x {:trigger c.m0[x]} :: x in s.mem && !(s.r.esp - 4 <= x < s.r.esp) ==> c.m0[x] == s.mem[x])
    && (forall x {:trigger c.m0[x]} :: s.r.esp - 4 <= x < s.r.esp ==>
          x in c.m0 && c.m0[x] == ByteOf(s.r.edi, x - (s.r.esp - 4)))
  }

  /** A copied byte is the caller's source byte. */
  lemma CopiedByte(s: Cpu, c: CopyCall, m: Memory, a: int)
    requires Copied(c, m, c.len + 1) && EntryEffect(s, c) && a in m && c.dst <= a <= c.dst + c.len
    requires Apart(c.src, c.len + 1, s.r.esp - 4, 4) && c.src + (a - c.dst) in s.mem
    ensures m[a] == At(s.mem, c.src + (a - c.dst))
  {
    hide ByteOf;
    var x := c.src + (a - c.dst);
    assert c.m0[x] == s.mem[x];
  }

  /** Any other byte is as the entry left it. */
  lemma OtherByte(s: Cpu, c: CopyCall, m: Memory, a: int)
    requires Copied(c, m, c.len + 1) && EntryEffect(s, c) && a in m && !(c.dst <= a <= c.dst + c.len)
    ensures m[a] == if s.r.esp - 4 <= a < s.r.esp then ByteOf(s.r.edi, a - (s.r.esp - 4)) else s.mem[a]
  {
    hide ByteOf;
    assert m[a] == c.m0[a];
  }

  /** What every byte of memory is after the copy. */
  predicate ByteEffect(s: Cpu, m: Memory, src: u32, dst: u32, len: nat, a: int)
    requires a in m && a in s.mem
  {
    m[a] == if dst <= a <= dst + len then At(s.mem, src + (a - dst))
            else if s.r.esp - 4 <= a < s.r.esp then ByteOf(s.r.edi, a - (s.r.esp - 4))
            else s.mem[a]
  }

  lemma EffectAt(s: Cpu, c: CopyCall, m: Memory, a: int)
    requires Copied(c, m, c.len + 1) && EntryEffect(s, c) && a in m && a in s.mem
    requires Apart(c.src, c.len + 1, s.r.esp - 4, 4)
    requires forall x :: c.src <= x <= c.src + c.len ==> x in s.mem
    ensures ByteEffect(s, m, c.src, c.dst, c.len, a)
  {
    hide ByteOf, At, Copied, EntryEffect;
    if c.dst <= a <= c.dst + c.len {
      assert c.src + (a - c.dst) in s.mem;
      CopiedByte(s, c, m, a);
    } else {
      OtherByte(s, c, m, a);
    }
  }

  lemma EffectOf(s: Cpu, c: CopyCall, m: Memory)
    requires c.dst + c.len < M32 && Copied(c, m, c.len + 1) && EntryEffect(s, c)
    requires Apart(c.src, c.len + 1, s.r.esp - 4, 4) && Apart(c.dst, c.len + 1, s.r.esp - 4, 16)
    requires forall a :: c.src <= a <= c.src + c.len ==> a in s.mem
    ensures CopyEffect(s, m, c.src, c.dst, c.len)
  {
    SameKeysAtEnd(s, c, m);
    hide ByteEffect, Copied, EntryEffect;
    forall a {:trigger m[a]} | a in m ensures a in s.mem && ByteEffect(s, m, c.src, c.dst, c.len, a) {
      EffectAt(s, c, m, a);
    }
  }

  lemma SameKeysAtEnd(s: Cpu, c: CopyCall, m: Memory)
    requires Copied(c, m, c.len + 1) && EntryEffect(s, c)
    ensures m.Keys == s.mem.Keys
  {}

  /** Executing the copier's bytes: for every string, any alignment of source and
      destination, the call returns and its effect is exactly the copy. */
  lemma CopierRuns(code: Code, at: u32, s: Cpu, src: u32, dst: u32, len: nat, ret: u32)
    requires Loaded(code, at, ENTRY) && Loaded(code, at + 117, BODY) && at < M32 - 248 && s.eip == at
    requires Callable(s, src, dst, len, ret)
    ensures exists t :: Reaches(Disassembly(code), s, t) && CopyDone(s, t, src, dst, len, ret)
  {
    hide Reaches, Ready, Load32, Store32, Source, Copied, ByteOf, At, Disassembly, Loaded, CopyEffect, Ends,
         CopierBody;
    var prog := Disassembly(code);
    CopierDecodes(code, at);
    CopierHas(prog, at);
    var m0 := Entering(s, src, dst, len, ret);
    var c := CopyCall(src, dst, len, ret, m0, s.r, s.fs);
    var t := Enters(prog, at, s, c);
    var u := Aligns(prog, at + 117, c, s, t);
    if src % 4 == 0 {
      WordLoopEnds(prog, at + 117, c, s, u, 0);
    } else {
      LeadLoop(prog, at + 117, c, s, u, 0);
    }
    var v := EndOf(prog, c, s);
    SourceIn(s.mem, src, len);
    EffectOf(s, c, v.mem);
    assert CopyDone(s, v, src, dst, len, ret);
  }

  lemma CopierHas(prog: Program, at: int)
    requires Copier(prog, at)
    ensures CopierBody(prog, at + 117) && Align(prog, at + 117)
  {}

  lemma SourceIn(m: Memory, src: u32, len: nat)
    requires Source(m, src, len)
    ensures forall a :: src <= a <= src + len ==> a in m
  {}

  lemma EndOf(prog: Program, c: CopyCall, s0: Cpu) returns (t: Cpu)
    requires Ends(prog, c, s0)
    ensures Reaches(prog, s0, t) && Returned(c, t)
  {
    t :| Reaches(prog, s0, t) && Returned(c, t);
  }
}
