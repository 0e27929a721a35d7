// The two loops of the copier, by induction on what is left of the string.

module CwdCopyLoop {
  import opened Words
  import opened X86
  import opened X86Rules
  import opened CwdCopyCode
  import opened CwdCopy

  ghost predicate Ends(prog: Program, c: CopyCall, s0: Cpu) {
    exists t :: Reaches(prog, s0, t) && Returned(c, t)
  }

  // ---- Reading the source ----------------------------------------------

  lemma SourceByte(c: CopyCall, m: Memory, i: nat)
    requires Ready(c) && i <= c.len && Copied(c, m, i)
    ensures c.src + i < M32 && At(c.m0, c.src + i) < 256
    ensures Load8(m, c.src + i) == Some(At(c.m0, c.src + i))
    ensures At(c.m0, c.src + i) == 0 <==> i == c.len
  {
    assert c.src + i in c.m0;
  }

  /** What the word at an aligned source position tells about the string. */
  ghost predicate WordAt(c: CopyCall, i: nat, w: u32) {
    && ByteOf(w, 0) == At(c.m0, c.src + i)
    && (ByteOf(w, 0) == 0 <==> i == c.len)
    && (i + 1 <= c.len ==> ByteOf(w, 1) == At(c.m0, c.src + (i + 1)) && (ByteOf(w, 1) == 0 <==> i + 1 == c.len))
    && (i + 2 <= c.len ==> ByteOf(w, 2) == At(c.m0, c.src + (i + 2)) && (ByteOf(w, 2) == 0 <==> i + 2 == c.len))
    && (i + 3 <= c.len ==> ByteOf(w, 3) == At(c.m0, c.src + (i + 3)) && (ByteOf(w, 3) == 0 <==> i + 3 == c.len))
  }

  lemma SourceMapped(c: CopyCall, i: nat)
    requires Ready(c) && i <= c.len && (c.src + i) % 4 == 0
    ensures c.src + i + 3 < M32
    ensures c.src + i in c.m0 && c.src + i + 1 in c.m0 && c.src + i + 2 in c.m0 && c.src + i + 3 in c.m0
  {
    hide Load32, At;
    var a, n := c.src + i, c.src + c.len;
    var w := n - n % 4;
    if i + 3 > c.len {
      assert n - 3 < a <= n;
      assert w == a;
    }
  }

  lemma SourceWord(c: CopyCall, m: Memory, i: nat) returns (w: u32)
    requires Ready(c) && i <= c.len && Copied(c, m, i) && (c.src + i) % 4 == 0
    ensures c.src + i + 3 < M32 && Load32(m, c.src + i) == Some(w) && WordAt(c, i, w)
  {
    hide *;
    SourceMapped(c, i);
    SameKeys(c, m, i);
    var a := c.src + i;
    w := Join(m[a], m[a + 1], m[a + 2], m[a + 3]);
    BytesJoin(m[a], m[a + 1], m[a + 2], m[a + 3]);
    LoadIs(m, a);
    SourceByteOf(c, m, i, i);
    if i + 1 <= c.len { SourceByteOf(c, m, i, i + 1); }
    if i + 2 <= c.len { SourceByteOf(c, m, i, i + 2); }
    if i + 3 <= c.len { SourceByteOf(c, m, i, i + 3); }
    WordAtFrom(c, i, w);
  }

  lemma WordAtFrom(c: CopyCall, i: nat, w: u32)
    requires ByteOf(w, 0) == At(c.m0, c.src + i) && (ByteOf(w, 0) == 0 <==> i == c.len)
    requires i + 1 <= c.len ==> ByteOf(w, 1) == At(c.m0, c.src + (i + 1)) && (ByteOf(w, 1) == 0 <==> i + 1 == c.len)
    requires i + 2 <= c.len ==> ByteOf(w, 2) == At(c.m0, c.src + (i + 2)) && (ByteOf(w, 2) == 0 <==> i + 2 == c.len)
    requires i + 3 <= c.len ==> ByteOf(w, 3) == At(c.m0, c.src + (i + 3)) && (ByteOf(w, 3) == 0 <==> i + 3 == c.len)
    ensures WordAt(c, i, w)
  {}

  lemma LoadIs(m: Memory, a: int)
    requires a in m && a + 1 in m && a + 2 in m && a + 3 in m
    ensures Load32(m, a) == Some(Join(m[a], m[a + 1], m[a + 2], m[a + 3]))
  {}

  lemma SameKeys(c: CopyCall, m: Memory, i: nat)
    requires Copied(c, m, i)
    ensures m.Keys == c.m0.Keys
  {}

  lemma SourceByteOf(c: CopyCall, m: Memory, i: nat, k: nat)
    requires Ready(c) && i <= k <= c.len && Copied(c, m, i)
    ensures c.src + k in m && m[c.src + k] == At(c.m0, c.src + k)
    ensures At(c.m0, c.src + k) == 0 <==> k == c.len
  {
    assert c.src + k in c.m0;
  }

  // ---- The byte loop ----------------------------------------------------

  /** At the top of the byte loop (offset 12) or of the word loop (offset 41). */
  ghost predicate Top(at: int, off: int, c: CopyCall, s: Cpu, i: nat) {
    && 0 <= at < M32 - 131 && s.eip == at + off
    && Inside(c, s, i) && s.r.ecx == c.src + i
  }

  /** Offsets 12 to 19: load a byte and test it. */
  lemma LeadTest(prog: Program, at: int, c: CopyCall, s0: Cpu, s: Cpu, i: nat) returns (t: Cpu)
    requires Lead(prog, at) && Top(at, 12, c, s, i) && Reaches(prog, s0, s)
    ensures Reaches(prog, s0, t) && Inside(c, t, i) && t.mem == s.mem
    ensures c.src + i < M32 && t.r.ecx == Wrap(c.src + i + 1)
    ensures ByteOf(t.r.edx, 0) == At(c.m0, c.src + i)
    ensures t.eip == if i == c.len then at + 123 else at + 21
  {
    hide Ready, Copied, Reaches, Run, Step, Load8, ByteOf, At;
    SourceByte(c, s.mem, i);
    var v := At(c.m0, c.src + i);
    LowByteReplaced(s.r.edx, v);
    t := LoadByteRule(prog, s0, s, EDX, Based(ECX, 0), 2, v);
    t := AluRule(prog, s0, t, ADD, ECX, Imm(1), 3, 1);
    t := TestByteRule(prog, s0, t, Low8(EDX), 2, v);
    t := JccRule(prog, s0, t, Equal, 102, 2);
  }

  /** Offsets 21 to 26: store the byte. */
  lemma LeadStore(prog: Program, at: int, c: CopyCall, s0: Cpu, s: Cpu, i: nat) returns (t: Cpu)
    requires Lead(prog, at) && LeadNext(prog, at) && 0 <= at < M32 - 131 && s.eip == at + 21
    requires Inside(c, s, i) && i < c.len && s.r.ecx == c.src + i + 1
    requires ByteOf(s.r.edx, 0) == At(c.m0, c.src + i) && Reaches(prog, s0, s)
    ensures Reaches(prog, s0, t) && Top(at, 26, c, t, i + 1)
  {
    hide Ready, Copied, Reaches, Run, Step, Load8, Store8, ByteOf, At;
    ByteOfByte(ByteOf(s.r.edx, 0));
    var m := StoreOne(c, s.mem, i, ByteOf(s.r.edx, 0));
    DestinationBound(c, i + 1);
    t := StoreByteRule(prog, s0, s, Based(EDI, 0), Low8(EDX), 2, ByteOf(s.r.edx, 0), m);
    t := AluRule(prog, s0, t, ADD, EDI, Imm(1), 3, 1);
  }

  /** Offsets 26 to 34: go on at 12 or, once the source is aligned, at 41. */
  lemma LeadAgain(prog: Program, at: int, c: CopyCall, s0: Cpu, s: Cpu, i: nat) returns (t: Cpu)
    requires LeadNext(prog, at) && Top(at, 26, c, s, i) && Reaches(prog, s0, s)
    ensures Reaches(prog, s0, t) && Top(at, if (c.src + i) % 4 == 0 then 41 else 12, c, t, i)
  {
    hide Ready, Copied, Reaches, Run, Step, Words.And;
    AndThree(s.r.ecx);
    t := AluRule(prog, s0, s, TEST, ECX, Imm(3), 6, 3);
    t := JccRule(prog, s0, t, NotEqual, -22, 2);
    if (c.src + i) % 4 == 0 {
      t := JmpRule(prog, s0, t, 5, 2);
    }
  }

  lemma {:induction false} LeadLoop(prog: Program, at: int, c: CopyCall, s0: Cpu, s: Cpu, i: nat)
    requires CopierBody(prog, at) && Top(at, 12, c, s, i) && Reaches(prog, s0, s)
    ensures Ends(prog, c, s0)
    decreases c.len - i
  {
    hide Reaches, Ready, Copied, ByteOf, At, Returned;
    DestinationBound(c, c.len);
    var t := LeadTest(prog, at, c, s0, s, i);
    if i == c.len {
      SourceByte(c, s.mem, i);
      Tail1Ends(prog, at, c, s0, t);
    } else {
      DestinationBound(c, i + 1);
      var u := LeadStore(prog, at, c, s0, t, i);
      u := LeadAgain(prog, at, c, s0, u, i + 1);
      if (c.src + (i + 1)) % 4 == 0 {
        WordLoopEnds(prog, at, c, s0, u, i + 1);
      } else {
        LeadLoop(prog, at, c, s0, u, i + 1);
      }
    }
  }

  // ---- The word loop ----------------------------------------------------

  /** Offsets 41 to 53: the probe word in EAX. */
  lemma Probes(prog: Program, at: int, c: CopyCall, s0: Cpu, s: Cpu, i: nat, w: u32) returns (t: Cpu)
    requires Probe(prog, at) && Top(at, 41, c, s, i) && Reaches(prog, s0, s)
    requires Load32(s.mem, c.src + i) == Some(w)
    ensures Reaches(prog, s0, t) && Top(at, 55, c, t, i) && t.mem == s.mem
    ensures t.r.eax == Clamp(Words.Xor(Clamp(Words.Xor(w, U32_MAX)), Wrap(0x7efe_feff + w)))
  {
    hide Ready, Copied, Reaches, Run, Step, Load32, ByteOf, At, Words.Xor;
    t := MovRule(prog, s0, s, EDX, Imm(0x7efe_feff), 5, 0x7efe_feff);
    t := LoadRule(prog, s0, t, EAX, Based(ECX, 0), 2, w);
    t := AluRule(prog, s0, t, ADD, EDX, R32(EAX), 2, w);
    t := AluRule(prog, s0, t, XOR, EAX, Imm(U32_MAX), 3, U32_MAX);
    t := AluRule(prog, s0, t, XOR, EAX, R32(EDX), 2, t.r.edx);
  }

  /** Offsets 55 to 65: reload the word, advance, branch on the probe. */
  lemma ProbeBranch(prog: Program, at: int, c: CopyCall, s0: Cpu, s: Cpu, i: nat, w: u32) returns (t: Cpu)
    requires ProbeTest(prog, at) && Top(at, 55, c, s, i) && Reaches(prog, s0, s)
    requires Load32(s.mem, c.src + i) == Some(w)
    ensures Reaches(prog, s0, t) && Inside(c, t, i) && t.mem == s.mem
    ensures t.r.ecx == Wrap(c.src + i + 4) && t.r.edx == w
    ensures t.eip == if Words.And(s.r.eax, 0x8101_0100) == 0 then at + 36 else at + 67
  {
    hide Ready, Copied, Reaches, Run, Step, Load32, ByteOf, At, Words.And;
    t := LoadRule(prog, s0, s, EDX, Based(ECX, 0), 2, w);
    t := AluRule(prog, s0, t, ADD, ECX, Imm(4), 3, 4);
    t := AluRule(prog, s0, t, TEST, EAX, Imm(0x8101_0100), 5, 0x8101_0100);
    t := JccRule(prog, s0, t, Equal, -31, 2);
  }

  /** The state behind the probe, at the word w of position i. */
  ghost predicate Probed(at: int, off: int, c: CopyCall, s: Cpu, i: nat, w: u32) {
    && 0 <= at < M32 - 131 && s.eip == at + off && Inside(c, s, i)
    && s.r.ecx == Wrap(c.src + i + 4) && s.r.edx == w && WordAt(c, i, w)
  }

  /** Offsets 67 to 73: the first two bytes. */
  lemma TestLow(prog: Program, at: int, c: CopyCall, s0: Cpu, s: Cpu, i: nat, w: u32) returns (t: Cpu)
    requires Low(prog, at) && Probed(at, 67, c, s, i, w) && Reaches(prog, s0, s)
    ensures Reaches(prog, s0, t)
    ensures Probed(at, if ByteOf(w, 0) == 0 then 123 else if ByteOf(w, 1) == 0 then 114 else 75, c, t, i, w)
  {
    hide Ready, Copied, Reaches, Run, Step, WordAt, ByteOf, At;
    t := TestByteRule(prog, s0, s, Low8(EDX), 2, ByteOf(w, 0));
    t := JccRule(prog, s0, t, Equal, 52, 2);
    if ByteOf(w, 0) != 0 {
      t := TestByteRule(prog, s0, t, High8(EDX), 2, ByteOf(w, 1));
      t := JccRule(prog, s0, t, Equal, 39, 2);
    }
  }

  /** Offsets 75 to 91: the last two bytes, or a false positive of the probe. */
  lemma TestHigh(prog: Program, at: int, c: CopyCall, s0: Cpu, s: Cpu, i: nat, w: u32) returns (t: Cpu)
    requires Mid(prog, at) && High(prog, at) && Probed(at, 75, c, s, i, w) && Reaches(prog, s0, s)
    ensures Reaches(prog, s0, t)
    ensures Probed(at, if ByteOf(w, 2) == 0 then 101 else if ByteOf(w, 3) == 0 then 93 else 36, c, t, i, w)
  {
    hide Ready, Copied, Reaches, Run, Step, WordAt, ByteOf, At, Words.And;
    AndByte2(w);
    AndByte3(w);
    t := AluRule(prog, s0, s, TEST, EDX, Imm(0x00ff_0000), 6, 0x00ff_0000);
    t := JccRule(prog, s0, t, Equal, 18, 2);
    if ByteOf(w, 2) != 0 {
      t := AluRule(prog, s0, t, TEST, EDX, Imm(0xff00_0000), 6, 0xff00_0000);
      t := JccRule(prog, s0, t, Equal, 2, 2);
      if ByteOf(w, 3) != 0 {
        t := JmpRule(prog, s0, t, -57, 2);
      }
    }
  }

  /** Offsets 36 and 38: store the whole word and go on. */
  lemma StoresWord(prog: Program, at: int, c: CopyCall, s0: Cpu, s: Cpu, i: nat, w: u32) returns (t: Cpu)
    requires StoreWord(prog, at) && Probed(at, 36, c, s, i, w) && Reaches(prog, s0, s)
    requires ByteOf(w, 0) != 0 && ByteOf(w, 1) != 0 && ByteOf(w, 2) != 0 && ByteOf(w, 3) != 0
    ensures i + 4 <= c.len && Reaches(prog, s0, t) && Top(at, 41, c, t, i + 4)
  {
    hide Ready, Copied, Reaches, Run, Step, ByteOf, At, Store32;
    assert i + 4 <= c.len;
    DestinationBound(c, i + 4);
    var m := StoreFour(c, s.mem, i, w);
    t := StoreRule(prog, s0, s, Based(EDI, 0), R32(EDX), 2, w, m);
    t := AluRule(prog, s0, t, ADD, EDI, Imm(4), 3, 4);
  }

  /** The probe decides as ProbeMeaning says. */
  lemma ProbeOf(w: u32)
    ensures var p := Clamp(Words.Xor(Clamp(Words.Xor(w, U32_MAX)), Wrap(0x7efe_feff + w)));
            Words.And(p, 0x8101_0100) == 0 <==>
            ByteOf(w, 0) != 0 && ByteOf(w, 1) != 0 && ByteOf(w, 2) != 0 && ByteOf(w, 3) % 0x80 != 0
  {
    hide Words.Xor, Words.And, ByteOf, Join, Bit, Clamp;
    JoinBytes(w);
    Pow2Values();
    XorBound(w, U32_MAX, 32);
    ProbeMeaning(ByteOf(w, 0), ByteOf(w, 1), ByteOf(w, 2), ByteOf(w, 3), Wrap(0x7efe_feff + w));
    ClampIs(Words.Xor(w, U32_MAX));
    ClampIs(Words.Xor(Words.Xor(w, U32_MAX), Wrap(0x7efe_feff + w)));
  }

  lemma ClampIs(x: int)
    requires 0 <= x < 0x1_0000_0000
    ensures Clamp(x) == x
  {}

  lemma {:induction false} WordLoopEnds(prog: Program, at: int, c: CopyCall, s0: Cpu, s: Cpu, i: nat)
    requires CopierBody(prog, at) && Top(at, 41, c, s, i) && (c.src + i) % 4 == 0 && Reaches(prog, s0, s)
    ensures Ends(prog, c, s0)
    decreases c.len - i
  {
    hide Reaches, Ready, Copied, ByteOf, At, Returned, Words.And, Words.Xor, Clamp;
    var w := SourceWord(c, s.mem, i);
    ProbeOf(w);
    var t := Probes(prog, at, c, s0, s, i, w);
    t := ProbeBranch(prog, at, c, s0, t, i, w);
    if t.eip == at + 67 {
      t := TestLow(prog, at, c, s0, t, i, w);
    }
    if t.eip == at + 75 {
      t := TestHigh(prog, at, c, s0, t, i, w);
    }
    Dispatch(prog, at, c, s0, t, i, w);
  }

  /** Every way out of the tests. */
  lemma {:induction false} Dispatch(prog: Program, at: int, c: CopyCall, s0: Cpu, t: Cpu, i: nat, w: u32)
    requires CopierBody(prog, at) && Reaches(prog, s0, t) && (c.src + i) % 4 == 0
    requires t.eip == at + 36 ==> Probed(at, 36, c, t, i, w)
    requires t.eip == at + 36 ==> (ByteOf(w, 0) != 0 && ByteOf(w, 1) != 0 && ByteOf(w, 2) != 0 && ByteOf(w, 3) != 0)
    requires t.eip != at + 36 ==>
               Probed(at, if ByteOf(w, 0) == 0 then 123 else if ByteOf(w, 1) == 0 then 114
                          else if ByteOf(w, 2) == 0 then 101 else 93, c, t, i, w)
    requires t.eip == at + 93 ==> ByteOf(w, 3) == 0
    ensures Ends(prog, c, s0)
    decreases c.len - i, 0
  {
    hide Reaches, Ready, Copied, ByteOf, At, Returned;
    if t.eip == at + 36 {
      var u := StoresWord(prog, at, c, s0, t, i, w);
      WordLoopEnds(prog, at, c, s0, u, i + 4);
    } else if ByteOf(w, 0) == 0 {
      Tail1Ends(prog, at, c, s0, t);
    } else if ByteOf(w, 1) == 0 {
      Tail2Ends(prog, at, c, s0, t, i);
    } else if ByteOf(w, 2) == 0 {
      Tail3Ends(prog, at, c, s0, t, i);
    } else {
      Tail4Ends(prog, at, c, s0, t, i);
    }
  }
}
