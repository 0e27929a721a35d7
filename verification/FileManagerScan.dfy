// The file manager behind the directory wrapper: it scans to the NUL and
// overwrites it with the separator and a new NUL.

module FileManagerScan {
  import opened Words
  import opened X86
  import opened X86Rules
  import opened StackWindow
  import opened FileManagerCode
  import opened FileManagerReady

  /** A terminated directory with room for one more byte. */
  ghost predicate Directory(m: Memory, buffer: u32, len: nat) {
    && 0 < buffer && buffer + len + 1 < M32
    && (forall a :: buffer <= a <= buffer + len + 1 ==> a in m)
    && (forall a {:trigger At(m, a)} :: buffer <= a < buffer + len ==> At(m, a) != 0)
    && At(m, buffer + len) == 0
  }

  lemma DirectoryByte(m: Memory, buffer: u32, len: nat, i: nat)
    requires Directory(m, buffer, len) && i <= len
    ensures buffer + i < M32 - 1 && Load8(m, buffer + i) == Some(At(m, buffer + i))
    ensures At(m, buffer + i) == 0 <==> i == len
  {}

  /** At the top of the scan, i bytes behind the NUL search's start. */
  ghost predicate Scanning(l: ReadySite, s0: Cpu, s: Cpu, i: nat, len: nat) {
    && ValidSite(l) && s.eip == l.manager + 32 && i <= len && Directory(s.mem, l.buffer, len)
    && s.mem == s0.mem && s.fs == s0.fs
    && s.r.edi == l.buffer + i - 1 && Clear8(s.r.eax) == Clear8(l.buffer)
    && s.r.esp == s0.r.esp && s.r.ebx == s0.r.ebx && s.r.esi == s0.r.esi && s.r.ebp == s0.r.ebp
    && s.r.flags.tf == s0.r.flags.tf && s.r.flags.df == s0.r.flags.df && s.r.flags.rest == s0.r.flags.rest
  }

  /** Behind the scan: EDI is at the NUL and AL is zero. */
  ghost predicate Scanned(l: ReadySite, s0: Cpu, s: Cpu, len: nat) {
    && ValidSite(l) && s.eip == l.manager + 40 && s.mem == s0.mem && s.fs == s0.fs
    && l.buffer + len < M32 && s.r.edi == l.buffer + len && s.r.eax == Clear8(l.buffer)
    && s.r.esp == s0.r.esp && s.r.ebx == s0.r.ebx && s.r.esi == s0.r.esi && s.r.ebp == s0.r.ebp
    && s.r.flags.tf == s0.r.flags.tf && s.r.flags.df == s0.r.flags.df && s.r.flags.rest == s0.r.flags.rest
  }

  lemma ScanStep(prog: Program, l: ReadySite, s0: Cpu, s: Cpu, i: nat, len: nat) returns (t: Cpu)
    requires ScanListed(prog, l) && Scanning(l, s0, s, i, len) && Reaches(prog, s0, s)
    ensures Reaches(prog, s0, t)
    ensures if i == len then Scanned(l, s0, t, len) else Scanning(l, s0, t, i + 1, len)
  {
    hide Reaches, Run, Step, Directory, Clear8, EvenParity, At, Load8;
    DirectoryByte(s.mem, l.buffer, len, i);
    var b := At(s.mem, l.buffer + i);
    LowByteReplaced(s.r.eax, b);
    Clear8Kept(s.r.eax, b);
    t := LoadByteRule(prog, s0, s, EAX, Based(EDI, 1), 3, b);
    t := IncRule(prog, s0, t, EDI);
    t := TestByteRule(prog, s0, t, Low8(EAX), 2, b);
    t := JccRule(prog, s0, t, NotEqual, -8, 2);
  }

  lemma {:induction false} ScanEnds(prog: Program, l: ReadySite, s0: Cpu, s: Cpu, i: nat, len: nat) returns (t: Cpu)
    requires ScanListed(prog, l) && Scanning(l, s0, s, i, len) && Reaches(prog, s0, s)
    ensures Reaches(prog, s0, t) && Scanned(l, s0, t, len)
    decreases len - i
  {
    hide Reaches, Directory, ScanListed;
    t := ScanStep(prog, l, s0, s, i, len);
    if i < len {
      t := ScanEnds(prog, l, s0, t, i + 1, len);
    }
  }

  /** From the return of the wrapper to the NUL: stop 7. */
  lemma ScansToNul(prog: Program, l: ReadySite, s: Cpu, len: nat) returns (t: Cpu)
    requires ValidSite(l) && ScanListed(prog, l) && s.eip == l.manager + 16 && s.r.esp < M32 - 8
    requires s.r.eax == l.buffer && Directory(s.mem, l.buffer, len)
    ensures Reaches(prog, s, t) && Scanned(l, s.(r := s.r.(esp := s.r.esp + 8)), t, len)
  {
    hide Reaches, Run, Step, Directory, EvenParity, Clear8;
    Stay(prog, s);
    var u := MovRule(prog, s, s, EDI, Imm(l.buffer), 5, l.buffer);
    u := AluRule(prog, s, u, ADD, ESP, Imm(8), 3, 8);
    u := DecRule(prog, s, u, EDI);
    u := LeaRule(prog, s, u, ESP, Based(ESP, 0), 7);
    Stay(prog, u);
    assert Scanning(l, u, u, 0, len);
    t := ScanEnds(prog, l, u, u, 0, len);
    Chain(prog, s, u, t);
  }

  lemma SuffixRegister(b: u32)
    ensures Clear8(b) == And(b, 0xffff_ff00)
    ensures Clear8(b) - Clear8(b) % 0x1_0000 + 0x5c == Or(And(b, 0xffff_0000), 0x5c)
  {
    hide And, Or;
    ClearLow8(b);
    ClearLow16(b);
    ClearTwice(b);
    SeparatorFits(b - b % 0x1_0000);
  }

  lemma ClearTwice(b: u32)
    ensures Clear8(b) - Clear8(b) % 0x1_0000 == b - b % 0x1_0000
    ensures (b - b % 0x1_0000) % 256 == 0
  {
    var q, r := b / 0x1_0000, b % 0x1_0000;
    var b1, b0 := r / 256, r % 256;
    Divided256(256 * q + b1, b0);
    Divided65536(q, 256 * b1);
    Divided256(256 * q, 0);
  }

  lemma SeparatorFits(x: u32)
    requires x % 256 == 0
    ensures Or(x, 0x5c) == x + 0x5c
  {
    AndSplit8(x, 0x5c, 0);
    assert And(0, 0x5c) == 0 && And(x / 256, 0) == 0;
    hide And, Or;
    OrDisjoint(x, 0x5c);
  }

  /** The separator and its NUL over the old NUL: stop 8. */
  lemma StoresSuffix(prog: Program, l: ReadySite, s0: Cpu, s: Cpu, len: nat) returns (t: Cpu, m: Memory)
    requires SuffixListed(prog, l) && Scanned(l, s0, s, len) && Directory(s.mem, l.buffer, len)
    requires Load16(s.mem, l.suffix) == Some(0x5c)
    ensures Reaches(prog, s, t) && l.buffer + len + 1 < M32
    ensures m.Keys == s.mem.Keys && l.buffer + len in m && l.buffer + len + 1 in m
    ensures m[l.buffer + len] == 0x5c && m[l.buffer + len + 1] == 0
    ensures forall x {:trigger m[x]} :: x in m && !(l.buffer + len <= x < l.buffer + len + 2) ==> m[x] == s.mem[x]
    ensures Or(And(l.buffer, 0xffff_0000), 0x5c) < M32
    ensures t == s.(eip := l.manager + 49, mem := m,
                    r := s.r.(eax := Or(And(l.buffer, 0xffff_0000), 0x5c), flags := Resume(s.r.flags)))
  {
    hide Reaches, Run, Step, Directory, Clear8, And, Or, Load16, Store16, ByteOf, Low16;
    Stay(prog, s);
    SuffixRegister(l.buffer);
    Room(s.mem, l.buffer, len);
    var u := LoadHalfRule(prog, s, s, EAX, Addr(false, NoReg, NoReg, 1, l.suffix), 6, 0x5c);
    SuffixBytes(u.r.eax);
    m := Effect16(u.mem, l.buffer + len, Low16(u.r.eax));
    t := StoreHalfRule(prog, s, u, Based(EDI, 0), EAX, 3, m);
  }

  lemma Room(m: Memory, buffer: u32, len: nat)
    requires Directory(m, buffer, len)
    ensures buffer + len + 1 < M32 && buffer + len in m && buffer + len + 1 in m
  {}

  lemma SuffixBytes(v: u32)
    requires v % 0x1_0000 == 0x5c
    ensures ByteOf(Low16(v), 0) == 0x5c && ByteOf(Low16(v), 1) == 0
  {}

  /** POP EDI; RET of the manager: stop 9. */
  lemma ManagerReturns(prog: Program, l: ReadySite, s: Cpu, edi: u32, ret: u32) returns (t: Cpu)
    requires ValidSite(l) && SuffixListed(prog, l) && s.eip == l.manager + 49 && s.r.esp < M32 - 8
    requires Load32(s.mem, s.r.esp) == Some(edi) && Load32(s.mem, s.r.esp + 4) == Some(ret)
    ensures Reaches(prog, s, t)
    ensures t == s.(eip := ret, r := s.r.(edi := edi, esp := s.r.esp + 8, flags := Resume(s.r.flags)))
  {
    hide Reaches, Run, Step, Load32;
    Stay(prog, s);
    t := PopRule(prog, s, s, EDI, edi);
    t := RetRule(prog, s, t, ret);
  }

  /** The directory stands where the frame's removal does not write. */
  ghost predicate BufferApart(l: ReadySite, h: Registers, fs: u32) {
    && Apart(l.buffer - 4, 136, h.esp - 20, 88) && Apart(l.buffer - 4, 136, fs, 28)
    && Apart(l.suffix, 2, h.esp - 20, 88) && Apart(l.suffix, 2, fs, 28)
  }

  lemma DirectoryKept(m0: Memory, m: Memory, l: ReadySite, h: Registers, fs: u32, st: seq<u32>, tib: seq<u32>, len: nat)
    requires Held(m0, m, fs, h, st, tib) && BufferApart(l, h, fs) && Directory(m0, l.buffer, len) && len <= 126
    requires Load16(m0, l.suffix) == Some(0x5c)
    ensures Directory(m, l.buffer, len) && Load16(m, l.suffix) == Some(0x5c)
    ensures forall a {:trigger At(m, a)} :: l.buffer - 4 <= a < l.buffer + 132 ==> At(m, a) == At(m0, a)
  {
    hide Load32;
    forall a | l.buffer - 4 <= a < l.buffer + 132 ensures At(m, a) == At(m0, a) {
      assert a in m <==> a in m0;
      if a in m { assert m[a] == m0[a]; }
    }
    assert m[l.suffix] == m0[l.suffix] && m[l.suffix + 1] == m0[l.suffix + 1];
  }

  lemma SuffixInBuffer(m0: Memory, m6: Memory, m: Memory, buffer: u32, len: nat)
    requires 3 <= len <= 126 && Directory(m6, buffer, len) && m.Keys == m6.Keys && 4 <= buffer
    requires forall a {:trigger At(m6, a)} :: buffer - 4 <= a < buffer + 132 ==> At(m6, a) == At(m0, a)
    requires buffer + len in m && buffer + len + 1 in m && m[buffer + len] == 0x5c && m[buffer + len + 1] == 0
    requires forall x {:trigger m[x]} :: x in m && !(buffer + len <= x < buffer + len + 2) ==> m[x] == m6[x]
    ensures ReadyBuffer(Window(m0, buffer - 4, 136), Window(m, buffer - 4, 136), len, true)
  {
    var before, now := Window(m0, buffer - 4, 136), Window(m, buffer - 4, 136);
    forall i | 0 <= i < 136 ensures now[i] == before[len + 4 := 0x5c][len + 5 := 0][i] {
      var a := buffer - 4 + i;
      assert before[i] == At(m6, a);
      assert now[i] == At(m, a);
      assert a in m <==> a in m6;
    }
    forall i | 4 <= i < len + 4 ensures before[i] != 0 {
      assert before[i] == At(m6, buffer + (i - 4));
    }
    assert before[len + 4] == At(m6, buffer + len);
  }

  /** From the API return to the manager's return: stops 3 to 9 are as the observer
      demands, the previous exception head is back, and the directory ends in the
      separator inside its 128 bytes. */
  lemma DirectoryCompleted(code: Code, l: ReadySite, rel: u32, h: Registers, caller: Registers, s: Cpu, st: seq<u32>,
                           tib: seq<u32>, len: nat) returns (run: seq<Cpu>)
    requires Loaded(code, l.tail, TailBytes(l)) && Loaded(code, l.cleanup, CleanupBytes(l))
    requires Loaded(code, l.unlock, UnlockBytes(l)) && Loaded(code, l.manager, ManagerBytes(l, rel))
    requires Loaded(code, l.epilogue, [0x8b, 0x4d, 0xf0] + RESTORE_HEAD + EPILOGUE_POPS)
    requires ApiReturned(l, h, s) && Held(s.mem, s.mem, s.fs, h, st, tib) && |st| == 22 && |tib| == 7
    requires FrameStack(l, h, caller, st) && 3 <= len <= 126 && 4 <= l.buffer
    requires Directory(s.mem, l.buffer, len) && Load16(s.mem, l.suffix) == Some(0x5c) && BufferApart(l, h, s.fs)
    ensures |run| == 7 && run[0] == s
    ensures forall k :: 0 <= k < 7 ==> ReadyFrame(k + 3, h, caller, run[k].r, l.buffer, len)
    ensures forall k :: 1 <= k < 7 ==> Reaches(Disassembly(code), run[k - 1], run[k])
    ensures run[1].eip == l.epilogue && run[2].eip == l.tail + 23 && run[3].eip == l.manager + 16
    ensures run[4].eip == l.manager + 40 && run[5].eip == l.manager + 49 && run[6].eip == st[21]
    ensures Load32(run[6].mem, s.fs) == Some(st[12])
    ensures ReadyBuffer(Window(s.mem, l.buffer - 4, 136), Window(run[4].mem, l.buffer - 4, 136), len, false)
    ensures ReadyBuffer(Window(s.mem, l.buffer - 4, 136), Window(run[6].mem, l.buffer - 4, 136), len, true)
  {
    hide Reaches, Run, Step, Store32, Load32, Load16, Held, Loaded, Disassembly, TailListed, CleanupListed,
         UnlockListed, EpilogueListed, ScanListed, SuffixListed, And, Or, Directory, At, Window, Clear8,
         ReadyBuffer, BufferApart, ReadyFrame, FrameStack;
    var prog := Disassembly(code);
    var s4, s5, s6 := FrameRemoved(code, l, h, caller, s.mem, s, st, tib, len);
    var st6 := st[5 := l.tail + 23][16 := l.tail + 23];
    var tib6 := tib[0 := st[12]];
    DirectoryKept(s.mem, s6.mem, l, h, s.fs, st6, tib6, len);
    ManagerDecodes(code, l, rel);
    ManagerWords(l, h, caller, s6.r, st, len);
    var s7 := ScansToNul(prog, l, s6, len);
    var s8, m := StoresSuffix(prog, l, s6.(r := s6.r.(esp := s6.r.esp + 8)), s7, len);
    SuffixRegister(l.buffer);
    WordsKept(s.mem, s6.mem, m, s.fs, h, st6, tib6, l, len);
    LateFrames(l, h, caller, s6.r, s7.r, len);
    var s9 := ManagerReturns(prog, l, s8, st6[20], st6[21]);
    SuffixInBuffer(s.mem, s6.mem, m, l.buffer, len);
    ScanKeepsBuffer(s.mem, s6.mem, l.buffer, len);
    run := [s, s4, s5, s6, s7, s8, s9];
  }

  /** What the frame at the manager's return says about the registers the scan needs. */
  lemma ManagerWords(l: ReadySite, h: Registers, caller: Registers, r: Registers, st: seq<u32>, len: nat)
    requires len <= 126 && |st| == 22 && ReadyFrame(6, h, caller, r, l.buffer, len) && FrameStack(l, h, caller, st)
    ensures r.eax == l.buffer && r.esp == h.esp + 52 && r.esp < M32 - 16 && st[20] == caller.edi
  {}

  /** Registers behind the scan, behind the suffix and behind the return. */
  lemma LateFrames(l: ReadySite, h: Registers, caller: Registers, r6: Registers, r7: Registers, len: nat)
    requires len <= 126 && ReadyFrame(6, h, caller, r6, l.buffer, len) && l.buffer + len < M32
    requires r7.edi == l.buffer + len && r7.eax == Clear8(l.buffer)
    requires r7.esp == r6.esp + 8 && r7.ebx == r6.ebx && r7.esi == r6.esi && r7.ebp == r6.ebp
    requires r7.flags.tf == r6.flags.tf && r7.flags.df == r6.flags.df && r7.flags.rest == r6.flags.rest
    ensures ReadyFrame(7, h, caller, r7, l.buffer, len) && r7.esp + 8 < M32
    ensures Or(And(l.buffer, 0xffff_0000), 0x5c) < M32
    ensures var r8 := r7.(eax := Or(And(l.buffer, 0xffff_0000), 0x5c), flags := Resume(r7.flags));
            && ReadyFrame(8, h, caller, r8, l.buffer, len)
            && ReadyFrame(9, h, caller, r8.(edi := caller.edi, esp := r8.esp + 8, flags := Resume(r8.flags)),
                          l.buffer, len)
  {
    SuffixRegister(l.buffer);
    hide And, Or, Clear8;
  }

  lemma ScanKeepsBuffer(m0: Memory, m: Memory, buffer: u32, len: nat)
    requires 3 <= len <= 126 && Directory(m, buffer, len)
    requires forall a {:trigger At(m, a)} :: buffer - 4 <= a < buffer + 132 ==> At(m, a) == At(m0, a)
    ensures ReadyBuffer(Window(m0, buffer - 4, 136), Window(m, buffer - 4, 136), len, false)
  {
    var before, now := Window(m0, buffer - 4, 136), Window(m, buffer - 4, 136);
    forall i | 0 <= i < 136 ensures now[i] == before[i] {
      assert now[i] == At(m, buffer - 4 + i);
    }
    forall i | 4 <= i < len + 4 ensures before[i] != 0 {
      assert before[i] == now[i] == At(m, buffer + (i - 4));
    }
    assert before[len + 4] == now[len + 4] == At(m, buffer + len);
  }

  /** The two-byte store leaves the caller's words and the thread block. */
  lemma WordsKept(m0: Memory, m6: Memory, m: Memory, fs: u32, h: Registers, st: seq<u32>, tib: seq<u32>,
                  l: ReadySite, len: nat)
    requires Held(m0, m6, fs, h, st, tib) && BufferApart(l, h, fs) && len <= 126 && m.Keys == m6.Keys
    requires forall x {:trigger m[x]} :: x in m && !(l.buffer + len <= x < l.buffer + len + 2) ==> m[x] == m6[x]
    ensures |st| == 22 && |tib| == 7
    ensures Load32(m, h.esp + 60) == Some(st[20]) && Load32(m, h.esp + 64) == Some(st[21])
    ensures Load32(m, fs) == Some(tib[0])
  {
    KeptApart(l, h, fs, len);
    HeldWords(m0, m6, fs, h, st, tib);
    hide Load32, Held, BufferApart;
    LoadKept(m6, m, l.buffer + len, h.esp + 60, 2);
    LoadKept(m6, m, l.buffer + len, h.esp + 64, 2);
    LoadKept(m6, m, l.buffer + len, fs, 2);
  }

  lemma KeptApart(l: ReadySite, h: Registers, fs: u32, len: nat)
    requires BufferApart(l, h, fs) && len <= 126
    ensures Apart(l.buffer + len, 2, h.esp + 60, 4) && Apart(l.buffer + len, 2, h.esp + 64, 4)
    ensures Apart(l.buffer + len, 2, fs, 4)
  {}

  lemma HeldWords(m0: Memory, m: Memory, fs: u32, h: Registers, st: seq<u32>, tib: seq<u32>)
    requires Held(m0, m, fs, h, st, tib)
    ensures |st| == 22 && |tib| == 7
    ensures Load32(m, h.esp + 60) == Some(st[20]) && Load32(m, h.esp + 64) == Some(st[21])
    ensures Load32(m, fs) == Some(tib[0])
  {
    hide Load32, View;
    HeldLoad(m0, m, fs, h, st, tib, 20);
    HeldLoad(m0, m, fs, h, st, tib, 21);
    LoadsTib(m0, m, h.esp - 20, st, fs, tib, 0);
  }
}
