// The aligned allocation from the return of the heap API back to the caller: the SEH
// frame taken down, the three calls unwound, the address aligned: stops 8 to 10.

module CdStreamReturn {
  import opened Words
  import opened X86
  import opened X86Rules
  import opened FrameTarget
  import opened StackWindow
  import opened CwdSeh
  import opened FileManagerCode
  import opened CdStreamAllocation
  import opened CdStreamCode
  import opened CdStreamHeap

  /** The words of the heap function's frame and of the nested calls that the return path
      reads, as the observer checks them. */
  predicate FrameWords(l: AllocationSite, c: Registers, st: seq<u32>, head: u32, a: u32, ret: u32)
    requires |st| == 26 && Placed(l)
  {
    && st[4] == c.edi && st[5] == a && st[6] == c.ebx && st[10] == head && st[14] == c.ebp
    && st[15] == l.nh + 16 && st[17] == l.malloc + 15 && st[19] == 0 && st[20] == l.aligned + 17
    && st[22] == c.esi && st[23] == ret
  }

  /** The stack the API is entered with has them. */
  lemma HeapStackHasFrame(l: AllocationSite, c: Registers, st: seq<u32>, head: u32, a: u32, handle: u32)
    requires ValidAllocation(l) && |st| == 26 && a <= 65536 && c.esp >= 65700
    ensures Placed(l) && |HeapStack(l, c, st, head, a, handle)| == 26
    ensures FrameWords(l, c, HeapStack(l, c, st, head, a, handle), head, a, st[23])
  {
    IsPlaced(l);
    hide ValidSeh, Handler;
  }

  /** Memory that differs below the frame only, seen through the window. */
  lemma WindowAfter(m0: Memory, m: Memory, m': Memory, fs: u32, top: u32, was: seq<u32>, tib: seq<u32>)
    returns (now: seq<u32>)
    requires Stacked(m0, m, fs, top, was, tib) && KeptAbove(m, m', fs, top)
    ensures Stacked(m', m', fs, top, now, tib) && |now| == 26 && |was| == 26 && now[4..] == was[4..]
  {
    now := seq(26, k requires 0 <= k < 26 => WordAt(m', top - 96 + 4 * k));
    forall k | 0 <= k < 26
      ensures Load32(m', top - 96 + 4 * k) == Some(now[k]) && (k >= 4 ==> now[k] == was[k])
    {
      WordAfter(m0, m, m', fs, top, was, tib, k);
    }
    forall k | 0 <= k < 7 ensures Load32(m', fs + 4 * k) == Some(tib[k]) {
      LoadsTib(m0, m, top - 96, was, fs, tib, k);
      KeptWord(m, m', fs, top, fs + 4 * k);
    }
    hide Load32;
  }

  /** The heap function's frame, everything above it, and the thread block are as before. */
  ghost predicate KeptAbove(m: Memory, m': Memory, fs: u32, top: u32) {
    && m'.Keys == m.Keys
    && forall x {:trigger m'[x]} ::
         (x in m' && (top - 80 <= x < top + 8 || fs <= x < fs + 28)) ==> x in m && m'[x] == m[x]
  }

  lemma KeptWord(m: Memory, m': Memory, fs: u32, top: u32, at: int)
    requires KeptAbove(m, m', fs, top) && (top - 80 <= at <= top + 4 || fs <= at <= fs + 24)
    ensures Load32(m', at) == Load32(m, at)
  {}

  lemma WordAfter(m0: Memory, m: Memory, m': Memory, fs: u32, top: u32, was: seq<u32>, tib: seq<u32>, k: nat)
    requires Stacked(m0, m, fs, top, was, tib) && KeptAbove(m, m', fs, top) && k < 26
    ensures var at := top - 96 + 4 * k;
            Load32(m', at) == Some(WordAt(m', at)) && (k >= 4 ==> WordAt(m', at) == was[k])
  {
    Loads(m0, m, top - 96, was, fs, tib, k);
    if k >= 4 { KeptWord(m, m', fs, top, top - 96 + 4 * k); }
  }

  lemma SameFrame(l: AllocationSite, c: Registers, was: seq<u32>, now: seq<u32>, head: u32, a: u32, ret: u32)
    requires |was| == 26 && |now| == 26 && Placed(l) && FrameWords(l, c, was, head, a, ret) && now[4..] == was[4..]
    ensures FrameWords(l, c, now, head, a, ret) && now[23..] == was[23..]
  {
    assert forall k :: 4 <= k < 26 ==> now[k] == now[4..][k - 4] && was[k] == was[4..][k - 4];
  }

  /** An API that leaves everything from the heap function's frame upwards and the thread
      block alone keeps the words of the return path, whatever it writes below. */
  lemma ApiLeavesFrame(l: AllocationSite, c: Registers, m0: Memory, m: Memory, m': Memory, fs: u32, st: seq<u32>,
                       tib: seq<u32>, head: u32, a: u32, handle: u32) returns (now: seq<u32>)
    requires ValidAllocation(l) && |st| == 26 && a <= 65536 && c.esp >= 65700 && KeptAbove(m, m', fs, c.esp)
    requires Stacked(m0, m, fs, c.esp, HeapStack(l, c, st, head, a, handle), tib)
    ensures Stacked(m', m', fs, c.esp, now, tib) && |now| == 26 && now[23..] == st[23..]
    ensures Placed(l) && FrameWords(l, c, now, head, a, st[23])
  {
    var was := HeapStack(l, c, st, head, a, handle);
    HeapStackHasFrame(l, c, st, head, a, handle);
    HeapStackTop(l, c, st, head, a, handle);
    hide ValidAllocation, HeapStack, Stacked, KeptAbove, FrameWords;
    now := WindowAfter(m0, m, m', fs, c.esp, was, tib);
    SameFrame(l, c, was, now, head, a, st[23]);
  }

  function WordAt(m: Memory, at: int): u32 { match Load32(m, at) case Some(v) => v case None => 0 }

  lemma HeapStackTop(l: AllocationSite, c: Registers, st: seq<u32>, head: u32, a: u32, handle: u32)
    requires ValidAllocation(l) && |st| == 26 && a <= 65536 && c.esp >= 65700
    ensures |HeapStack(l, c, st, head, a, handle)| == 26 && HeapStack(l, c, st, head, a, handle)[23..] == st[23..]
  {
    hide ValidSeh, Handler;
  }

  lemma StackStoreHead(m0: Memory, m: Memory, fs: u32, top: u32, st: seq<u32>, tib: seq<u32>, v: u32)
    returns (m': Memory)
    requires Stacked(m0, m, fs, top, st, tib)
    ensures Store32(m, fs, v) == Some(m') && Stacked(m0, m', fs, top, st, tib[0 := v])
  {
    hide View;
    m' := StoresTib(m0, m, top - 96, st, fs, tib, 0, v);
  }

  // ---- The epilogue ---------------------------------------------------------------

  /** The CALL of the epilogue and its first half: the previous head is put back. */
  lemma UnlinksHead(prog: Program, l: AllocationSite, c: Registers, m0: Memory, s: Cpu, st: seq<u32>, tib: seq<u32>,
                    epilogue: u32) returns (t: Cpu)
    requires Placed(l) && l.epilogue == epilogue && EpilogueListed(prog, epilogue) && HeapCallListed(prog, l)
    requires s.eip == l.heap + 105 && Stacked(m0, s.mem, s.fs, c.esp, st, tib) && |st| == 26 && |tib| == 7
    requires c.esp >= 65700 && s.r.esp == c.esp - 80 && s.r.ebp == c.esp - 40 && epilogue <= U32_MAX - 17
    ensures Reaches(prog, s, t) && t.eip == epilogue + 10 && t.fs == s.fs
    ensures t.r == s.r.(ecx := st[10], esp := c.esp - 84, flags := Resume(s.r.flags))
    ensures Stacked(m0, t.mem, t.fs, c.esp, st[3 := l.heap + 110], tib[0 := st[10]])
  {
    hide Reaches, Run, Step, Store32, Load32, Stacked, Calls;
    StackBounds(m0, s.mem, s.fs, c.esp, st, tib);
    Stay(prog, s);
    var m := StackStore(m0, s.mem, s.fs, c.esp, st, tib, 3, l.heap + 110);
    t := CallsRule(prog, s, s, epilogue, m);
    var st1: seq<u32> := st[3 := l.heap + 110];
    StackLoad(m0, t.mem, t.fs, c.esp, st1, tib, 10);
    t := LoadRule(prog, s, t, ECX, Based(EBP, -16), 3, st[10]);
    m := StackStoreHead(m0, t.mem, t.fs, c.esp, st1, tib, st[10]);
    t := StoreRule(prog, s, t, TibHead(), R32(ECX), 7, st[10], m);
  }

  /** The saved registers. */
  lemma PopsRegisters(prog: Program, l: AllocationSite, c: Registers, m0: Memory, s0: Cpu, s: Cpu, st: seq<u32>,
                      tib: seq<u32>) returns (t: Cpu)
    requires l.epilogue <= U32_MAX - 17 && EpilogueListed(prog, l.epilogue) && Reaches(prog, s0, s)
    requires s.eip == l.epilogue + 10 && Stacked(m0, s.mem, s.fs, c.esp, st, tib) && |st| == 26
    requires c.esp >= 65700 && s.r.esp == c.esp - 84
    ensures Reaches(prog, s0, t) && t.eip == l.epilogue + 14 && t.fs == s.fs && t.mem == s.mem
    ensures t.r == s.r.(ecx := st[3], edi := st[4], esi := st[5], ebx := st[6], esp := c.esp - 68,
                        flags := Resume(s.r.flags))
  {
    hide Reaches, Run, Step, Load32, Stacked;
    StackBounds(m0, s.mem, s.fs, c.esp, st, tib);
    StackLoad(m0, s.mem, s.fs, c.esp, st, tib, 3);
    t := PopRule(prog, s0, s, ECX, st[3]);
    StackLoad(m0, t.mem, t.fs, c.esp, st, tib, 4);
    t := PopRule(prog, s0, t, EDI, st[4]);
    StackLoad(m0, t.mem, t.fs, c.esp, st, tib, 5);
    t := PopRule(prog, s0, t, ESI, st[5]);
    StackLoad(m0, t.mem, t.fs, c.esp, st, tib, 6);
    t := PopRule(prog, s0, t, EBX, st[6]);
  }

  /** LEAVE, and the return through the slot of the old EBP. */
  lemma Leaves(prog: Program, l: AllocationSite, c: Registers, m0: Memory, s0: Cpu, s: Cpu, st: seq<u32>,
               tib: seq<u32>) returns (t: Cpu)
    requires l.epilogue <= U32_MAX - 17 && EpilogueListed(prog, l.epilogue) && Reaches(prog, s0, s)
    requires s.eip == l.epilogue + 14 && Stacked(m0, s.mem, s.fs, c.esp, st, tib) && |st| == 26
    requires c.esp >= 65700 && s.r.ebp == c.esp - 40
    ensures Reaches(prog, s0, t) && t.eip == s.r.ecx && t.fs == s.fs
    ensures t.r == s.r.(ebp := st[14], esp := c.esp - 36, flags := Resume(s.r.flags))
    ensures Stacked(m0, t.mem, t.fs, c.esp, st[14 := s.r.ecx], tib)
  {
    hide Reaches, Run, Step, Load32, Store32, Stacked;
    StackBounds(m0, s.mem, s.fs, c.esp, st, tib);
    StackLoad(m0, s.mem, s.fs, c.esp, st, tib, 14);
    t := LeaveRule(prog, s0, s, st[14]);
    var m := StackStore(m0, t.mem, t.fs, c.esp, st, tib, 14, s.r.ecx);
    t := PushRule(prog, s0, t, R32(ECX), 1, s.r.ecx, m);
    StackLoad(m0, t.mem, t.fs, c.esp, st[14 := s.r.ecx], tib, 14);
    t := RetRule(prog, s0, t, s.r.ecx);
  }

  /** The whole epilogue. */
  lemma ThroughEpilogue(prog: Program, l: AllocationSite, c: Registers, m0: Memory, s: Cpu, st: seq<u32>,
                        tib: seq<u32>) returns (t: Cpu)
    requires Placed(l) && l.epilogue <= U32_MAX - 17 && EpilogueListed(prog, l.epilogue) && HeapCallListed(prog, l)
    requires s.eip == l.heap + 105 && Stacked(m0, s.mem, s.fs, c.esp, st, tib) && |st| == 26 && |tib| == 7
    requires c.esp >= 65700 && s.r.esp == c.esp - 80 && s.r.ebp == c.esp - 40
    ensures Reaches(prog, s, t) && t.eip == l.heap + 110 && t.fs == s.fs
    ensures t.r == s.r.(ecx := l.heap + 110, edi := st[4], esi := st[5], ebx := st[6], ebp := st[14],
                        esp := c.esp - 36, flags := Resume(s.r.flags))
    ensures Stacked(m0, t.mem, t.fs, c.esp, st[3 := l.heap + 110][14 := l.heap + 110], tib[0 := st[10]])
  {
    hide Reaches, Stacked, EpilogueListed, HeapCallListed;
    t := UnlinksHead(prog, l, c, m0, s, st, tib, l.epilogue);
    var st1: seq<u32> := st[3 := l.heap + 110];
    t := PopsRegisters(prog, l, c, m0, s, t, st1, tib[0 := st[10]]);
    t := Leaves(prog, l, c, m0, s, t, st1, tib[0 := st[10]]);
  }

  // ---- Back through the calls ---------------------------------------------------------

  /** The heap function's RET and the test of the result. */
  lemma TestsResult(prog: Program, l: AllocationSite, c: Registers, m0: Memory, s0: Cpu, s: Cpu, st: seq<u32>,
                    tib: seq<u32>) returns (t: Cpu)
    requires Placed(l) && HeapCallListed(prog, l) && NhListed(prog, l) && Reaches(prog, s0, s)
    requires s.eip == l.heap + 110 && Stacked(m0, s.mem, s.fs, c.esp, st, tib) && |st| == 26
    requires c.esp >= 65700 && s.r.esp == c.esp - 36 && st[15] == l.nh + 16 && s.r.eax != 0
    ensures Reaches(prog, s0, t) && t.eip == l.nh + 43 && t.fs == s.fs && t.mem == s.mem
    ensures t.r == s.r.(ecx := st[16], esp := c.esp - 28, flags := t.r.flags)
    ensures TestFlags(t.r.flags, s.r.eax) && SameControl(t.r.flags, s.r.flags)
  {
    AndSelf(s.r.eax);
    hide Reaches, Run, Step, Load32, Stacked, Words.And, EvenParity, Calls;
    StackBounds(m0, s.mem, s.fs, c.esp, st, tib);
    StackLoad(m0, s.mem, s.fs, c.esp, st, tib, 15);
    t := RetRule(prog, s0, s, l.nh + 16);
    t := AluRule(prog, s0, t, TEST, EAX, R32(EAX), 2, s.r.eax);
    StackLoad(m0, t.mem, t.fs, c.esp, st, tib, 16);
    t := PopRule(prog, s0, t, ECX, st[16]);
    t := JccRule(prog, s0, t, NotEqual, 22, 2);
  }

  /** Two RETs with the arguments popped: ECX ends as the new-handler mode. */
  lemma Unwinds(prog: Program, l: AllocationSite, c: Registers, m0: Memory, s0: Cpu, s: Cpu, st: seq<u32>,
                tib: seq<u32>) returns (t: Cpu)
    requires Placed(l) && NhListed(prog, l) && MallocListed(prog, l) && Reaches(prog, s0, s)
    requires s.eip == l.nh + 43 && Stacked(m0, s.mem, s.fs, c.esp, st, tib) && |st| == 26
    requires c.esp >= 65700 && s.r.esp == c.esp - 28 && st[17] == l.malloc + 15 && st[20] == l.aligned + 17
    ensures Reaches(prog, s0, t) && t.eip == l.aligned + 17 && t.fs == s.fs && t.mem == s.mem
    ensures t.r == s.r.(ecx := st[19], esp := c.esp - 12, flags := Resume(s.r.flags))
  {
    hide Reaches, Run, Step, Load32, Stacked, Calls;
    StackBounds(m0, s.mem, s.fs, c.esp, st, tib);
    StackLoad(m0, s.mem, s.fs, c.esp, st, tib, 17);
    t := RetRule(prog, s0, s, l.malloc + 15);
    StackLoad(m0, t.mem, t.fs, c.esp, st, tib, 18);
    t := PopRule(prog, s0, t, ECX, st[18]);
    StackLoad(m0, t.mem, t.fs, c.esp, st, tib, 19);
    t := PopRule(prog, s0, t, ECX, st[19]);
    StackLoad(m0, t.mem, t.fs, c.esp, st, tib, 20);
    t := RetRule(prog, s0, t, l.aligned + 17);
  }

  /** Stop 8, in registers. */
  lemma ToResult(prog: Program, l: AllocationSite, c: Registers, s: Cpu, st: seq<u32>, tib: seq<u32>, head: u32,
                 a: u32, ret: u32) returns (t: Cpu)
    requires Placed(l) && l.epilogue <= U32_MAX - 17 && CodeListed(prog, l) && s.eip == l.heap + 105
    requires Stacked(s.mem, s.mem, s.fs, c.esp, st, tib) && |st| == 26 && |tib| == 7
    requires FrameWords(l, c, st, head, a, ret)
    requires c.esp >= 65700 && s.r.esp == c.esp - 80 && s.r.ebp == c.esp - 40 && s.r.eax != 0
    ensures Reaches(prog, s, t) && t.eip == l.aligned + 17 && t.fs == s.fs
    ensures t.r == s.r.(ecx := 0, edi := c.edi, esi := a, ebx := c.ebx, ebp := c.ebp, esp := c.esp - 12,
                        flags := t.r.flags)
    ensures TestFlags(t.r.flags, s.r.eax) && SameControl(t.r.flags, s.r.flags)
    ensures Stacked(s.mem, t.mem, t.fs, c.esp, st[3 := l.heap + 110][14 := l.heap + 110], tib[0 := head])
  {
    hide Reaches, Stacked, EpilogueListed, HeapCallListed, HeapEntryListed, HeapRoundListed, NhListed, MallocListed,
         AlignedListed, EvenParity;
    t := ThroughEpilogue(prog, l, c, s.mem, s, st, tib);
    var st1: seq<u32> := st[3 := l.heap + 110][14 := l.heap + 110];
    var tib1: seq<u32> := tib[0 := head];
    t := TestsResult(prog, l, c, s.mem, s, t, st1, tib1);
    t := Unwinds(prog, l, c, s.mem, s, t, st1, tib1);
  }

  // ---- Stops 8 to 10 --------------------------------------------------------------------

  /** Only bytes of the n from at on differ. */
  ghost predicate OnlyIn(m: Memory, m': Memory, at: u32, n: nat) {
    m'.Keys == m.Keys && forall x {:trigger m'[x]} :: x in m' && !(at <= x < at + n) ==> x in m && m'[x] == m[x]
  }

  /** Only bytes of the block, the stack window and the thread block differ. */
  ghost predicate Confined(m: Memory, m': Memory, fs: u32, top: u32, at: u32, n: nat) {
    forall x {:trigger m'[x]} ::
      (x in m' && !(at <= x < at + n) && !(top - 96 <= x < top + 8) && !(fs <= x < fs + 28)) ==>
      x in m && m'[x] == m[x]
  }

  /** A write inside a block away from the stack and the thread block leaves both. */
  lemma StackBeside(m0: Memory, m: Memory, m': Memory, fs: u32, top: u32, st: seq<u32>, tib: seq<u32>, at: u32, n: nat)
    requires Stacked(m0, m, fs, top, st, tib) && OnlyIn(m, m', at, n)
    requires Apart(at, n, top - 96, 104) && Apart(at, n, fs, 28)
    ensures Stacked(m', m', fs, top, st, tib)
  {
    hide Load32;
    forall k | 0 <= k < 26 ensures Load32(m', top - 96 + 4 * k) == Some(st[k]) {
      Loads(m0, m, top - 96, st, fs, tib, k);
      LoadKept(m, m', at, top - 96 + 4 * k, n);
    }
    forall k | 0 <= k < 7 ensures Load32(m', fs + 4 * k) == Some(tib[k]) {
      LoadsTib(m0, m, top - 96, st, fs, tib, k);
      LoadKept(m, m', at, fs + 4 * k, n);
    }
  }

  /** Outside the block, the stack window and the thread block nothing changes. */
  lemma OutsideBoth(m0: Memory, m: Memory, m': Memory, fs: u32, top: u32, st: seq<u32>, tib: seq<u32>, at: u32,
                    n: nat)
    requires Stacked(m0, m, fs, top, st, tib) && OnlyIn(m, m', at, n)
    ensures Confined(m0, m', fs, top, at, n)
  {}

  lemma ResultFrame(c: Registers, r: Registers, a: u32, b: AllocationLayout, back: Registers, blank: AllocationLayout)
    requires AllocationFrame(7, c, back, a, blank, back) && back.eax == b.raw != 0
    requires r == back.(ecx := 0, edi := c.edi, esi := a, ebx := c.ebx, ebp := c.ebp, esp := c.esp - 12,
                        flags := r.flags)
    requires TestFlags(r.flags, b.raw) && SameControl(r.flags, back.flags)
    ensures AllocationFrame(8, c, r, a, b, back)
  {
    hide EvenParity;
  }

  lemma ApiFrame(c: Registers, r: Registers, a: u32, blank: AllocationLayout)
    requires AllocationFrame(7, c, r, a, blank, r)
    ensures c.esp >= 65700 && r.esp == c.esp - 80 && r.ebp == c.esp - 40 && AlignmentValid(a) && a <= 65536
  {}

  /** The block the layout gives for an answer of the API, away from stack and thread block. */
  ghost predicate BlockAccepted(b: AllocationLayout, raw: u32, a: u32, fs: u32, top: u32) {
    && AlignmentValid(a) && raw >= 65536 && raw % 8 == 0 && raw + 2048 + a <= U32_MAX
    && b.raw == raw && IsAlignedIn(raw, a, b.aligned) && b.metadata + 4 == b.aligned && b.bytes == 2048 + a
    && Apart(raw, 2048 + a, top - 96, 104) && Apart(raw, 2048 + a, fs, 28)
  }

  /** Stops 9 and 10 behind stop 8. */
  lemma FromResult(code: Code, l: AllocationSite, c: Registers, back: Registers, m0: Memory, s: Cpu, st: seq<u32>,
                   tib: seq<u32>, a: u32, b: AllocationLayout, ret: u32) returns (s9: Cpu, s10: Cpu)
    requires Placed(l) && Loaded(code, l.aligned + 17, ALIGN_TAIL) && Loaded(code, l.aligned + 28, ALIGN_END)
    requires s.eip == l.aligned + 17 && AllocationFrame(8, c, s.r, a, b, back) && SameControl(s.r.flags, back.flags)
    requires BlockAccepted(b, b.raw, a, s.fs, c.esp) && c.esp >= 65700
    requires Stacked(m0, s.mem, s.fs, c.esp, st, tib) && |st| == 26 && st[22] == c.esi && st[23] == ret
    requires forall x :: b.raw <= x < b.raw + b.bytes ==> x in m0
    ensures Reaches(Disassembly(code), s, s9) && s9.eip == l.aligned + 30 && AllocationFrame(9, c, s9.r, a, b, back)
    ensures Reaches(Disassembly(code), s9, s10) && s10.eip == ret && AllocationFrame(10, c, s10.r, a, b, back)
    ensures Load32(s10.mem, b.metadata) == Some(b.raw) && b.raw < b.metadata && b.metadata + 4 <= b.raw + b.bytes
    ensures s10.fs == s.fs && Stacked(s10.mem, s10.mem, s.fs, c.esp, st, tib)
    ensures Confined(m0, s10.mem, s.fs, c.esp, b.raw, b.bytes)
  {
    RoundsUp(b.raw, a);
    AlignedUnique(b.raw, a, b.aligned, Words.And(b.raw + a, Not(a - 1)));
    hide Reaches, Stacked, AllocationFrame, AlignmentValid, Disassembly, Loaded, Words.And, Load32, Confined,
         IsAlignedIn;
    StackBounds(m0, s.mem, s.fs, c.esp, st, tib);
    StackLoad(m0, s.mem, s.fs, c.esp, st, tib, 22);
    StackLoad(m0, s.mem, s.fs, c.esp, st, tib, 23);
    SameKeys(m0, s.mem, s.fs, c.esp, st, tib);
    s9, s10 := AlignedReturn(code, l.aligned + 17, c, back, s, a, b, ret);
    StackBeside(m0, s.mem, s10.mem, s.fs, c.esp, st, tib, b.raw, b.bytes);
    OutsideBoth(m0, s.mem, s10.mem, s.fs, c.esp, st, tib, b.raw, b.bytes);
  }

  lemma SameKeys(m0: Memory, m: Memory, fs: u32, top: u32, st: seq<u32>, tib: seq<u32>)
    requires Stacked(m0, m, fs, top, st, tib)
    ensures m.Keys == m0.Keys
  {}

  lemma EpilogueIsPlaced(l: AllocationSite)
    requires ValidAllocation(l)
    ensures l.epilogue <= U32_MAX - 17
  {}

  /** From the return of the heap API with an accepted block: stops 8 to 10 are as the
      frame demands, the caller continues behind its CALL with the thread block as before
      the routine, the metadata word names the raw block, the stack has only the two
      return addresses of the epilogue written, and nothing else outside the block
      changes. */
  lemma FromHeapApi(code: Code, l: AllocationSite, c: Registers, s: Cpu, st: seq<u32>, tib: seq<u32>, a: u32,
                    b: AllocationLayout, blank: AllocationLayout, ret: u32) returns (s8: Cpu, s9: Cpu, s10: Cpu)
    requires ValidAllocation(l) && AllocationLoaded(code, l) && s.eip == l.heap + 105
    requires AllocationFrame(7, c, s.r, a, blank, s.r) && BlockAccepted(b, s.r.eax, a, s.fs, c.esp)
    requires forall x :: b.raw <= x < b.raw + b.bytes ==> x in s.mem
    requires |st| == 26 && |tib| == 7 && Placed(l) && FrameWords(l, c, st, tib[0], a, ret) && c.esp >= 65700
    requires Stacked(s.mem, s.mem, s.fs, c.esp, st, tib[0 := c.esp - 56])
    ensures Reaches(Disassembly(code), s, s8) && s8.eip == l.aligned + 17 && AllocationFrame(8, c, s8.r, a, b, s.r)
    ensures Reaches(Disassembly(code), s8, s9) && s9.eip == l.aligned + 30 && AllocationFrame(9, c, s9.r, a, b, s.r)
    ensures Reaches(Disassembly(code), s9, s10) && s10.eip == ret && AllocationFrame(10, c, s10.r, a, b, s.r)
    ensures Load32(s10.mem, b.metadata) == Some(b.raw) && b.raw < b.metadata && b.metadata + 4 <= b.raw + b.bytes
    ensures s10.fs == s.fs
    ensures Stacked(s10.mem, s10.mem, s.fs, c.esp, st[3 := l.heap + 110][14 := l.heap + 110], tib)
    ensures Confined(s.mem, s10.mem, s.fs, c.esp, b.raw, b.bytes)
  {
    AllocationDecodes(code, l);
    EpilogueIsPlaced(l);
    ApiFrame(c, s.r, a, blank);
    hide Reaches, Stacked, ValidAllocation, AllocationLoaded, AllocationFrame, AlignmentValid, SehListed, CodeListed,
         Disassembly, Loaded, TestFlags, IsAlignedIn, Load32, Confined;
    s8 := ToResult(Disassembly(code), l, c, s, st, tib[0 := c.esp - 56], tib[0], a, ret);
    ResultFrame(c, s8.r, a, b, s.r, blank);
    assert tib[0 := c.esp - 56][0 := tib[0]] == tib;
    s9, s10 := FromResult(code, l, c, s.r, s.mem, s8, st[3 := l.heap + 110][14 := l.heap + 110], tib, a, b, ret);
  }
}
