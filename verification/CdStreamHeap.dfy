// The aligned allocation from the entry of the routine to the heap API: stops 2 to 6
// of the observer, and the stack the API sees.

module CdStreamHeap {
  import opened Words
  import opened X86
  import opened X86Rules
  import opened FrameTarget
  import opened StackWindow
  import opened CwdSeh
  import opened FileManagerCode
  import opened CdStreamAllocation
  import opened CdStreamCode

  /** cd_stream_allocation_request; the globals are new-handler mode, small-block
      threshold, heap handle and heap mode. */
  predicate Request(a: u32, g: seq<u32>)
    requires |g| == 4
  {
    && AlignmentValid(a) && g[0] == 0 && 65536 <= g[2] < 0xffff_0000 && g[2] % 8 == 0
    && (g[3] == 1 || (g[3] == 3 && g[1] < 2048 + a))
  }

  /** 26 words around the caller's stack pointer, from its value less 96 on, and the
      thread block. */
  ghost predicate Stacked(m0: Memory, m: Memory, fs: u32, top: u32, st: seq<u32>, tib: seq<u32>) {
    && |st| == 26 && |tib| == 7 && 65700 <= top <= U32_MAX - 8
    && View(m0, m, top - 96, st, fs, tib)
  }

  lemma StackBounds(m0: Memory, m: Memory, fs: u32, top: u32, st: seq<u32>, tib: seq<u32>)
    requires Stacked(m0, m, fs, top, st, tib)
    ensures |st| == 26 && |tib| == 7 && 65700 <= top <= U32_MAX - 8
  {}

  lemma StackLoad(m0: Memory, m: Memory, fs: u32, top: u32, st: seq<u32>, tib: seq<u32>, k: nat)
    requires Stacked(m0, m, fs, top, st, tib) && k < 26
    ensures Load32(m, top - 96 + 4 * k) == Some(st[k])
  {
    Loads(m0, m, top - 96, st, fs, tib, k);
  }

  lemma StackStore(m0: Memory, m: Memory, fs: u32, top: u32, st: seq<u32>, tib: seq<u32>, k: nat, v: u32)
    returns (m': Memory)
    requires Stacked(m0, m, fs, top, st, tib) && k < 26
    ensures Store32(m, top - 96 + 4 * k, v) == Some(m') && Stacked(m0, m', fs, top, st[k := v], tib)
  {
    hide View;
    m' := Stores(m0, m, top - 96, st, fs, tib, k, v);
  }

  /** A word of the image, outside the stack window and the thread block. */
  ghost predicate Global(m: Memory, fs: u32, top: u32, at: u32, v: u32) {
    Load32(m, at) == Some(v) && Apart(at, 4, top - 96, 104) && Apart(at, 4, fs, 28)
  }

  ghost predicate Globals(m: Memory, fs: u32, top: u32, l: AllocationSite, g: seq<u32>, api: u32)
    requires |g| == 4
  {
    && Global(m, fs, top, l.newMode, g[0]) && Global(m, fs, top, l.threshold, g[1])
    && Global(m, fs, top, l.handle, g[2]) && Global(m, fs, top, l.heapMode, g[3]) && Global(m, fs, top, l.iat, api)
  }

  lemma GlobalKept(m0: Memory, m: Memory, fs: u32, top: u32, st: seq<u32>, tib: seq<u32>, at: u32, v: u32)
    requires Stacked(m0, m, fs, top, st, tib) && Global(m0, fs, top, at, v)
    ensures Load32(m, at) == Some(v)
  {
    WordKept(m0, m, top - 96, st, fs, tib, at);
  }

  // ---- From the routine's entry to the heap function -------------------------

  /** The routine's head: size and alignment added up, malloc called. */
  lemma ThroughHead(prog: Program, l: AllocationSite, c: Registers, m0: Memory, s: Cpu, st: seq<u32>, tib: seq<u32>,
                    a: u32) returns (t: Cpu)
    requires Placed(l) && AlignedListed(prog, l) && s.eip == l.aligned && a <= 65536
    requires Stacked(m0, s.mem, s.fs, c.esp, st, tib) && |st| == 26 && st[24] == 2048 && st[25] == a
    requires c.esp >= 65700 && s.r == c.(esp := c.esp - 4, flags := s.r.flags)
    ensures Reaches(prog, s, t) && t.eip == l.malloc && t.fs == s.fs && SameControl(t.r.flags, s.r.flags)
    ensures t.r == c.(eax := 2048 + a, esi := a, esp := c.esp - 16, flags := t.r.flags)
    ensures Stacked(m0, t.mem, t.fs, c.esp, st[22 := c.esi][21 := 2048 + a][20 := l.aligned + 17], tib)
  {
    hide Reaches, Run, Step, Store32, Load32, Stacked, EvenParity, Calls;
    StackBounds(m0, s.mem, s.fs, c.esp, st, tib);
    Stay(prog, s);
    StackLoad(m0, s.mem, s.fs, c.esp, st, tib, 24);
    t := LoadRule(prog, s, s, EAX, Based(ESP, 4), 4, 2048);
    var m := StackStore(m0, t.mem, t.fs, c.esp, st, tib, 22, c.esi);
    t := PushRule(prog, s, t, R32(ESI), 1, c.esi, m);
    var st1 := st[22 := c.esi];
    StackLoad(m0, t.mem, t.fs, c.esp, st1, tib, 25);
    t := LoadRule(prog, s, t, ESI, Based(ESP, 12), 4, a);
    t := AluRule(prog, s, t, ADD, EAX, R32(ESI), 2, a);
    m := StackStore(m0, t.mem, t.fs, c.esp, st1, tib, 21, 2048 + a);
    t := PushRule(prog, s, t, R32(EAX), 1, 2048 + a, m);
    st1 := st1[21 := 2048 + a];
    m := StackStore(m0, t.mem, t.fs, c.esp, st1, tib, 20, l.aligned + 17);
    t := CallsRule(prog, s, t, l.malloc, m);
  }

  /** malloc: new-handler mode and size pushed. */
  lemma ThroughMalloc(prog: Program, l: AllocationSite, c: Registers, m0: Memory, s0: Cpu, s: Cpu, st: seq<u32>,
                      tib: seq<u32>, size: u32) returns (t: Cpu)
    requires Placed(l) && MallocListed(prog, l) && Reaches(prog, s0, s) && s.eip == l.malloc
    requires Stacked(m0, s.mem, s.fs, c.esp, st, tib) && |st| == 26 && st[21] == size && c.esp >= 65700
    requires s.r.esp == c.esp - 16 && Global(m0, s.fs, c.esp, l.newMode, 0)
    ensures Reaches(prog, s0, t) && t.eip == l.nh && t.fs == s.fs
    ensures t.r == s.r.(esp := c.esp - 28, flags := Resume(s.r.flags))
    ensures Stacked(m0, t.mem, t.fs, c.esp, st[19 := 0][18 := size][17 := l.malloc + 15], tib)
  {
    hide Reaches, Run, Step, Store32, Load32, Stacked, Calls, Global;
    StackBounds(m0, s.mem, s.fs, c.esp, st, tib);
    GlobalKept(m0, s.mem, s.fs, c.esp, st, tib, l.newMode, 0);
    AbsoluteIs(s, l.newMode);
    var m := StackStore(m0, s.mem, s.fs, c.esp, st, tib, 19, 0);
    t := PushRule(prog, s0, s, Mem32(Absolute(l.newMode)), 6, 0, m);
    var st1: seq<u32> := st[19 := 0];
    StackLoad(m0, t.mem, t.fs, c.esp, st1, tib, 21);
    m := StackStore(m0, t.mem, t.fs, c.esp, st1, tib, 18, size);
    t := PushRule(prog, s0, t, Mem32(Based(ESP, 8)), 4, size, m);
    st1 := st1[18 := size];
    m := StackStore(m0, t.mem, t.fs, c.esp, st1, tib, 17, l.malloc + 15);
    t := CallsRule(prog, s0, t, l.nh, m);
  }

  /** The new-handler variant up to its CALL: the size is below its limit. */
  lemma ThroughNh(prog: Program, l: AllocationSite, c: Registers, m0: Memory, s0: Cpu, s: Cpu, st: seq<u32>,
                  tib: seq<u32>, size: u32) returns (t: Cpu)
    requires Placed(l) && NhListed(prog, l) && Reaches(prog, s0, s) && s.eip == l.nh
    requires Stacked(m0, s.mem, s.fs, c.esp, st, tib) && |st| == 26 && st[18] == size && size <= 67584
    requires c.esp >= 65700 && s.r.esp == c.esp - 28
    ensures Reaches(prog, s0, t) && t.eip == l.nh + 11 && t.fs == s.fs && SameControl(t.r.flags, s.r.flags)
    ensures t.r == s.r.(esp := c.esp - 32, flags := t.r.flags) && !t.r.flags.rf
    ensures Stacked(m0, t.mem, t.fs, c.esp, st[16 := size], tib)
  {
    hide Reaches, Run, Step, Store32, Load32, Stacked, Calls, EvenParity;
    StackBounds(m0, s.mem, s.fs, c.esp, st, tib);
    StackLoad(m0, s.mem, s.fs, c.esp, st, tib, 18);
    t := CmpStoredRule(prog, s0, s, Based(ESP, 4), 0xffff_ffe0, 5, size);
    t := JccRule(prog, s0, t, Above, 34, 2);
    var m := StackStore(m0, t.mem, t.fs, c.esp, st, tib, 16, size);
    t := PushRule(prog, s0, t, Mem32(Based(ESP, 4)), 4, size, m);
  }

  // ---- The SEH frame -----------------------------------------------------------

  /** The 20 words the prologue's own account covers. */
  lemma SehWindow(m0: Memory, m: Memory, fs: u32, c: Registers, saved: Registers, st: seq<u32>, tib: seq<u32>)
    requires Stacked(m0, m, fs, c.esp, st, tib) && saved.esp == c.esp - 32
    ensures Seen(m, m, fs, saved, st[1..21], tib)
  {
    Narrowed(m0, m, c.esp - 96, st, fs, tib, 1, 20);
    hide View;
  }

  lemma SehWindowBack(m0: Memory, m: Memory, m': Memory, fs: u32, c: Registers, saved: Registers, st: seq<u32>,
                      tib: seq<u32>, part: seq<u32>, tib': seq<u32>)
    requires Stacked(m0, m, fs, c.esp, st, tib) && saved.esp == c.esp - 32 && Seen(m, m', fs, saved, part, tib')
    ensures |st| == 26 && |part| == 20 && Stacked(m0, m', fs, c.esp, st[..1] + part + st[21..], tib')
  {
    Widened(m0, m, m', c.esp - 96, st, fs, tib, 1, part, tib');
    hide View;
  }

  /** The frame words the prologue leaves, in the wide window. */
  function Framed(l: AllocationSite, r: Registers, st: seq<u32>, head: u32): seq<u32>
    requires ValidSeh(l.seh) && |st| == 26 && r.esp >= 65596 && l.heap <= U32_MAX - 12 && l.nh <= U32_MAX - 16
  {
    st[..1] +
    [st[1], st[2], l.heap + 12, r.edi, r.esi, r.ebx, st[7], r.esp - 48, st[9], head, Handler(l.seh), l.scope, U32_MAX,
     r.ebp, l.nh + 16] + st[16..]
  }

  /** Call and prologue of any wrapper whose CALL stands at that depth, in the wide window. */
  lemma SehInWindow(prog: Program, h: CwdSehSpec, c: Registers, m0: Memory, s: Cpu, st: seq<u32>, tib: seq<u32>)
    returns (s2: Cpu, t: Cpu)
    requires ValidSeh(h) && SehListed(prog, h) && s.eip == Site(h) && s.r.esp == c.esp - 32
    requires Stacked(m0, s.mem, s.fs, c.esp, st, tib) && |st| == 26 && |tib| == 7 && c.esp >= 65700
    ensures Reaches(prog, s, s2) && s2.eip == Wrapper(h)
    ensures s2.r == s.r.(esp := s.r.esp - 4, flags := Resume(s.r.flags))
    ensures Reaches(prog, s2, t) && t.eip == PrologueReturn(h) && t.fs == s.fs
    ensures t.r == s.r.(esp := c.esp - 80, eax := c.esp - 56, ebp := c.esp - 40, flags := After(s.r))
    ensures Stacked(m0, t.mem, t.fs, c.esp, st[..1] + ExpectedStack(h, 3, s.r, tib, st[1..21]) + st[21..],
                    tib[0 := c.esp - 56])
  {
    hide Reaches, Run, Step, Stacked, Seen, WrapperListed, SaveHeadListed, OpenFrameListed, SaveRegistersListed,
         SetStateListed, LinkHeadListed, After, View, ExpectedStack, ValidSeh, Resume;
    SehWindow(m0, s.mem, s.fs, c, s.r, st, tib);
    var t2;
    s2, t2, t := WrapperRuns(prog, h, s, st[1..21], tib);
    Chain(prog, s2, t2, t);
    SehWindowBack(m0, s.mem, t.mem, s.fs, c, s.r, st, tib, ExpectedStack(h, 3, s.r, tib, st[1..21]),
                  tib[0 := s.r.esp - 24]);
  }

  ghost predicate SehListed(prog: Program, h: CwdSehSpec)
    requires ValidSeh(h)
  {
    && WrapperListed(prog, h) && SaveHeadListed(prog, h) && OpenFrameListed(prog, Prologue(h))
    && SaveRegistersListed(prog, Prologue(h)) && SetStateListed(prog, Prologue(h)) && LinkHeadListed(prog, Prologue(h))
  }

  /** The CALL of the heap function (stop 2) and the prologue behind its two pushes. */
  lemma ThroughSeh(prog: Program, l: AllocationSite, c: Registers, m0: Memory, s: Cpu, st: seq<u32>, tib: seq<u32>)
    returns (s2: Cpu, t: Cpu)
    requires ValidAllocation(l) && SehListed(prog, HeapSehOf(l)) && s.eip == l.nh + 11 && s.r.esp == c.esp - 32
    requires Stacked(m0, s.mem, s.fs, c.esp, st, tib) && |st| == 26 && |tib| == 7 && c.esp >= 65700
    ensures Reaches(prog, s, s2) && s2.eip == l.heap
    ensures s2.r == s.r.(esp := s.r.esp - 4, flags := Resume(s.r.flags))
    ensures Reaches(prog, s2, t) && t.eip == l.heap + 12 && t.fs == s.fs
    ensures t.r == s.r.(esp := c.esp - 80, eax := c.esp - 56, ebp := c.esp - 40, flags := After(s.r))
    ensures l.heap <= U32_MAX - 12 && l.nh <= U32_MAX - 16
    ensures Stacked(m0, t.mem, t.fs, c.esp, Framed(l, s.r, st, tib[0]), tib[0 := c.esp - 56])
  {
    HeapSehIsValid(l);
    FramedIs(l, s.r, st, tib);
    hide Reaches, Stacked, SehListed, After, HeapSeh, ValidSeh, Framed, ExpectedStack, Resume;
    s2, t := SehInWindow(prog, HeapSehOf(l), c, m0, s, st, tib);
  }

  lemma FramedIs(l: AllocationSite, r: Registers, st: seq<u32>, tib: seq<u32>)
    requires ValidAllocation(l) && |st| == 26 && |tib| == 7 && r.esp >= 65596
    ensures l.heap <= U32_MAX - 12 && l.nh <= U32_MAX - 16
    ensures st[..1] + ExpectedStack(HeapSehOf(l), 3, r, tib, st[1..21]) + st[21..] == Framed(l, r, st, tib[0])
  {
    HeapSehIsValid(l);
    hide HeapSeh, ValidFrameTarget, CallOf;
    var part := st[1..21];
    assert part[0] == st[1] && part[1] == st[2] && part[6] == st[7] && part[8] == st[9];
  }

  // ---- The heap function up to the API -------------------------------------------

  /** Stop 3: the heap mode compared. */
  lemma ComparesMode(prog: Program, l: AllocationSite, c: Registers, m0: Memory, s0: Cpu, s: Cpu, st: seq<u32>,
                     tib: seq<u32>, size: u32, mode: u32) returns (t: Cpu)
    requires Placed(l) && HeapEntryListed(prog, l) && Reaches(prog, s0, s) && s.eip == l.heap + 12
    requires Stacked(m0, s.mem, s.fs, c.esp, st, tib) && |st| == 26 && st[16] == size && c.esp >= 65700
    requires s.r.ebp == c.esp - 40 && Global(m0, s.fs, c.esp, l.heapMode, mode)
    ensures Reaches(prog, s0, t) && t.eip == l.heap + 22 && t.fs == s.fs && t.mem == s.mem
    ensures t.r == s.r.(esi := size, flags := t.r.flags)
    ensures SameControl(t.r.flags, s.r.flags) && (t.r.flags.zf <==> mode == 3)
  {
    hide Reaches, Run, Step, Load32, Stacked, Global, EvenParity;
    StackBounds(m0, s.mem, s.fs, c.esp, st, tib);
    StackLoad(m0, s.mem, s.fs, c.esp, st, tib, 16);
    t := LoadRule(prog, s0, s, ESI, Based(EBP, 8), 3, size);
    GlobalKept(m0, t.mem, t.fs, c.esp, st, tib, l.heapMode, mode);
    AbsoluteIs(t, l.heapMode);
    t := CmpStoredRule(prog, s0, t, Absolute(l.heapMode), 3, 7, mode);
  }

  /** Stop 4, in mode 3 only: the threshold compared. */
  lemma ComparesThreshold(prog: Program, l: AllocationSite, c: Registers, m0: Memory, s: Cpu, st: seq<u32>,
                          tib: seq<u32>, threshold: u32) returns (t: Cpu)
    requires Placed(l) && HeapEntryListed(prog, l) && s.eip == l.heap + 22 && s.r.flags.zf
    requires Stacked(m0, s.mem, s.fs, c.esp, st, tib) && Global(m0, s.fs, c.esp, l.threshold, threshold)
    requires threshold < s.r.esi
    ensures Reaches(prog, s, t) && t.eip == l.heap + 30 && t.fs == s.fs && t.mem == s.mem
    ensures t.r == s.r.(flags := t.r.flags) && SameControl(t.r.flags, s.r.flags)
    ensures !t.r.flags.cf && !t.r.flags.zf
  {
    hide Reaches, Run, Step, Load32, Stacked, Global, EvenParity;
    Stay(prog, s);
    t := JccRule(prog, s, s, NotEqual, 46, 2);
    GlobalKept(m0, t.mem, t.fs, c.esp, st, tib, l.threshold, threshold);
    AbsoluteIs(t, l.threshold);
    t := AluRule(prog, s, t, CMP, ESI, Mem32(Absolute(l.threshold)), 6, threshold);
  }

  /** The size is a multiple of 16 already. */
  lemma RoundingKeeps(a: u32)
    requires AlignmentValid(a)
    ensures Words.And(2048 + a + 15, 0xffff_fff0) == 2048 + a
  {
    hide Words.And, LowBits, HighBits, Pow2;
    var k := AlignmentIsPower(a);
    SixteenDivides(k);
    var x := 2048 + a + 15;
    assert Pow2(32) == M32 && Pow2(4) == 16 by { Pow2Values(); }
    AndHighMask(x, 32, 4);
    WithoutLowBits(x, 4);
    LowFour(x, a);
  }

  lemma LowFour(x: nat, a: nat)
    requires x == 2048 + a + 15 && a % 16 == 0
    ensures LowBits(x, 4) == 15
  {
    var q := (2048 + a) / 16;
    assert x == 16 * q + 15;
    hide LowBits;
    OddLowBits(8 * q + 7, 3);
    OddLowBits(4 * q + 3, 2);
    OddLowBits(2 * q + 1, 1);
    OddLowBits(q, 0);
    NoLowBits(q);
  }

  lemma OddLowBits(y: nat, k: nat)
    ensures LowBits(2 * y + 1, k + 1) == 1 + 2 * LowBits(y, k)
  {
    assert (2 * y + 1) / 2 == y && (2 * y + 1) % 2 == 1;
  }

  lemma NoLowBits(y: nat)
    ensures LowBits(y, 0) == 0
  {}

  lemma SixteenDivides(k: nat)
    requires 4 <= k
    ensures Pow2(k) % 16 == 0
  {
    assert Pow2(k) == 2 * Pow2(k - 1) && Pow2(k - 1) == 2 * Pow2(k - 2);
    assert Pow2(k - 2) == 2 * Pow2(k - 3) && Pow2(k - 3) == 2 * Pow2(k - 4);
    hide Pow2;
    assert Pow2(k) == 16 * Pow2(k - 4);
  }

  /** Behind the branches the size, not zero, is tested. */
  lemma TestsSize(prog: Program, l: AllocationSite, s0: Cpu, s: Cpu) returns (t: Cpu)
    requires Placed(l) && HeapRoundListed(prog, l) && Reaches(prog, s0, s) && s.eip == l.heap + 70
    requires s.r.esi != 0
    ensures Reaches(prog, s0, t) && t.eip == l.heap + 75 && t.fs == s.fs && t.mem == s.mem
    ensures t.r == s.r.(flags := t.r.flags) && SameControl(t.r.flags, s.r.flags)
  {
    AndSelf(s.r.esi);
    hide Reaches, Run, Step, EvenParity, Words.And;
    t := AluRule(prog, s0, s, TEST, ESI, R32(ESI), 2, s.r.esi);
    t := JccRule(prog, s0, t, NotEqual, 1, 2);
  }

  /** The rounding up to a multiple of 16 changes nothing. */
  lemma Rounds(prog: Program, l: AllocationSite, s0: Cpu, s: Cpu, a: u32) returns (t: Cpu)
    requires Placed(l) && HeapRoundListed(prog, l) && Reaches(prog, s0, s) && s.eip == l.heap + 84
    requires AlignmentValid(a) && s.r.esi == 2048 + a
    ensures Reaches(prog, s0, t) && t.eip == l.heap + 90 && t.fs == s.fs && t.mem == s.mem
    ensures t.r == s.r.(flags := t.r.flags) && SameControl(t.r.flags, s.r.flags)
  {
    RoundingKeeps(a);
    hide Reaches, Run, Step, EvenParity, Words.And;
    t := AluRule(prog, s0, s, ADD, ESI, Imm(15), 3, 15);
    t := AluRule(prog, s0, t, AND, ESI, Imm(0xffff_fff0), 3, 0xffff_fff0);
  }

  /** It happens in mode 3 only. */
  lemma RoundsSize(prog: Program, l: AllocationSite, c: Registers, m0: Memory, s0: Cpu, s: Cpu, st: seq<u32>,
                   tib: seq<u32>, a: u32, mode: u32) returns (t: Cpu)
    requires Placed(l) && HeapRoundListed(prog, l) && Reaches(prog, s0, s) && s.eip == l.heap + 75
    requires Stacked(m0, s.mem, s.fs, c.esp, st, tib) && Global(m0, s.fs, c.esp, l.heapMode, mode)
    requires AlignmentValid(a) && s.r.esi == 2048 + a
    ensures Reaches(prog, s0, t) && t.eip == l.heap + 90 && t.fs == s.fs && t.mem == s.mem
    ensures t.r == s.r.(flags := t.r.flags) && SameControl(t.r.flags, s.r.flags)
  {
    hide Reaches, Run, Step, Load32, Stacked, Global, EvenParity, Words.And, AlignmentValid;
    GlobalKept(m0, s.mem, s.fs, c.esp, st, tib, l.heapMode, mode);
    AbsoluteIs(s, l.heapMode);
    t := CmpStoredRule(prog, s0, s, Absolute(l.heapMode), 1, 7, mode);
    t := JccRule(prog, s0, t, Equal, 6, 2);
    if mode != 1 {
      t := Rounds(prog, l, s0, t, a);
    }
  }

  /** Stop 5: the three arguments of the API pushed. */
  lemma PushesArguments(prog: Program, l: AllocationSite, c: Registers, m0: Memory, s0: Cpu, s: Cpu, st: seq<u32>,
                        tib: seq<u32>, handle: u32) returns (t: Cpu)
    requires Placed(l) && HeapCallListed(prog, l) && Reaches(prog, s0, s) && s.eip == l.heap + 90
    requires Stacked(m0, s.mem, s.fs, c.esp, st, tib) && c.esp >= 65700 && s.r.esp == c.esp - 80 && |st| == 26
    requires Global(m0, s.fs, c.esp, l.handle, handle)
    ensures Reaches(prog, s0, t) && t.eip == l.heap + 99 && t.fs == s.fs
    ensures t.r == s.r.(esp := c.esp - 92, flags := Resume(s.r.flags))
    ensures Stacked(m0, t.mem, t.fs, c.esp, st[3 := s.r.esi][2 := 0][1 := handle], tib)
  {
    hide Reaches, Run, Step, Load32, Store32, Stacked, Global, Calls;
    StackBounds(m0, s.mem, s.fs, c.esp, st, tib);
    var m := StackStore(m0, s.mem, s.fs, c.esp, st, tib, 3, s.r.esi);
    t := PushRule(prog, s0, s, R32(ESI), 1, s.r.esi, m);
    var st1: seq<u32> := st[3 := s.r.esi];
    m := StackStore(m0, t.mem, t.fs, c.esp, st1, tib, 2, 0);
    t := PushRule(prog, s0, t, Imm(0), 2, 0, m);
    st1 := st1[2 := 0];
    GlobalKept(m0, t.mem, t.fs, c.esp, st1, tib, l.handle, handle);
    AbsoluteIs(t, l.handle);
    m := StackStore(m0, t.mem, t.fs, c.esp, st1, tib, 1, handle);
    t := PushRule(prog, s0, t, Mem32(Absolute(l.handle)), 6, handle, m);
  }

  /** Stop 6: the entry of the API. */
  lemma EntersHeapApi(prog: Program, l: AllocationSite, c: Registers, m0: Memory, s: Cpu, st: seq<u32>, tib: seq<u32>,
                      api: u32) returns (t: Cpu)
    requires Placed(l) && HeapCallListed(prog, l) && s.eip == l.heap + 99
    requires Stacked(m0, s.mem, s.fs, c.esp, st, tib) && c.esp >= 65700 && s.r.esp == c.esp - 92 && |st| == 26
    requires Global(m0, s.fs, c.esp, l.iat, api)
    ensures Reaches(prog, s, t) && t.eip == api && t.fs == s.fs
    ensures t.r == s.r.(esp := c.esp - 96, flags := Resume(s.r.flags))
    ensures Stacked(m0, t.mem, t.fs, c.esp, st[0 := l.heap + 105], tib)
  {
    hide Reaches, Run, Step, Load32, Store32, Stacked, Global, Calls;
    StackBounds(m0, s.mem, s.fs, c.esp, st, tib);
    Stay(prog, s);
    GlobalKept(m0, s.mem, s.fs, c.esp, st, tib, l.iat, api);
    AbsoluteIs(s, l.iat);
    var m := StackStore(m0, s.mem, s.fs, c.esp, st, tib, 0, l.heap + 105);
    t := CallToRule(prog, s, s, Absolute(l.iat), 6, api, m);
  }

  // ---- The stops down to the API ---------------------------------------------------

  ghost predicate CodeListed(prog: Program, l: AllocationSite) {
    && AlignedListed(prog, l) && MallocListed(prog, l) && NhListed(prog, l)
    && HeapEntryListed(prog, l) && HeapRoundListed(prog, l) && HeapCallListed(prog, l)
    && EpilogueListed(prog, l.epilogue)
  }

  lemma HeapSehDecodes(code: Code, l: AllocationSite)
    requires ValidAllocation(l) && Loaded(code, Prologue(l.seh), PrologueBytes(l.seh))
    requires Loaded(code, l.heap, HeapEntryBytes(l)) && Calls(Disassembly(code), l.nh + 11, l.heap)
    ensures SehListed(Disassembly(code), HeapSehOf(l))
  {
    HeapSehIsValid(l);
    hide Disassembly, Loaded, HeapSeh, ValidSeh, Calls, Lists, HeapEntryListed, HeapEntryBytes,
         SaveHeadListed, OpenFrameListed, SaveRegistersListed, SetStateListed, LinkHeadListed;
    var h := HeapSehOf(l);
    HeapEntryDecodes(code, l);
    assert PrologueBytes(h) == PrologueBytes(l.seh);
    PrologueDecodes(code, h);
  }

  lemma AllocationDecodes(code: Code, l: AllocationSite)
    requires ValidAllocation(l) && AllocationLoaded(code, l)
    ensures CodeListed(Disassembly(code), l) && SehListed(Disassembly(code), HeapSehOf(l))
    ensures Loaded(code, l.aligned + 17, ALIGN_TAIL) && Loaded(code, l.aligned + 28, ALIGN_END)
  {
    hide Loaded, Disassembly, AlignedListed, MallocListed, SehListed, HeapEntryListed, HeapRoundListed,
         HeapCallListed, EpilogueListed, Lists, Calls, ValidSeh;
    AlignedDecodes(code, l);
    MallocDecodes(code, l);
    NhDecodes(code, l);
    HeapEntryDecodes(code, l);
    HeapSehDecodes(code, l);
    HeapTailDecodes(code, l);
    EpilogueDecodes(code, l.epilogue);
  }

  /** From the entry to the CALL of the heap function. */
  lemma ToHeapCall(prog: Program, l: AllocationSite, c: Registers, s: Cpu, st: seq<u32>, tib: seq<u32>, a: u32)
    returns (t: Cpu)
    requires Placed(l) && CodeListed(prog, l) && s.eip == l.aligned && a <= 65536
    requires Stacked(s.mem, s.mem, s.fs, c.esp, st, tib) && |st| == 26 && st[24] == 2048 && st[25] == a
    requires c.esp >= 65700 && s.r == c.(esp := c.esp - 4, flags := s.r.flags)
    requires Global(s.mem, s.fs, c.esp, l.newMode, 0)
    ensures Reaches(prog, s, t) && t.eip == l.nh + 11 && t.fs == s.fs && SameControl(t.r.flags, s.r.flags)
    ensures t.r == c.(eax := 2048 + a, esi := a, esp := c.esp - 32, flags := t.r.flags)
    ensures Stacked(s.mem, t.mem, t.fs, c.esp, AtHeapCall(l, c, st, a), tib)
  {
    AtHeapCallIs(l, c, st, a);
    hide Reaches, Stacked, Global, MallocListed, AlignedListed, NhListed, HeapEntryListed, HeapCallListed,
         HeapRoundListed, EpilogueListed, AtHeapCall;
    t := ThroughHead(prog, l, c, s.mem, s, st, tib, a);
    var st1: seq<u32> := st[22 := c.esi][21 := 2048 + a][20 := l.aligned + 17];
    t := ThroughMalloc(prog, l, c, s.mem, s, t, st1, tib, 2048 + a);
    st1 := st1[19 := 0][18 := 2048 + a][17 := l.malloc + 15];
    t := ThroughNh(prog, l, c, s.mem, s, t, st1, tib, 2048 + a);
  }

  lemma AtHeapCallIs(l: AllocationSite, c: Registers, st: seq<u32>, a: u32)
    requires |st| == 26 && a <= 65536 && l.malloc <= U32_MAX - 15 && l.aligned <= U32_MAX - 17
    ensures st[22 := c.esi][21 := 2048 + a][20 := l.aligned + 17][19 := 0][18 := 2048 + a][17 := l.malloc + 15]
              [16 := 2048 + a] == AtHeapCall(l, c, st, a)
  {}

  /** The stack when the heap function is called. */
  function AtHeapCall(l: AllocationSite, c: Registers, st: seq<u32>, a: u32): seq<u32>
    requires |st| == 26 && a <= 65536 && l.malloc <= U32_MAX - 15 && l.aligned <= U32_MAX - 17
  {
    st[..16] + [2048 + a, l.malloc + 15, 2048 + a, 0, l.aligned + 17, 2048 + a, c.esi] + st[23..]
  }

  /** From the prologue to the arguments of the API: stops 3 to 5. */
  lemma ToHeapApiCall(prog: Program, l: AllocationSite, c: Registers, m0: Memory, s: Cpu, st: seq<u32>, tib: seq<u32>,
                      a: u32, g: seq<u32>, api: u32) returns (s3: Cpu, s4: Cpu, s5: Cpu)
    requires Placed(l) && CodeListed(prog, l) && s.eip == l.heap + 12
    requires Stacked(m0, s.mem, s.fs, c.esp, st, tib) && |st| == 26 && st[16] == 2048 + a
    requires |g| == 4 && Request(a, g) && Globals(m0, s.fs, c.esp, l, g, api)
    requires c.esp >= 65700 && s.r.ebp == c.esp - 40 && s.r.esp == c.esp - 80
    ensures Reaches(prog, s, s3) && s3.eip == l.heap + 22 && s3.fs == s.fs
    ensures s3.r == s.r.(esi := 2048 + a, flags := s3.r.flags) && SameControl(s3.r.flags, s.r.flags)
    ensures s3.r.flags.zf <==> g[3] == 3
    ensures g[3] == 3 ==> Reaches(prog, s3, s4) && Reaches(prog, s4, s5) && s4.eip == l.heap + 30 && s4.fs == s.fs
    ensures g[3] == 3 ==> s4.r == s3.r.(flags := s4.r.flags) && SameControl(s4.r.flags, s.r.flags)
    ensures g[3] == 3 ==> !s4.r.flags.cf && !s4.r.flags.zf
    ensures Reaches(prog, s3, s5) && s5.eip == l.heap + 99 && s5.fs == s.fs
    ensures s5.r == s.r.(esi := 2048 + a, esp := c.esp - 92, flags := s5.r.flags) && SameControl(s5.r.flags, s.r.flags)
    ensures Stacked(m0, s5.mem, s5.fs, c.esp, st[3 := 2048 + a][2 := 0][1 := g[2]], tib)
  {
    hide Reaches, Stacked, Global, AlignedListed, MallocListed, NhListed, HeapCallListed,
         HeapRoundListed, EpilogueListed, AlignmentValid;
    Stay(prog, s);
    s3 := ComparesMode(prog, l, c, m0, s, s, st, tib, 2048 + a, g[3]);
    if g[3] == 3 {
      s4 := ComparesThreshold(prog, l, c, m0, s3, st, tib, g[1]);
      s5 := FromBranch(prog, l, c, m0, s4, st, tib, a, g[3], g[2], Above, 38);
      Chain(prog, s3, s4, s5);
    } else {
      s4 := s3;
      s5 := FromBranch(prog, l, c, m0, s3, st, tib, a, g[3], g[2], NotEqual, 46);
    }
  }

  /** Either branch, taken, leads to the arguments. */
  lemma FromBranch(prog: Program, l: AllocationSite, c: Registers, m0: Memory, s: Cpu, st: seq<u32>, tib: seq<u32>,
                   a: u32, mode: u32, handle: u32, cond: Cond, rel: int) returns (t: Cpu)
    requires Placed(l) && HeapRoundListed(prog, l) && HeapCallListed(prog, l)
    requires Lists(prog, s.eip, Jcc(cond, rel), 2) && Holds(s.r.flags, cond) && s.eip + 2 + rel == l.heap + 70
    requires Stacked(m0, s.mem, s.fs, c.esp, st, tib) && |st| == 26 && c.esp >= 65700 && s.r.esp == c.esp - 80
    requires AlignmentValid(a) && s.r.esi == 2048 + a && -100 <= rel <= 100
    requires Global(m0, s.fs, c.esp, l.heapMode, mode) && Global(m0, s.fs, c.esp, l.handle, handle)
    ensures Reaches(prog, s, t) && t.eip == l.heap + 99 && t.fs == s.fs
    ensures t.r == s.r.(esp := c.esp - 92, flags := t.r.flags) && SameControl(t.r.flags, s.r.flags)
    ensures Stacked(m0, t.mem, t.fs, c.esp, st[3 := 2048 + a][2 := 0][1 := handle], tib)
  {
    hide Reaches, Run, Step, Stacked, Global, HeapCallListed, HeapRoundListed, AlignmentValid;
    Stay(prog, s);
    t := JccRule(prog, s, s, cond, rel, 2);
    t := TestsSize(prog, l, s, t);
    t := RoundsSize(prog, l, c, m0, s, t, st, tib, a, mode);
    t := PushesArguments(prog, l, c, m0, s, t, st, tib, handle);
  }

  /** The stack the API sees: its return address and arguments, the frame of the heap
      function, and the nested calls with their arguments. */
  function HeapStack(l: AllocationSite, c: Registers, st: seq<u32>, head: u32, a: u32, handle: u32): seq<u32>
    requires ValidAllocation(l) && |st| == 26 && a <= 65536 && c.esp >= 65700
  {
    [l.heap + 105, handle, 0, 2048 + a] +
    [c.edi, a, c.ebx, st[7], c.esp - 80, st[9], head, Handler(l.seh), l.scope, U32_MAX, c.ebp] +
    [l.nh + 16, 2048 + a, l.malloc + 15, 2048 + a, 0, l.aligned + 17, 2048 + a, c.esi] + st[23..]
  }

  /** Behind the prologue. */
  function FramedStack(l: AllocationSite, c: Registers, st: seq<u32>, head: u32, a: u32): (f: seq<u32>)
    requires ValidAllocation(l) && |st| == 26 && a <= 65536 && c.esp >= 65700
    ensures |f| == 26
  {
    st[..3] +
    [l.heap + 12, c.edi, a, c.ebx, st[7], c.esp - 80, st[9], head, Handler(l.seh), l.scope, U32_MAX, c.ebp] +
    [l.nh + 16, 2048 + a, l.malloc + 15, 2048 + a, 0, l.aligned + 17, 2048 + a, c.esi] + st[23..]
  }

  lemma FramedStackIs(l: AllocationSite, c: Registers, r: Registers, st: seq<u32>, head: u32, a: u32)
    requires ValidAllocation(l) && |st| == 26 && a <= 65536 && c.esp >= 65700
    requires r.edi == c.edi && r.esi == a && r.ebx == c.ebx && r.ebp == c.ebp && r.esp == c.esp - 32
    ensures Framed(l, r, AtHeapCall(l, c, st, a), head) == FramedStack(l, c, st, head, a)
  {
    hide ValidSeh, Handler;
  }

  lemma HeapStackIs(l: AllocationSite, c: Registers, st: seq<u32>, head: u32, a: u32, handle: u32)
    requires ValidAllocation(l) && |st| == 26 && a <= 65536 && c.esp >= 65700
    ensures Placed(l) && Pushed(l, FramedStack(l, c, st, head, a), a, handle) ==
            HeapStack(l, c, st, head, a, handle)
    ensures FramedStack(l, c, st, head, a)[16] == 2048 + a
  {
    IsPlaced(l);
    hide ValidSeh, Handler;
  }

  /** The stop at the heap function, and the state behind the prologue. */
  lemma ToFrame(prog: Program, l: AllocationSite, c: Registers, s: Cpu, st: seq<u32>, tib: seq<u32>, a: u32)
    returns (s2: Cpu, t: Cpu)
    requires ValidAllocation(l) && CodeListed(prog, l) && SehListed(prog, HeapSehOf(l))
    requires s.eip == l.aligned && a <= 65536
    requires Stacked(s.mem, s.mem, s.fs, c.esp, st, tib) && |st| == 26 && |tib| == 7 && st[24] == 2048 && st[25] == a
    requires c.esp >= 65700 && s.r == c.(esp := c.esp - 4, flags := s.r.flags)
    requires Global(s.mem, s.fs, c.esp, l.newMode, 0)
    ensures Reaches(prog, s, s2) && s2.eip == l.heap && SameControl(s2.r.flags, s.r.flags)
    ensures s2.r == c.(eax := 2048 + a, esi := a, esp := c.esp - 36, flags := s2.r.flags)
    ensures Reaches(prog, s2, t) && t.eip == l.heap + 12 && t.fs == s.fs && SameControl(t.r.flags, s.r.flags)
    ensures t.r == c.(eax := c.esp - 56, esi := a, ebp := c.esp - 40, esp := c.esp - 80, flags := t.r.flags)
    ensures Stacked(s.mem, t.mem, t.fs, c.esp, FramedStack(l, c, st, tib[0], a), tib[0 := c.esp - 56])
  {
    IsPlaced(l);
    hide Reaches, Stacked, Global, ValidSeh, AlignedListed, MallocListed, SehListed, NhListed, HeapEntryListed,
         HeapCallListed, HeapRoundListed, EpilogueListed, After, Framed, FramedStack, AtHeapCall, InImage;
    var call := ToHeapCall(prog, l, c, s, st, tib, a);
    s2, t := ThroughSeh(prog, l, c, s.mem, call, AtHeapCall(l, c, st, a), tib);
    AfterKeepsControl(call.r);
    FramedStackIs(l, c, call.r, st, tib[0], a);
    Chain(prog, s, call, s2);
  }

  /** Arguments and return address of the API pushed. */
  function Pushed(l: AllocationSite, st: seq<u32>, a: u32, handle: u32): seq<u32>
    requires |st| == 26 && a <= 65536 && Placed(l)
  {
    st[3 := 2048 + a][2 := 0][1 := handle][0 := l.heap + 105]
  }

  /** Stops 3 to 6 from there. */
  lemma ApiStops(prog: Program, l: AllocationSite, c: Registers, m0: Memory, s: Cpu, st: seq<u32>, tib: seq<u32>,
                 a: u32, g: seq<u32>, api: u32) returns (s3: Cpu, s4: Cpu, s5: Cpu, s6: Cpu)
    requires Placed(l) && CodeListed(prog, l) && s.eip == l.heap + 12
    requires Stacked(m0, s.mem, s.fs, c.esp, st, tib) && |st| == 26 && st[16] == 2048 + a
    requires |g| == 4 && Request(a, g) && Globals(m0, s.fs, c.esp, l, g, api)
    requires c.esp >= 65700 && a <= 65536 && SameControl(s.r.flags, c.flags)
    requires s.r == c.(eax := c.esp - 56, esi := a, ebp := c.esp - 40, esp := c.esp - 80, flags := s.r.flags)
    ensures Reaches(prog, s, s3) && s3.eip == l.heap + 22
    ensures InHeap(3, c, s3.r, a) && InHeap(5, c, s5.r, a) && InHeap(6, c, s6.r, a)
    ensures s3.r.flags.zf <==> g[3] == 3
    ensures g[3] == 3 ==> Reaches(prog, s3, s4) && Reaches(prog, s4, s5) && s4.eip == l.heap + 30
    ensures g[3] == 3 ==> !s4.r.flags.cf && !s4.r.flags.zf && InHeap(4, c, s4.r, a)
    ensures Reaches(prog, s3, s5) && s5.eip == l.heap + 99
    ensures Reaches(prog, s5, s6) && s6.eip == api && s6.fs == s.fs
    ensures Stacked(m0, s6.mem, s6.fs, c.esp, Pushed(l, st, a, g[2]), tib)
  {
    hide Reaches, Stacked, Global, AlignedListed, MallocListed, NhListed, HeapEntryListed,
         HeapCallListed, HeapRoundListed, EpilogueListed, AlignmentValid;
    s3, s4, s5 := ToHeapApiCall(prog, l, c, m0, s, st, tib, a, g, api);
    s6 := EntersHeapApi(prog, l, c, m0, s5, st[3 := 2048 + a][2 := 0][1 := g[2]], tib, api);
  }

  lemma AfterKeepsControl(r: Registers)
    requires r.esp >= 65596
    ensures SameControl(After(r), r.flags)
  {
    hide EvenParity;
  }

  lemma EntryFrame(c: Registers, r: Registers, a: u32, blank: AllocationLayout, back: Registers)
    requires AllocationFrame(1, c, r, a, blank, back)
    ensures AlignmentValid(a) && a <= 65536 && c.esp >= 65700 && c.esp % 4 == 0 && !c.flags.tf && !c.flags.df
    ensures r == c.(esp := c.esp - 4, flags := r.flags) && SameControl(r.flags, c.flags)
  {}

  lemma HeapCallFrame(c: Registers, r: Registers, a: u32, blank: AllocationLayout, back: Registers)
    requires AlignmentValid(a) && c.esp >= 65700 && c.esp % 4 == 0 && !c.flags.tf && !c.flags.df
    requires SameControl(r.flags, c.flags) && r == c.(eax := 2048 + a, esi := a, esp := c.esp - 36, flags := r.flags)
    ensures AllocationFrame(2, c, r, a, blank, back)
  {}

  lemma HeapFrame(stage: nat, c: Registers, r: Registers, a: u32, blank: AllocationLayout, back: Registers)
    requires AlignmentValid(a) && c.esp % 4 == 0 && !c.flags.tf && !c.flags.df && InHeap(stage, c, r, a)
    ensures AllocationFrame(stage, c, r, a, blank, back)
  {}

  /** The whole way, in registers. */
  lemma StopsToApi(prog: Program, l: AllocationSite, c: Registers, s: Cpu, st: seq<u32>, tib: seq<u32>, a: u32,
                   g: seq<u32>, api: u32) returns (s2: Cpu, s3: Cpu, s4: Cpu, s5: Cpu, s6: Cpu)
    requires ValidAllocation(l) && CodeListed(prog, l) && SehListed(prog, HeapSehOf(l)) && s.eip == l.aligned
    requires Stacked(s.mem, s.mem, s.fs, c.esp, st, tib) && |st| == 26 && |tib| == 7 && st[24] == 2048 && st[25] == a
    requires c.esp >= 65700 && s.r == c.(esp := c.esp - 4, flags := s.r.flags) && SameControl(s.r.flags, c.flags)
    requires |g| == 4 && Request(a, g) && a <= 65536 && Globals(s.mem, s.fs, c.esp, l, g, api)
    ensures Reaches(prog, s, s2) && s2.eip == l.heap && Reaches(prog, s2, s3) && s3.eip == l.heap + 22
    ensures s3.r.flags.zf <==> g[3] == 3
    ensures g[3] == 3 ==> Reaches(prog, s3, s4) && Reaches(prog, s4, s5) && s4.eip == l.heap + 30
    ensures g[3] == 3 ==> !s4.r.flags.cf && !s4.r.flags.zf && InHeap(4, c, s4.r, a)
    ensures Reaches(prog, s3, s5) && s5.eip == l.heap + 99 && Reaches(prog, s5, s6) && s6.eip == api && s6.fs == s.fs
    ensures SameControl(s2.r.flags, c.flags)
    ensures s2.r == c.(eax := 2048 + a, esi := a, esp := c.esp - 36, flags := s2.r.flags)
    ensures InHeap(3, c, s3.r, a) && InHeap(5, c, s5.r, a) && InHeap(6, c, s6.r, a)
    ensures Stacked(s.mem, s6.mem, s6.fs, c.esp, HeapStack(l, c, st, tib[0], a, g[2]), tib[0 := c.esp - 56])
  {
    IsPlaced(l);
    assert Global(s.mem, s.fs, c.esp, l.newMode, 0);
    hide Reaches, Stacked, Global, Globals, Request, ValidAllocation, Placed, AlignmentValid, SehListed, CodeListed,
         HeapStack, FramedStack, Pushed, InHeap;
    var t;
    s2, t := ToFrame(prog, l, c, s, st, tib, a);
    HeapStackIs(l, c, st, tib[0], a, g[2]);
    s3, s4, s5, s6 := ApiStops(prog, l, c, s.mem, t, FramedStack(l, c, st, tib[0], a), tib[0 := c.esp - 56], a, g, api);
    Chain(prog, s2, t, s3);
  }

  /** Inside the heap function: the prologue's frame, the size in ESI. */
  predicate InHeap(stage: nat, c: Registers, r: Registers, a: u32) {
    && 3 <= stage <= 6 && c.esp >= 65700 && a <= 65536 && SameControl(r.flags, c.flags)
    && r == c.(eax := c.esp - 56, esi := 2048 + a, ebp := c.esp - 40, flags := r.flags,
               esp := c.esp - if stage <= 4 then 80 else if stage == 5 then 92 else 96)
  }

  /** From the entry of the routine to that of the heap API, in an admitted request: the
      stops 2 to 6 are as the frame demands, stop 4 exactly in mode 3, the branches are
      decided as the observer checks, the previous exception head is linked, and the
      stack the API sees is exactly the stated one. */
  lemma ToHeapApi(code: Code, l: AllocationSite, c: Registers, s: Cpu, st: seq<u32>, tib: seq<u32>, a: u32, g: seq<u32>,
                  api: u32, blank: AllocationLayout, back: Registers)
    returns (s2: Cpu, s3: Cpu, s4: Cpu, s5: Cpu, s6: Cpu)
    requires ValidAllocation(l) && AllocationLoaded(code, l) && s.eip == l.aligned
    requires AllocationFrame(1, c, s.r, a, blank, back) && |g| == 4 && Request(a, g)
    requires Stacked(s.mem, s.mem, s.fs, c.esp, st, tib) && |st| == 26 && |tib| == 7 && st[24] == 2048 && st[25] == a
    requires Globals(s.mem, s.fs, c.esp, l, g, api)
    ensures Reaches(Disassembly(code), s, s2) && s2.eip == l.heap && AllocationFrame(2, c, s2.r, a, blank, back)
    ensures Reaches(Disassembly(code), s2, s3) && s3.eip == l.heap + 22 && AllocationFrame(3, c, s3.r, a, blank, back)
    ensures s3.r.flags.zf <==> g[3] == 3
    ensures g[3] == 3 ==> Reaches(Disassembly(code), s3, s4) && Reaches(Disassembly(code), s4, s5)
    ensures g[3] == 3 ==> s4.eip == l.heap + 30 && AllocationFrame(4, c, s4.r, a, blank, back)
    ensures g[3] == 3 ==> !s4.r.flags.cf && !s4.r.flags.zf
    ensures Reaches(Disassembly(code), s3, s5) && s5.eip == l.heap + 99 && AllocationFrame(5, c, s5.r, a, blank, back)
    ensures Reaches(Disassembly(code), s5, s6) && s6.eip == api && AllocationFrame(6, c, s6.r, a, blank, back)
    ensures s6.fs == s.fs
    ensures Stacked(s.mem, s6.mem, s6.fs, c.esp, HeapStack(l, c, st, tib[0], a, g[2]), tib[0 := c.esp - 56])
  {
    AllocationDecodes(code, l);
    EntryFrame(c, s.r, a, blank, back);
    hide Reaches, Stacked, Globals, Request, ValidAllocation, AllocationLoaded, AllocationFrame, SehListed, CodeListed,
         HeapStack, Disassembly, Loaded, InHeap;
    s2, s3, s4, s5, s6 := StopsToApi(Disassembly(code), l, c, s, st, tib, a, g, api);
    HeapCallFrame(c, s2.r, a, blank, back);
    HeapFrame(3, c, s3.r, a, blank, back);
    if g[3] == 3 { HeapFrame(4, c, s4.r, a, blank, back); }
    HeapFrame(5, c, s5.r, a, blank, back);
    HeapFrame(6, c, s6.r, a, blank, back);
  }
}
