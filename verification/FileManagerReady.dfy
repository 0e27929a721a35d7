// Taking the SEH frame down and ending the directory with a separator: the
// observer's register predicate for its nine stops and its buffer predicate,
// and the proof that execution meets them.

module FileManagerReady {
  import opened Words
  import opened X86
  import opened X86Rules
  import opened StackWindow
  import opened CwdSeh
  import opened FileManagerCode

  // ---- file_manager_ready_frame, file_manager_ready_buffer -----------------

  function StopStack(t: u32, stage: nat): int
    requires 1 <= stage <= 9
  {
    [t - 16, t - 20, t - 12, t, t + 48, t + 52, t + 60, t + 60, t + 68][stage - 1]
  }

  predicate ReadyFrame(stage: nat, h: Registers, caller: Registers, r: Registers, destination: u32, length: u32) {
    && 1 <= stage <= 9 && 65556 <= h.esp <= U32_MAX - 68 && h.esp % 4 == 0 && h.ebp == h.esp + 44
    && caller.esp == h.esp + 68 && 0 < destination <= U32_MAX - 128 && 3 <= length <= 126
    && caller.ebx == 0 && caller.esi == 0 && caller.edi == 24 && r.ebx == 0 && r.esi == 0
    && !r.flags.tf && !r.flags.df
    && r.flags.tf == h.flags.tf && r.flags.df == h.flags.df && r.flags.rest == h.flags.rest
    && r.esp == StopStack(h.esp, stage)
    && r.ebp == (if stage <= 3 then h.esp - 12 else if stage == 4 then h.ebp else caller.ebp)
    && r.edi == (if stage == 7 || stage == 8 then Wrap(destination + length) else caller.edi)
    && (stage <= 2 ==> r.eax == 7)
    && (4 <= stage <= 6 ==> r.eax == destination)
    && (stage == 7 ==> r.eax == And(destination, 0xffff_ff00))
    && (stage >= 8 ==> r.eax == Or(And(destination, 0xffff_0000), 0x5c))
  }

  predicate ReadyBuffer(before: seq<byte>, now: seq<byte>, length: nat, written: bool)
    requires |before| == 136 && |now| == 136
  {
    && 3 <= length <= 126 && before[length + 4] == 0
    && (forall i :: 4 <= i < length + 4 ==> before[i] != 0)
    && now == if written then before[length + 4 := 0x5c][length + 5 := 0] else before
  }

  // ---- The stack of the frame ----------------------------------------------

  /** 22 words from h.esp - 20 up to the manager's return address. */
  ghost predicate Held(m0: Memory, m: Memory, fs: u32, h: Registers, st: seq<u32>, tib: seq<u32>) {
    && |st| == 22 && |tib| == 7 && 65556 <= h.esp <= U32_MAX - 68
    && View(m0, m, h.esp - 20, st, fs, tib)
  }

  lemma HeldLoad(m0: Memory, m: Memory, fs: u32, h: Registers, st: seq<u32>, tib: seq<u32>, k: nat)
    requires Held(m0, m, fs, h, st, tib) && k < 22
    ensures Load32(m, h.esp - 20 + 4 * k) == Some(st[k])
  {
    Loads(m0, m, h.esp - 20, st, fs, tib, k);
  }

  lemma HeldStore(m0: Memory, m: Memory, fs: u32, h: Registers, st: seq<u32>, tib: seq<u32>, k: nat, v: u32)
    returns (m': Memory)
    requires Held(m0, m, fs, h, st, tib) && k < 22
    ensures Store32(m, h.esp - 20 + 4 * k, v) == Some(m') && Held(m0, m', fs, h, st[k := v], tib)
  {
    hide View;
    m' := Stores(m0, m, h.esp - 20, st, fs, tib, k, v);
  }

  lemma HeldStoreHead(m0: Memory, m: Memory, fs: u32, h: Registers, st: seq<u32>, tib: seq<u32>, v: u32)
    returns (m': Memory)
    requires Held(m0, m, fs, h, st, tib)
    ensures Store32(m, fs, v) == Some(m') && Held(m0, m', fs, h, st, tib[0 := v])
  {
    hide View;
    m' := StoresTib(m0, m, h.esp - 20, st, fs, tib, 0, v);
  }

  lemma HeldBounds(m0: Memory, m: Memory, fs: u32, h: Registers, st: seq<u32>, tib: seq<u32>)
    requires Held(m0, m, fs, h, st, tib)
    ensures |st| == 22 && |tib| == 7 && 65556 <= h.esp <= U32_MAX - 68
  {}

  /** A word outside the window and the thread block is as it was. */
  lemma HeldElsewhere(m0: Memory, m: Memory, fs: u32, h: Registers, st: seq<u32>, tib: seq<u32>, a: int, v: u32)
    requires Held(m0, m, fs, h, st, tib) && Load32(m0, a) == Some(v)
    requires Apart(a, 4, h.esp - 20, 88) && Apart(a, 4, fs, 28)
    ensures Load32(m, a) == Some(v)
  {
    assert a in m && a + 1 in m && a + 2 in m && a + 3 in m;
  }

  // ---- Before the API ------------------------------------------------------

  lemma OrAllOnes(v: u32)
    ensures Clamp(Or(v, U32_MAX)) == U32_MAX
  {
    Pow2Values();
    OrBound(v, U32_MAX, 32);
  }

  /** Where the wrapper tail starts: helper results dropped, EAX the directory. */
  predicate AtTail(l: ReadySite, h: Registers, s: Cpu) {
    && ValidSite(l) && s.eip == l.tail && s.r.esp == h.esp - 8 && s.r.ebp == h.ebp && h.ebp == h.esp + 44
    && 65556 <= h.esp <= U32_MAX - 68 && h.esp % 4 == 0 && s.r.eax == l.buffer
    && s.r.ebx == 0 && s.r.esi == 0 && s.r.edi == 24 && !h.flags.tf && !h.flags.df
    && s.r.flags.tf == h.flags.tf && s.r.flags.df == h.flags.df && s.r.flags.rest == h.flags.rest
  }

  /** Registers the code below never touches, and the control flags. */
  predicate Steady(h: Registers, s: Cpu) {
    && s.r.ebx == 0 && s.r.esi == 0 && s.r.edi == 24
    && s.r.flags.tf == h.flags.tf && s.r.flags.df == h.flags.df && s.r.flags.rest == h.flags.rest
  }

  lemma ThroughTail(prog: Program, l: ReadySite, h: Registers, m0: Memory, s: Cpu, st: seq<u32>, tib: seq<u32>)
    returns (t: Cpu)
    requires TailListed(prog, l) && AtTail(l, h, s) && Held(m0, s.mem, s.fs, h, st, tib)
    ensures Reaches(prog, s, t) && t.eip == l.cleanup && t.fs == s.fs && Steady(h, t)
    ensures t.r.esp == h.esp && t.r.ebp == h.ebp && |st| == 22
    ensures Held(m0, t.mem, t.fs, h, st[9 := l.buffer][15 := U32_MAX][5 := l.tail + 15], tib)
  {
    hide Reaches, Run, Step, Store32, Load32, Held, EvenParity, Or;
    HeldBounds(m0, s.mem, s.fs, h, st, tib);
    Stay(prog, s);
    t := AluRule(prog, s, s, ADD, ESP, Imm(12), 3, 12);
    var m := HeldStore(m0, t.mem, t.fs, h, st, tib, 9, l.buffer);
    t := StoreRule(prog, s, t, Based(EBP, -28), R32(EAX), 3, l.buffer, m);
    var st1 := st[9 := l.buffer];
    HeldLoad(m0, t.mem, t.fs, h, st1, tib, 15);
    OrAllOnes(st1[15]);
    m := HeldStore(m0, t.mem, t.fs, h, st1, tib, 15, U32_MAX);
    t := OrStoreRule(prog, s, t, Based(EBP, -4), U32_MAX, 4, st1[15], m);
    st1 := st1[15 := U32_MAX];
    m := HeldStore(m0, t.mem, t.fs, h, st1, tib, 5, l.tail + 15);
    t := CallRule(prog, s, t, Signed32(ToCleanup(l)), 5, m);
  }

  lemma ThroughCleanup(prog: Program, l: ReadySite, h: Registers, m0: Memory, s0: Cpu, s: Cpu, st: seq<u32>,
                       tib: seq<u32>)
    returns (t: Cpu)
    requires ValidSite(l) && CleanupListed(prog, l) && Reaches(prog, s0, s) && Held(m0, s.mem, s.fs, h, st, tib)
    requires s.eip == l.cleanup && s.r.esp == h.esp && s.r.ebp == h.ebp && Steady(h, s)
    ensures Reaches(prog, s0, t) && t.eip == l.unlock && t.fs == s.fs && Steady(h, t)
    ensures |st| == 22 && t.r.esp == h.esp - 8 && t.r.ebp == h.ebp
    ensures Held(m0, t.mem, t.fs, h, st[4 := 7][3 := l.cleanup + 7], tib)
  {
    hide Reaches, Run, Step, Store32, Load32, Held;
    HeldBounds(m0, s.mem, s.fs, h, st, tib);
    var m := HeldStore(m0, s.mem, s.fs, h, st, tib, 4, 7);
    t := PushRule(prog, s0, s, Imm(7), 2, 7, m);
    m := HeldStore(m0, t.mem, t.fs, h, st[4 := 7], tib, 3, l.cleanup + 7);
    t := CallRule(prog, s0, t, Signed32(ToUnlock(l)), 5, m);
  }

  /** Up to the indirect CALL: slot 7 of the lock table is the argument. */
  lemma ToApiCall(prog: Program, l: ReadySite, h: Registers, m0: Memory, s0: Cpu, s: Cpu, st: seq<u32>, tib: seq<u32>,
                  lock: u32) returns (t: Cpu)
    requires ValidSite(l) && UnlockListed(prog, l) && Reaches(prog, s0, s) && Held(m0, s.mem, s.fs, h, st, tib)
    requires s.eip == l.unlock && |st| == 22 && s.r.esp == h.esp - 8 && s.r.ebp == h.ebp && Steady(h, s) && st[4] == 7
    requires Load32(m0, l.table + 56) == Some(lock)
    requires Apart(l.table + 56, 4, h.esp - 20, 88) && Apart(l.table + 56, 4, s.fs, 28)
    ensures Reaches(prog, s0, t) && t.eip == l.unlock + 13 && t.fs == s.fs && Steady(h, t)
    ensures t.r.esp == h.esp - 16 && t.r.ebp == h.esp - 12 && t.r.eax == 7
    ensures Held(m0, t.mem, t.fs, h, st[2 := h.ebp][1 := lock], tib)
  {
    hide Reaches, Run, Step, Store32, Load32, Held;
    HeldBounds(m0, s.mem, s.fs, h, st, tib);
    var m := HeldStore(m0, s.mem, s.fs, h, st, tib, 2, h.ebp);
    t := PushRule(prog, s0, s, R32(EBP), 1, h.ebp, m);
    var st1 := st[2 := h.ebp];
    t := MovRule(prog, s0, t, EBP, R32(ESP), 2, h.esp - 12);
    HeldLoad(m0, t.mem, t.fs, h, st1, tib, 4);
    t := LoadRule(prog, s0, t, EAX, Based(EBP, 8), 3, 7);
    HeldElsewhere(m0, t.mem, t.fs, h, st1, tib, l.table + 56, lock);
    m := HeldStore(m0, t.mem, t.fs, h, st1, tib, 1, lock);
    assert Effective(t, Slot(l)) == l.table + 56;
    t := PushRule(prog, s0, t, Mem32(Slot(l)), 7, lock, m);
  }

  lemma EntersApi(prog: Program, l: ReadySite, h: Registers, m0: Memory, s: Cpu, st: seq<u32>, tib: seq<u32>, api: u32)
    returns (t: Cpu)
    requires ValidSite(l) && UnlockListed(prog, l) && Held(m0, s.mem, s.fs, h, st, tib)
    requires s.eip == l.unlock + 13 && s.r.esp == h.esp - 16
    requires Load32(m0, l.iat) == Some(api) && Apart(l.iat, 4, h.esp - 20, 88) && Apart(l.iat, 4, s.fs, 28)
    ensures Reaches(prog, s, t) && |st| == 22 && Held(m0, t.mem, t.fs, h, st[0 := l.unlock + 19], tib)
    ensures t == s.(eip := api, mem := t.mem, r := s.r.(esp := h.esp - 20, flags := Resume(s.r.flags)))
  {
    hide Reaches, Run, Step, Store32, Load32, Held;
    HeldBounds(m0, s.mem, s.fs, h, st, tib);
    Stay(prog, s);
    HeldElsewhere(m0, s.mem, s.fs, h, st, tib, l.iat, api);
    var m := HeldStore(m0, s.mem, s.fs, h, st, tib, 0, l.unlock + 19);
    t := CallToRule(prog, s, s, Import(l), 6, api, m);
  }

  /** The frame words at the entry of the API. */
  function StackAtApi(l: ReadySite, h: Registers, st: seq<u32>, lock: u32): seq<u32>
    requires |st| == 22 && ValidSite(l)
  {
    st[9 := l.buffer][15 := U32_MAX][5 := l.tail + 15][4 := 7][3 := l.cleanup + 7]
      [2 := h.ebp][1 := lock][0 := l.unlock + 19]
  }

  /** From the wrapper tail to the entry of LeaveCriticalSection: stops 1 and 2. */
  lemma ReadyToApi(code: Code, l: ReadySite, h: Registers, caller: Registers, s: Cpu, st: seq<u32>, tib: seq<u32>,
                   lock: u32, api: u32, length: u32) returns (s1: Cpu, s2: Cpu)
    requires Loaded(code, l.tail, TailBytes(l)) && Loaded(code, l.cleanup, CleanupBytes(l))
    requires Loaded(code, l.unlock, UnlockBytes(l))
    requires AtTail(l, h, s) && Held(s.mem, s.mem, s.fs, h, st, tib) && 3 <= length <= 126
    requires caller.esp == h.esp + 68 && caller.ebx == 0 && caller.esi == 0 && caller.edi == 24
    requires Load32(s.mem, l.table + 56) == Some(lock) && Load32(s.mem, l.iat) == Some(api)
    requires Apart(l.table + 56, 4, h.esp - 20, 88) && Apart(l.table + 56, 4, s.fs, 28)
    requires Apart(l.iat, 4, h.esp - 20, 88) && Apart(l.iat, 4, s.fs, 28)
    ensures Reaches(Disassembly(code), s, s1) && s1.eip == l.unlock + 13
    ensures Reaches(Disassembly(code), s1, s2) && s2.eip == api
    ensures ReadyFrame(1, h, caller, s1.r, l.buffer, length) && ReadyFrame(2, h, caller, s2.r, l.buffer, length)
    ensures |st| == 22 && Held(s.mem, s2.mem, s2.fs, h, StackAtApi(l, h, st, lock), tib)
  {
    hide Reaches, Run, Step, Store32, Load32, Held, Loaded, Disassembly, TailListed, CleanupListed, UnlockListed;
    var prog := Disassembly(code);
    HeldBounds(s.mem, s.mem, s.fs, h, st, tib);
    TailDecodes(code, l);
    CleanupDecodes(code, l);
    UnlockParts(code, l);
    UnlockDecodes(code, l);
    var t := ThroughTail(prog, l, h, s.mem, s, st, tib);
    var st1 := st[9 := l.buffer][15 := U32_MAX][5 := l.tail + 15];
    t := ThroughCleanup(prog, l, h, s.mem, s, t, st1, tib);
    st1 := st1[4 := 7][3 := l.cleanup + 7];
    s1 := ToApiCall(prog, l, h, s.mem, s, t, st1, tib, lock);
    st1 := st1[2 := h.ebp][1 := lock];
    s2 := EntersApi(prog, l, h, s.mem, s1, st1, tib, api);
  }

  // ---- Behind the API ------------------------------------------------------

  /** What the stdcall convention and the void API leave at its return. */
  predicate ApiReturned(l: ReadySite, h: Registers, s: Cpu) {
    && ValidSite(l) && s.eip == l.unlock + 19 && s.r.esp == h.esp - 12 && s.r.ebp == h.esp - 12 && Steady(h, s)
    && 65556 <= h.esp <= U32_MAX - 68 && h.esp % 4 == 0 && h.ebp == h.esp + 44 && !h.flags.tf && !h.flags.df
  }

  /** The frame words the wrapper and the prologue have left on the stack. */
  predicate FrameStack(l: ReadySite, h: Registers, caller: Registers, st: seq<u32>)
    requires |st| == 22
  {
    && st[2] == h.ebp && st[3] == l.cleanup + 7 && st[5] == l.tail + 15 && st[9] == l.buffer
    && st[6] == caller.edi && st[7] == caller.esi && st[8] == caller.ebx && st[16] == caller.ebp
    && st[17] == l.manager + 16 && st[20] == caller.edi
    && caller.esp == h.esp + 68 && caller.ebx == 0 && caller.esi == 0 && caller.edi == 24
  }

  lemma UnwindsUnlock(prog: Program, l: ReadySite, h: Registers, caller: Registers, m0: Memory, s: Cpu, st: seq<u32>,
                      tib: seq<u32>) returns (t: Cpu)
    requires UnlockListed(prog, l) && CleanupListed(prog, l)
    requires ApiReturned(l, h, s) && Held(m0, s.mem, s.fs, h, st, tib) && |st| == 22 && FrameStack(l, h, caller, st)
    ensures Reaches(prog, s, t) && t.eip == l.tail + 15 && t.fs == s.fs && t.mem == s.mem && Steady(h, t)
    ensures t.r.esp == h.esp + 4 && t.r.ebp == h.ebp
  {
    hide Reaches, Run, Step, Store32, Load32, Held;
    Stay(prog, s);
    HeldLoad(m0, s.mem, s.fs, h, st, tib, 2);
    t := PopRule(prog, s, s, EBP, h.ebp);
    HeldLoad(m0, t.mem, t.fs, h, st, tib, 3);
    t := RetRule(prog, s, t, l.cleanup + 7);
    HeldLoad(m0, t.mem, t.fs, h, st, tib, 4);
    t := PopRule(prog, s, t, ECX, st[4]);
    HeldLoad(m0, t.mem, t.fs, h, st, tib, 5);
    t := RetRule(prog, s, t, l.tail + 15);
  }

  /** Stop 4: the result reloaded, the epilogue entered. */
  lemma EntersEpilogue(prog: Program, l: ReadySite, h: Registers, caller: Registers, m0: Memory, s: Cpu, st: seq<u32>,
                       tib: seq<u32>) returns (t: Cpu)
    requires UnlockListed(prog, l) && CleanupListed(prog, l) && TailListed(prog, l)
    requires ApiReturned(l, h, s) && Held(m0, s.mem, s.fs, h, st, tib) && |st| == 22 && FrameStack(l, h, caller, st)
    ensures Reaches(prog, s, t) && t.eip == l.epilogue && t.fs == s.fs && Steady(h, t)
    ensures t.r.esp == h.esp && t.r.ebp == h.ebp && t.r.eax == l.buffer
    ensures Held(m0, t.mem, t.fs, h, st[5 := l.tail + 23], tib)
  {
    hide Reaches, Run, Step, Store32, Load32, Held;
    t := UnwindsUnlock(prog, l, h, caller, m0, s, st, tib);
    HeldLoad(m0, t.mem, t.fs, h, st, tib, 9);
    t := LoadRule(prog, s, t, EAX, Based(EBP, -28), 3, l.buffer);
    var m := HeldStore(m0, t.mem, t.fs, h, st, tib, 5, l.tail + 23);
    t := CallRule(prog, s, t, Signed32(ToEpilogue(l)), 5, m);
  }

  /** The first half of the epilogue: exception head and callee-saved registers. */
  lemma RestoresHead(prog: Program, l: ReadySite, h: Registers, caller: Registers, m0: Memory, s: Cpu, st: seq<u32>,
                     tib: seq<u32>) returns (t: Cpu)
    requires ValidSite(l) && EpilogueListed(prog, l.epilogue) && Held(m0, s.mem, s.fs, h, st, tib)
    requires s.eip == l.epilogue && s.r.esp == h.esp && s.r.ebp == h.ebp && h.ebp == h.esp + 44 && Steady(h, s)
    requires |st| == 22 && st[5] == l.tail + 23 && st[6] == caller.edi
    ensures Reaches(prog, s, t) && t.eip == l.epilogue + 12 && t.fs == s.fs && |tib| == 7
    ensures t.r == s.r.(esp := h.esp + 8, ecx := l.tail + 23, edi := caller.edi, flags := Resume(s.r.flags))
    ensures Held(m0, t.mem, t.fs, h, st, tib[0 := st[12]])
  {
    hide Reaches, Run, Step, Store32, Load32, Held;
    HeldBounds(m0, s.mem, s.fs, h, st, tib);
    Stay(prog, s);
    HeldLoad(m0, s.mem, s.fs, h, st, tib, 12);
    t := LoadRule(prog, s, s, ECX, Based(EBP, -16), 3, st[12]);
    var m := HeldStoreHead(m0, t.mem, t.fs, h, st, tib, st[12]);
    t := StoreRule(prog, s, t, TibHead(), R32(ECX), 7, st[12], m);
    var tib1 := tib[0 := st[12]];
    HeldLoad(m0, t.mem, t.fs, h, st, tib1, 5);
    t := PopRule(prog, s, t, ECX, l.tail + 23);
    HeldLoad(m0, t.mem, t.fs, h, st, tib1, 6);
    t := PopRule(prog, s, t, EDI, caller.edi);
  }

  /** The second half: ESI, EBX, the frame, the return. */
  lemma LeavesFrame(prog: Program, l: ReadySite, h: Registers, caller: Registers, m0: Memory, s0: Cpu, s: Cpu,
                    st: seq<u32>, tib: seq<u32>) returns (t: Cpu)
    requires ValidSite(l) && EpilogueListed(prog, l.epilogue) && Held(m0, s.mem, s.fs, h, st, tib)
    requires Reaches(prog, s0, s) && s.eip == l.epilogue + 12
    requires s.r.esp == h.esp + 8 && s.r.ebp == h.ebp && h.ebp == h.esp + 44 && s.r.ecx == l.tail + 23
    requires |st| == 22 && st[7] == caller.esi && st[8] == caller.ebx && st[16] == caller.ebp
    ensures Reaches(prog, s0, t) && t.eip == l.tail + 23 && t.fs == s.fs && h.esp <= U32_MAX - 68
    ensures t.r == s.r.(esp := h.esp + 48, esi := caller.esi, ebx := caller.ebx, ebp := caller.ebp,
                        flags := Resume(s.r.flags))
    ensures Held(m0, t.mem, t.fs, h, st[16 := l.tail + 23], tib)
  {
    hide Reaches, Run, Step, Store32, Load32, Held;
    HeldBounds(m0, s.mem, s.fs, h, st, tib);
    HeldLoad(m0, s.mem, s.fs, h, st, tib, 7);
    t := PopRule(prog, s0, s, ESI, caller.esi);
    HeldLoad(m0, t.mem, t.fs, h, st, tib, 8);
    t := PopRule(prog, s0, t, EBX, caller.ebx);
    HeldLoad(m0, t.mem, t.fs, h, st, tib, 16);
    t := LeaveRule(prog, s0, t, caller.ebp);
    var m := HeldStore(m0, t.mem, t.fs, h, st, tib, 16, l.tail + 23);
    t := PushRule(prog, s0, t, R32(ECX), 1, l.tail + 23, m);
    HeldLoad(m0, t.mem, t.fs, h, st[16 := l.tail + 23], tib, 16);
    t := RetRule(prog, s0, t, l.tail + 23);
  }

  /** Stops 3 to 6: after the API, the frame is gone, the previous exception head is
      back in the thread block, and every callee-saved register is the caller's. */
  lemma FrameRemoved(code: Code, l: ReadySite, h: Registers, caller: Registers, m0: Memory, s: Cpu, st: seq<u32>,
                     tib: seq<u32>, length: u32) returns (s4: Cpu, s5: Cpu, s6: Cpu)
    requires Loaded(code, l.tail, TailBytes(l)) && Loaded(code, l.cleanup, CleanupBytes(l))
    requires Loaded(code, l.unlock, UnlockBytes(l))
    requires Loaded(code, l.epilogue, [0x8b, 0x4d, 0xf0] + RESTORE_HEAD + EPILOGUE_POPS)
    requires ApiReturned(l, h, s) && Held(m0, s.mem, s.fs, h, st, tib) && |st| == 22 && |tib| == 7
    requires FrameStack(l, h, caller, st) && 3 <= length <= 126
    ensures ReadyFrame(3, h, caller, s.r, l.buffer, length)
    ensures Reaches(Disassembly(code), s, s4) && s4.eip == l.epilogue
            && ReadyFrame(4, h, caller, s4.r, l.buffer, length)
    ensures Reaches(Disassembly(code), s4, s5) && s5.eip == l.tail + 23
            && ReadyFrame(5, h, caller, s5.r, l.buffer, length)
    ensures Reaches(Disassembly(code), s5, s6) && s6.eip == l.manager + 16
            && ReadyFrame(6, h, caller, s6.r, l.buffer, length)
    ensures s6.fs == s.fs && Held(m0, s6.mem, s6.fs, h, st[5 := l.tail + 23][16 := l.tail + 23], tib[0 := st[12]])
  {
    hide Reaches, Run, Step, Store32, Load32, Held, Loaded, Disassembly, TailListed, CleanupListed, UnlockListed,
         EpilogueListed, And, Or;
    var prog := Disassembly(code);
    TailDecodes(code, l);
    CleanupDecodes(code, l);
    UnlockParts(code, l);
    UnlockDecodes(code, l);
    EpilogueDecodes(code, l.epilogue);
    s4 := EntersEpilogue(prog, l, h, caller, m0, s, st, tib);
    var st1 := st[5 := l.tail + 23];
    var t := RestoresHead(prog, l, h, caller, m0, s4, st1, tib);
    s5 := LeavesFrame(prog, l, h, caller, m0, s4, t, st1, tib[0 := st[12]]);
    s6 := WrapperReturns(prog, l, h, m0, s5, st1[16 := l.tail + 23], tib[0 := st[12]]);
  }

  lemma WrapperReturns(prog: Program, l: ReadySite, h: Registers, m0: Memory, s: Cpu, st: seq<u32>, tib: seq<u32>)
    returns (t: Cpu)
    requires TailListed(prog, l) && s.eip == l.tail + 23 && Held(m0, s.mem, s.fs, h, st, tib)
    requires h.esp <= U32_MAX - 68 && s.r.esp == h.esp + 48 && |st| == 22 && st[17] == l.manager + 16
    ensures Reaches(prog, s, t)
    ensures t == s.(eip := l.manager + 16, r := s.r.(esp := h.esp + 52, flags := Resume(s.r.flags)))
  {
    hide Reaches, Run, Step, Store32, Load32, Held;
    Stay(prog, s);
    HeldLoad(m0, s.mem, s.fs, h, st, tib, 17);
    t := RetRule(prog, s, s, l.manager + 16);
  }
}
