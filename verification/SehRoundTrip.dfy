// The prologue and the epilogue cancel: the whole wrapper call leaves the
// thread block, the stack pointer and the callee-saved registers as they were.

module SehRoundTrip {
  import opened Words
  import opened X86
  import opened CwdSeh
  import opened FileManagerCode
  import opened FileManagerReady

  /** The frame words of the prologue, still in place when the API returns. */
  predicate FrameIntact(now: seq<u32>, st: seq<u32>)
    requires |now| == 20 && |st| == 22
  {
    st[6] == now[3] && st[7] == now[4] && st[8] == now[5] && st[12] == now[9] && st[16] == now[13] && st[17] == now[14]
  }

  /** For every origin the prologue admits, and whatever ran in between as long as it
      left the frame words and the head: the epilogue returns behind the CALL of the
      wrapper with ESP, EBX, ESI, EDI, EBP and all seven thread-block words restored. */
  lemma WrapperBalanced(code: Code, c: CwdSehSpec, l: ReadySite, origin: Registers, stack: seq<u32>, tib: seq<u32>,
                        now: seq<u32>, h: Registers, caller: Registers, s: Cpu, st: seq<u32>, len: nat) returns (t: Cpu)
    requires ValidSeh(c) && |stack| == 20 && |tib| == 7 && |now| == 20 && |st| == 22
    requires 65556 + 52 <= origin.esp && origin.ebx == 0 && origin.esi == 0 && origin.edi == 24
    requires SehMemory(c, 3, origin, tib, tib[0 := origin.esp - 24], stack, now)
    requires OuterReturn(c) == l.manager + 16 && l.manager < M32 - 51
    requires h.esp == origin.esp - 52 && caller == origin.(esp := Wrap(origin.esp + 16))
    requires Loaded(code, l.tail, TailBytes(l)) && Loaded(code, l.cleanup, CleanupBytes(l))
    requires Loaded(code, l.unlock, UnlockBytes(l))
    requires Loaded(code, l.epilogue, [0x8b, 0x4d, 0xf0] + RESTORE_HEAD + EPILOGUE_POPS)
    requires ApiReturned(l, h, s) && Held(s.mem, s.mem, s.fs, h, st, tib[0 := origin.esp - 24])
    requires FrameIntact(now, st) && st[20] == origin.edi && 3 <= len <= 126
    requires st[2] == h.ebp && st[3] == l.cleanup + 7 && st[5] == l.tail + 15 && st[9] == l.buffer
    ensures Reaches(Disassembly(code), s, t) && t.eip == OuterReturn(c) && t.r.eax == l.buffer
    ensures t.r.esp == origin.esp && t.r.ebx == origin.ebx && t.r.esi == origin.esi
    ensures t.r.edi == origin.edi && t.r.ebp == origin.ebp
    ensures t.fs == s.fs && Held(s.mem, t.mem, t.fs, h, st[5 := l.tail + 23][16 := l.tail + 23], tib)
  {
    hide Reaches, Held, Loaded, Disassembly, And, Or;
    assert FrameStack(l, h, caller, st);
    var s4, s5, s6 := FrameRemoved(code, l, h, caller, s.mem, s, st, tib[0 := origin.esp - 24], len);
    Chain(Disassembly(code), s, s4, s5);
    Chain(Disassembly(code), s, s5, s6);
    t := s6;
    assert tib[0 := origin.esp - 24][0 := st[12]] == tib;
  }
}
