// What the suppression transaction promises on a port that works, and why its
// replacement is the right one: it is the state behind the CALL of a four-argument
// stdcall function that returns zero.

module SuppressedCall {
  import opened Words
  import opened X86
  import opened X86Rules
  import opened SuppressionSpec
  import opened SuppressionRuns

  // ---- The precondition ---------------------------------------------------------

  /** The thread stands on its CALL, with an aligned stack with room for four arguments,
      neither trap nor direction flag, and the debug registers of the CALL's own event:
      the first three breakpoints enabled, two of them on execution, one on a dword write. */
  ghost predicate StandsAtCall(c: Context, call: u32) {
    && 0 < call && call + 6 <= U32_MAX && c.eip == call && c.dr0 == call && c.dr6 == 1
    && 4096 <= c.esp && c.esp + 16 <= U32_MAX && (exists q: nat :: c.esp == 4 * q)
    && !Bit(c.flags, 8) && !Bit(c.flags, 10)
    && c.dr7 % 256 == 0x15 && !Bit(c.dr7, 13) && c.dr7 / 0x1_0000 == 0xd0
  }

  lemma {:induction false} OneBit(n: nat, k: nat)
    ensures Bit(Pow2(n), k) <==> k == n
  {
    if n == 0 {
      if k > 0 { ZeroHasNoBits(k - 1); }
    } else if k > 0 {
      OneBit(n - 1, k - 1);
      Doubled(Pow2(n - 1), 0);
    }
  }

  /** A conjunction with one bit is that bit. */
  lemma {:induction false} MaskOne(y: nat, n: nat)
    ensures And(y, Pow2(n)) == if Bit(y, n) then Pow2(n) else 0
  {
    if n == 0 {
      AndNothing(y / 2);
    } else {
      MaskOne(y / 2, n - 1);
      assert Pow2(n) % 2 == 0 && Pow2(n) / 2 == Pow2(n - 1);
    }
  }

  /** The bits behind the low byte. */
  lemma ShiftedByte(x: nat, k: nat)
    ensures Bit(x, 8 + k) == Bit(x / 256, k)
  {
    BitShift4(x, k + 4);
    BitShift4(x / 16, k);
    Nibbles(x);
    hide Bit;
  }

  /** The mask 0x500 looks at the trap and the direction flag. */
  lemma TrapAndDirection(flags: u32)
    ensures And(flags, 0x500) == 0 <==> !Bit(flags, 8) && !Bit(flags, 10)
  {
    AndSplit8(flags, 0, 5);
    AndNothing(flags % 256);
    HighFive(flags / 256);
    ShiftedByte(flags, 0);
    ShiftedByte(flags, 2);
    hide And, Bit;
  }

  lemma HighFive(h: nat)
    ensures And(h, 5) == 0 <==> !Bit(h, 0) && !Bit(h, 2)
  {
    MaskOne(h / 2 / 2, 0);
    assert And(h, 5) == h % 2 + 2 * And(h / 2, 2);
    assert And(h / 2, 2) == 2 * And(h / 2 / 2, 1);
    assert Bit(h, 2) == Bit(h / 2, 1) == Bit(h / 2 / 2, 0);
  }

  /** The mask of DR7 covers the enable byte, the detect bit and the fields of the four
      breakpoints. */
  lemma BreakpointsSet(dr7: u32)
    ensures And(dr7, 0xffff_20ff) == 0x00d0_0015 <==> dr7 % 256 == 0x15 && !Bit(dr7, 13) && dr7 / 0x1_0000 == 0xd0
  {
    hide And, Bit, Pow2, LowBits;
    assert Pow2(16) == 0x1_0000 by { Pow2Values(); }
    assert Pow2(5) == 32 by { PowerOfFive(); }
    var h := dr7 / 256;
    AndSplit8(dr7, 0xff, 0xffff20);
    AndFf(dr7 % 256);
    AndSplit8(h, 0x20, 0xffff);
    MaskOne(h % 256, 5);
    AndLowMask(h / 256, 16);
    LowAll(h / 256, 16);
    LowEight(h, 5);
    ShiftedByte(dr7, 5);
    assert h / 256 == dr7 / 0x1_0000;
    SumOfFields(dr7 % 256, if Bit(h, 5) then 32 else 0, dr7 / 0x1_0000);
  }

  lemma PowerOfFive()
    ensures Pow2(5) == 32
  {
    assert Pow2(1) == 2 && Pow2(2) == 4 && Pow2(3) == 8 && Pow2(4) == 16;
  }

  lemma SumOfFields(low: nat, mid: nat, high: nat)
    requires low < 256 && (mid == 0 || mid == 32)
    ensures low + 256 * (mid + 256 * high) == 0x00d0_0015 <==> low == 0x15 && mid == 0 && high == 0xd0
  {}

  lemma {:induction false} LowAll(x: nat, n: nat)
    requires x < Pow2(n)
    ensures LowBits(x, n) == x
  {
    if n > 0 { LowAll(x / 2, n - 1); }
  }

  /** The low byte keeps its bits. */
  lemma LowEight(x: nat, k: nat)
    requires k < 8
    ensures Bit(x % 256, k) == Bit(x, k)
  {
    hide And, Bit;
    AndBit(x, 0xff, k);
    AndFf(x);
    OnesBelow(8, k);
    assert Pow2(8) == 256 by { Pow2Values(); }
  }

  lemma {:induction false} OnesBelow(n: nat, k: nat)
    requires k < n
    ensures Bit(Pow2(n) - 1, k)
  {
    assert (Pow2(n) - 1) % 2 == 1 && (Pow2(n) - 1) / 2 == Pow2(n - 1) - 1;
    if k > 0 { OnesBelow(n - 1, k - 1); }
  }

  lemma AtCallMeans(c: Context, call: u32)
    ensures AtCall(c, call) <==> StandsAtCall(c, call)
  {
    hide And, Bit;
    TrapAndDirection(c.flags);
    BreakpointsSet(c.dr7);
    if c.esp % 4 == 0 { assert c.esp == 4 * (c.esp / 4); }
  }

  // ---- The replacement --------------------------------------------------------------

  /** A context shows a processor: the nine registers and the flags the model names. */
  predicate Shows(c: Context, eip: u32, r: Registers) {
    && c.eip == eip && c.esp == r.esp && c.eax == r.eax && c.ebx == r.ebx && c.ecx == r.ecx && c.edx == r.edx
    && c.esi == r.esi && c.edi == r.edi && c.ebp == r.ebp
    && r.flags.cf == Bit(c.flags, 0) && r.flags.pf == Bit(c.flags, 2) && r.flags.zf == Bit(c.flags, 6)
    && r.flags.sf == Bit(c.flags, 7) && r.flags.tf == Bit(c.flags, 8) && r.flags.df == Bit(c.flags, 10)
    && r.flags.of == Bit(c.flags, 11) && r.flags.rf == Bit(c.flags, 16)
    && (r.flags.af.Some? ==> r.flags.af.value == Bit(c.flags, 4))
  }

  /** A stdcall function of n argument bytes, entered in s, has returned zero in t: behind
      its CALL, the arguments popped, every other register and the flags as they were. */
  predicate ReturnsZero(s: Cpu, t: Cpu, n: nat) {
    && Load32(s.mem, s.r.esp) == Some(t.eip) && t.mem == s.mem && t.fs == s.fs
    && t.r == s.r.(eax := 0, esp := Wrap(s.r.esp + 4 + n))
  }

  lemma ClearsResume(flags: u32, k: nat)
    requires k < 32
    ensures Bit(And(flags, Not(0x1_0000)), k) <==> Bit(flags, k) && k != 16
  {
    AndBit(flags, Not(0x1_0000), k);
    NotBit(0x1_0000, k);
    OneBit(16, k);
    assert Pow2(16) == 0x1_0000 by { Pow2Values(); }
  }

  /** Executing the CALL and any four-argument function that returns zero leads exactly to
      the replacement, with the first breakpoint moved along and the event bits cleared;
      only the word of the return address below the stack is written. */
  lemma ReplacementIsReturn(prog: Program, s: Cpu, a: Addr, f: u32, m: Memory, t: Cpu, c: Context)
    requires AtCall(c, s.eip) && Shows(c, s.eip, s.r) && Lists(prog, s.eip, CallTo(Mem32(a)), 6)
    requires Load32(s.mem, Effective(s, a)) == Some(f) && Store32(s.mem, s.r.esp - 4, s.eip + 6) == Some(m)
    requires ReturnsZero(Cpu(f, s.r.(esp := s.r.esp - 4, flags := Resume(s.r.flags)), s.fs, m), t, 16)
    ensures Reaches(prog, s, Cpu(f, s.r.(esp := s.r.esp - 4, flags := Resume(s.r.flags)), s.fs, m))
    ensures t.eip == s.eip + 6 && Shows(Replacement(c, s.eip), t.eip, t.r)
    ensures var r := Replacement(c, s.eip);
            && r.dr0 == s.eip + 6 && r.dr6 == 0 && r.dr1 == c.dr1 && r.dr2 == c.dr2 && r.dr3 == c.dr3
            && r.dr7 == c.dr7 && r.segments == c.segments
    ensures forall k :: 0 <= k < 32 ==> (Bit(Replacement(c, s.eip).flags, k) <==> Bit(c.flags, k) && k != 16)
  {
    hide And, Bit, Reaches, Store32, ByteOf;
    forall k: nat | k < 32
      ensures Bit(Replacement(c, s.eip).flags, k) <==> Bit(c.flags, k) && k != 16
    {
      ClearsResume(c.flags, k);
    }
    Stay(prog, s);
    var u := CallToRule(prog, s, s, a, 6, f, m);
    ReturnAddress(s.mem, m, s.r.esp - 4, s.eip + 6);
  }

  lemma ReturnAddress(m: Memory, m': Memory, at: int, v: u32)
    requires Store32(m, at, v) == Some(m') && 0 <= at < M32 - 3
    ensures Load32(m', at) == Some(v)
  {
    hide ByteOf;
    var e := Effect32(m, at, v);
    LoadStored(m', at, v);
  }

  // ---- On a port that works ------------------------------------------------------------

  /** An apply succeeds exactly on a fresh transaction, with the thread read as expected at
      its CALL, and the replacement written and read back. */
  lemma ApplySucceedsExactly(o: Oracle, w: World, c: Context, call: u32)
    ensures OnApply(o, w, c, call).1 <==>
              && !w.txn.writeAttempted && !w.txn.restoreAttempted && w.txn.failure == NoFailure
              && StandsAtCall(c, call) && o(w.tick).ok && w.thread == c
              && o(w.tick + 1).ok && o(w.tick + 2).ok
              && o(w.tick + 1).thread == Replacement(c, call)
    ensures OnApply(o, w, c, call).1 ==>
              OnApply(o, w, c, call).0 ==
              World(w.txn.(original := Some(c), replacement := Some(Replacement(c, call)), writeAttempted := true,
                           applied := true), Replacement(c, call), w.tick + 3, w.asked + [Replacement(c, call)])
  {
    AtCallMeans(c, call);
    hide AtCall, StandsAtCall, Replacement, OnRestore;
  }

  /** Otherwise the failure tells the first thing that went wrong. */
  lemma ApplyTellsWhy(o: Oracle, w: World, c: Context, call: u32)
    requires !w.txn.writeAttempted && !w.txn.restoreAttempted && w.txn.failure == NoFailure
    ensures OnApply(o, w, c, call).0.txn.failure ==
              if !StandsAtCall(c, call) then Precondition
              else if !o(w.tick).ok then InitialRead
              else if w.thread != c then StaleContext
              else if !o(w.tick + 1).ok then WriteFailed
              else if !o(w.tick + 2).ok then ReadbackFailed
              else if o(w.tick + 1).thread != Replacement(c, call) then ReadbackMismatch
              else NoFailure
  {
    AtCallMeans(c, call);
    forall u: World ensures OnRestore(o, u).0.txn.failure == u.txn.failure { RestoreKeepsFailure(o, u); }
    hide AtCall, StandsAtCall, Replacement, OnRestore;
  }

  lemma RestoreKeepsFailure(o: Oracle, w: World)
    ensures OnRestore(o, w).0.txn.failure == w.txn.failure
  {}

  /** A restore succeeds exactly once after a write, when the original without its event
      bits is written and read back. */
  lemma RestoreSucceedsExactly(o: Oracle, w: World)
    requires Consistent(w)
    ensures OnRestore(o, w).1 <==>
              && w.txn.writeAttempted && !w.txn.restoreAttempted && o(w.tick).ok && o(w.tick + 1).ok
              && w.txn.original.Some? && o(w.tick).thread == w.txn.original.value.(dr6 := 0)
    ensures w.txn.writeAttempted && !w.txn.restoreAttempted ==>
              OnRestore(o, w).0.txn == w.txn.(restoreAttempted := true, restored := OnRestore(o, w).1)
    ensures !w.txn.writeAttempted || w.txn.restoreAttempted ==> OnRestore(o, w).0 == w
  {}
}
