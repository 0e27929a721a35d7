// What a stop's register predicate lets through: beside a sample that it accepts - and
// the executions meet it at every stop - exactly the samples that agree with it in the
// checked registers and flags. So each predicate pins those registers, and no others.

module StopSamples {
  import opened Words
  import opened X86
  import opened Extents
  import opened FrameTarget
  import opened CwdCopyFrame
  import opened CwdSeh
  import opened FileManagerReady
  import opened CdStreamAllocation
  import opened ApplicationRouting

  const ALL: set<Reg> := {EAX, ECX, EDX, EBX, ESP, EBP, ESI, EDI}

  predicate Agree(regs: set<Reg>, q: Registers, r: Registers) { forall n :: n in regs ==> Get(q, n) == Get(r, n) }

  /** The status flags CF, PF, ZF, SF and OF; AF is compared on its own. */
  predicate SameStatus(f: Flags, g: Flags) {
    f.cf == g.cf && f.pf == g.pf && f.zf == g.zf && f.sf == g.sf && f.of == g.of
  }

  /** No single-step trap, and string instructions ascend. */
  predicate Straight(f: Flags) { !f.tf && !f.df }

  // ---- cwd_copy_frame ------------------------------------------------------

  predicate CopySample(stage: nat, q: Registers, r: Registers) {
    && Agree(if stage == 5 then {EAX, EBX, ESP, EBP, ESI, EDI} else ALL, q, r)
    && SameControl(q.flags, r.flags)
    && (stage != 5 ==> SameStatus(q.flags, r.flags))
    && (2 <= stage <= 4 ==> q.flags.af == r.flags.af)
  }

  lemma CopySamples(stage: nat, h: Registers, a: Registers, r: Registers, source: u32, destination: u32, length: u32,
                    q: Registers)
    requires CopyFrame(stage, h, a, r, source, destination, length)
    ensures CopyFrame(stage, h, a, q, source, destination, length) <==> CopySample(stage, q, r)
  {
    hide EvenParity;
    Named(q, r);
  }

  /** Agreement, register by register. */
  lemma Named(q: Registers, r: Registers)
    ensures Agree({EAX, EBX, ESP, EBP, ESI, EDI}, q, r) <==>
            q.eax == r.eax && q.ebx == r.ebx && q.esp == r.esp && q.ebp == r.ebp && q.esi == r.esi && q.edi == r.edi
    ensures Agree(ALL, q, r) <==> q == r.(flags := q.flags)
    ensures Agree({EBX, ESP, EBP, ESI, EDI}, q, r) <==>
            q.ebx == r.ebx && q.esp == r.esp && q.ebp == r.ebp && q.esi == r.esi && q.edi == r.edi
  {
    if Agree({EAX, EBX, ESP, EBP, ESI, EDI}, q, r) {
      assert Get(q, EAX) == Get(r, EAX) && Get(q, EBX) == Get(r, EBX) && Get(q, ESP) == Get(r, ESP);
      assert Get(q, EBP) == Get(r, EBP) && Get(q, ESI) == Get(r, ESI) && Get(q, EDI) == Get(r, EDI);
    }
    if Agree({EBX, ESP, EBP, ESI, EDI}, q, r) {
      assert Get(q, EBX) == Get(r, EBX) && Get(q, ESP) == Get(r, ESP) && Get(q, EBP) == Get(r, EBP);
      assert Get(q, ESI) == Get(r, ESI) && Get(q, EDI) == Get(r, EDI);
    }
    if Agree(ALL, q, r) {
      assert Get(q, EAX) == Get(r, EAX) && Get(q, ECX) == Get(r, ECX) && Get(q, EDX) == Get(r, EDX);
      assert Get(q, EBX) == Get(r, EBX) && Get(q, ESP) == Get(r, ESP) && Get(q, EBP) == Get(r, EBP);
      assert Get(q, ESI) == Get(r, ESI) && Get(q, EDI) == Get(r, EDI);
    }
  }

  /** The copy is admitted from exactly these states: the source is the helper's own buffer,
      and no byte belongs to it and to the destination. */
  lemma CopyAdmits(h: Registers, a: Registers, source: u32, destination: u32, length: u32)
    ensures Admitted(h, a, source, destination, length) <==>
            && In(length, 3, 126)
            && In(h.esp, 65840, 0xffff_ffb7) && h.esp % 4 == 0 && h.ebp - h.esp == 44
            && h.esp - source == 284 && In(destination, 1, 0xffff_ff7f)
            && Foreign(source, 260, destination, 128)
            && a.esp + 4 == source && a.ebp == h.ebp - 60 && a.eax == length
            && a.ebx == a.esi == 0 && a.edi == 24 && Straight(a.flags)
  {
    ForeignIs(source, 260, destination, 128);
  }

  /** The n bytes before the first NUL of s. */
  predicate StringOf(s: seq<byte>, n: nat) { n < |s| && s[n] == 0 && 0 !in s[..n] }

  /** The copy puts the string and its NUL behind the four guard bytes, and nothing else. */
  lemma CopyBufferMeans(before: seq<byte>, after: seq<byte>, source: seq<byte>, length: nat)
    requires |before| == 136 && |after| == 136 && |source| == 260
    ensures BufferMatches(before, after, source, length, true) <==>
            In(length, 3, 126) && StringOf(source, length) &&
            after == before[..4] + source[..length + 1] + before[length + 5..]
    ensures BufferMatches(before, after, source, length, false) <==>
            In(length, 3, 126) && StringOf(source, length) && after == before
  {
    if In(length, 3, 126) {
      var put := before[..4] + source[..length + 1] + before[length + 5..];
      forall i | 0 <= i < 136 ensures put[i] == Expected(before, source, length, true, i) {}
      assert 0 in source[..length] ==> exists k :: 0 <= k < length && source[k] == 0;
      if k :| 0 <= k < length && source[k] == 0 { assert source[..length][k] == 0; }
    }
  }

  /** Finishing a directory replaces its NUL by a backslash and a new NUL. */
  lemma ReadyBufferMeans(before: seq<byte>, now: seq<byte>, length: nat)
    requires |before| == 136 && |now| == 136
    ensures ReadyBuffer(before, now, length, true) <==>
            In(length, 3, 126) && StringOf(before[4..], length) &&
            now == before[..length + 4] + [0x5c, 0] + before[length + 6..]
    ensures ReadyBuffer(before, now, length, false) <==>
            In(length, 3, 126) && StringOf(before[4..], length) && now == before
  {
    if In(length, 3, 126) {
      var dir := before[4..];
      assert before[length + 4 := 0x5c][length + 5 := 0] == before[..length + 4] + [0x5c, 0] + before[length + 6..];
      if 0 in dir[..length] {
        var k :| 0 <= k < length && dir[..length][k] == 0;
        assert before[k + 4] == 0;
      }
      if i :| 4 <= i < length + 4 && before[i] == 0 { assert dir[..length][i - 4] == 0; }
    }
  }

  // ---- cwd_seh_frame -------------------------------------------------------

  /** Everything but the resume flag. */
  predicate SehSample(q: Registers, r: Registers) { Agree(ALL, q, r) && q.flags == r.flags.(rf := q.flags.rf) }

  lemma SehSamples(s: CwdSehSpec, stage: nat, saved: Registers, r: Registers, q: Registers)
    requires SehFrame(s, stage, saved, r)
    ensures SehFrame(s, stage, saved, q) <==> SehSample(q, r)
  {
    hide EvenParity, ValidFrameTarget;
    Named(q, r);
  }

  /** The prologue is admitted behind its call from exactly these states. */
  lemma SehAdmits(s: CwdSehSpec, saved: Registers)
    ensures In(saved.esp, 65596, 0xffff_ffeb) ==>
            (SehFrame(s, 1, saved, saved.(esp := saved.esp - 4)) <==>
             ValidFrameTarget(s.wrapper) && saved.esp % 4 == 0 && Straight(saved.flags) &&
             saved.eax == saved.ebx == saved.esi == 0 && saved.edi == 24)
    ensures forall stage: nat, r :: SehFrame(s, stage, saved, r) ==>
              In(stage, 1, 3) && In(saved.esp, 65596, 0xffff_ffeb) && saved.esp % 4 == 0 && Straight(saved.flags)
  {
    hide EvenParity, ValidFrameTarget;
  }

  /** The thread block: exception head, stack base and limit, and its own address. */
  lemma OriginMeans(saved: Registers, tib: seq<u32>)
    requires |tib| == 7
    ensures ValidOrigin(saved, tib) <==>
            && In(saved.esp, 65596, 0xffff_ffeb) && saved.esp % 4 == 0
            && 65536 <= tib[2] < tib[1] && Lies(saved.esp - 60, 80, tib[2], tib[1] - 1)
            && In(tib[6], 65536, 0xffff_ffc7)
            && (tib[0] == 0xffff_ffff || (tib[0] % 4 == 0 && Lies(tib[0], 8, saved.esp + 20, tib[1] - 1)))
  {
    var base: int, head: int := tib[1], tib[0];
    LiesIs(saved.esp - 60, 80, tib[2], base - 1);
    LiesIs(head, 8, saved.esp + 20, base - 1);
  }

  // ---- file_manager_ready_frame ----------------------------------------------

  predicate ReadySample(stage: nat, q: Registers, r: Registers) {
    && Agree(if stage == 3 then {EBX, ESP, EBP, ESI, EDI} else {EAX, EBX, ESP, EBP, ESI, EDI}, q, r)
    && SameControl(q.flags, r.flags)
  }

  lemma ReadySamples(stage: nat, h: Registers, caller: Registers, r: Registers, destination: u32, length: u32,
                     q: Registers)
    requires ReadyFrame(stage, h, caller, r, destination, length)
    ensures ReadyFrame(stage, h, caller, q, destination, length) <==> ReadySample(stage, q, r)
  {
    hide Words.And, Words.Or;
    Named(q, r);
  }

  /** The helper's registers, the caller's and the directory that any stop's sample is
      accepted for. */
  lemma ReadyAdmits(h: Registers, caller: Registers, destination: u32, length: u32)
    ensures (exists r: Registers :: ReadyFrame(1, h, caller, r, destination, length)) <==>
            && In(h.esp, 65556, 0xffff_ffbb) && h.esp % 4 == 0 && h.ebp - h.esp == 44 && Straight(h.flags)
            && caller.esp - h.esp == 68 && caller.ebx == caller.esi == 0 && caller.edi == 24
            && In(destination, 1, 0xffff_ff7f) && In(length, 3, 126)
  {
    hide Words.And, Words.Or;
    if In(h.esp, 65556, 0xffff_ffbb) && h.esp % 4 == 0 && h.ebp - h.esp == 44 && Straight(h.flags) &&
       caller.esp - h.esp == 68 && caller.ebx == caller.esi == 0 && caller.edi == 24 &&
       In(destination, 1, 0xffff_ff7f) && In(length, 3, 126) {
      var r := h.(esp := h.esp - 16, ebp := h.esp - 12, eax := 7, ebx := 0, esi := 0, edi := 24);
      assert ReadyFrame(1, h, caller, r, destination, length);
    }
  }

  // ---- cd_stream_allocation_frame ----------------------------------------------

  predicate AllocationSample(stage: nat, q: Registers, r: Registers) {
    && Agree(if stage == 7 then {EBX, ESP, EBP, ESI, EDI} else ALL, q, r)
    && Straight(q.flags)
    && (stage == 1 ==> q.flags == r.flags.(rf := q.flags.rf))
    && (stage >= 8 ==> SameStatus(q.flags, r.flags))
    && (stage >= 9 ==> SameControl(q.flags, r.flags))
  }

  lemma AllocationSamples(stage: nat, c: Registers, r: Registers, a: u32, b: AllocationLayout, back: Registers,
                          q: Registers)
    requires AllocationFrame(stage, c, r, a, b, back)
    ensures AllocationFrame(stage, c, q, a, b, back) <==> AllocationSample(stage, q, r)
  {
    hide EvenParity, AlignmentValid;
    Named(q, r);
  }

  /** The routine is entered with the caller's registers, a word-aligned stack with room
      below, and one of the eight alignments. */
  lemma AllocationAdmits(c: Registers, r: Registers, a: u32, b: AllocationLayout, back: Registers)
    ensures AllocationFrame(1, c, r, a, b, back) <==>
            && In(c.esp, 65700, 0xffff_ffff) && c.esp % 4 == 0 && Straight(c.flags)
            && a in {512, 1024, 2048, 4096, 8192, 16384, 32768, 65536}
            && SehSample(r, c.(esp := c.esp - 4))
  {
    AlignmentMeans(a);
    hide AlignmentValid;
    if c.esp >= 4 { Named(r, c.(esp := c.esp - 4)); }
  }

  lemma AlignmentMeans(a: u32)
    ensures AlignmentValid(a) <==> a in {512, 1024, 2048, 4096, 8192, 16384, 32768, 65536}
  {
    hide *;
    PowersOfTwo();
    if a in {512, 1024, 2048, 4096, 8192, 16384, 32768, 65536} {
      var k: nat :| 9 <= k <= 16 && a == Pow2(k);
      AlignmentOf(a, k);
    }
    if AlignmentValid(a) { var k := AlignmentIsPower(a); }
  }

  lemma PowersOfTwo()
    ensures Pow2(9) == 512 && Pow2(10) == 1024 && Pow2(11) == 2048 && Pow2(12) == 4096
    ensures Pow2(13) == 8192 && Pow2(14) == 16384 && Pow2(15) == 32768 && Pow2(16) == 65536
  {
    Pow2Values();
    assert Pow2(12) == 8 * Pow2(9);
    assert Pow2(16) == 16 * Pow2(12);
  }

  lemma AlignmentOf(a: u32, k: nat)
    requires 512 <= a <= 65536 && a == Pow2(k)
    ensures AlignmentValid(a)
  {
    hide Pow2, LowBits;
    AndLowMask(a, k);
    NothingBelow(k);
    hide Words.And;
  }

  /** A power of two has no bits below its own. */
  lemma {:induction false} NothingBelow(k: nat)
    ensures LowBits(Pow2(k), k) == 0
  {
    if k > 0 { NothingBelow(k - 1); }
  }

  // ---- application_routing_frame -----------------------------------------------

  lemma RoutingSamples(s: RoutingSpec, stage: nat, saved: Registers, r: Registers, stack: seq<u32>, q: Registers,
                       other: seq<u32>)
    requires LayoutValid(s) && RoutingFrame(s, stage, saved, r, stack)
    ensures RoutingFrame(s, stage, saved, q, other) <==> Agree(ALL, q, r) && Straight(q.flags) && other == stack
  {
    hide LayoutValid;
    Named(q, r);
  }

  /** The switch is entered from exactly these states, behind the two return addresses of
      the CALLs that lead to it. */
  lemma RoutingAdmits(s: RoutingSpec, saved: Registers, r: Registers, stack: seq<u32>)
    requires LayoutValid(s)
    ensures RoutingFrame(s, 1, saved, r, stack) <==>
            && In(saved.esp, 4096, 0xffff_ffff) && saved.esp % 4 == 0 && saved.eax == saved.ebx == 0
            && Straight(saved.flags) && Straight(r.flags)
            && r.esp + 32 == saved.esp && r.eax == r.ebx == r.esi == 0 && r.edi == 24
            && r.ecx == saved.ecx && r.edx == saved.edx && r.ebp == saved.ebp && |stack| == 8
            && stack[0] == s.application.image_base + s.application.call_rva + 5
            && stack[5] == s.application.image_base + s.dispatcher.call_rva + 5
            && stack[1] == stack[6] == 24 && stack[2] == stack[7] == 0
            && stack[3] == saved.edi && stack[4] == saved.esi
  {
    assert s.dispatcher.image_base == s.application.image_base;
    hide LayoutValid;
  }
}
