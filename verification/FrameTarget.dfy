// A reviewed CALL site: its address, its five bytes, and the function it reaches.

module FrameTarget {
  import opened Words
  import opened X86
  import opened X86Rules

  datatype FrameTargetSpec = FrameTargetSpec(image_base: u32, image_size: u32, call_rva: u32, target_rva: u32,
                                             call: seq<byte>, target_prefix: seq<byte>)

  /** valid_frame_target_spec: a mapped CALL rel32 whose signed displacement hits the target. */
  predicate ValidFrameTarget(s: FrameTargetSpec) {
    && |s.call| == 5 && |s.target_prefix| == 16
    && s.image_base != 0 && s.image_base % 65536 == 0
    && 4096 <= s.image_size <= 256 * 1024 * 1024 && s.image_base <= U32_MAX - s.image_size
    && 4096 <= s.call_rva <= s.image_size - 5 && 4096 <= s.target_rva <= s.image_size - 16
    && !(s.call_rva < s.target_rva + 16 && s.target_rva < s.call_rva + 5)
    && s.call[0] == 0xe8
    && s.call_rva + 5 + Signed32(Join(s.call[1], s.call[2], s.call[3], s.call[4])) == s.target_rva
  }

  ghost predicate Calls(prog: Program, at: int, target: u32) {
    exists rel :: Lists(prog, at, Call(rel), 5) && Wrap(Wrap(at + 5) + rel) == target
  }

  /** The bytes at the call site are a CALL of the target. */
  lemma CallReachesTarget(code: Code, s: FrameTargetSpec)
    requires ValidFrameTarget(s) && Loaded(code, s.image_base + s.call_rva, s.call)
    ensures Calls(Disassembly(code), s.image_base + s.call_rva, s.image_base + s.target_rva)
  {
    var at := s.image_base + s.call_rva;
    var rel := Signed32(Join(s.call[1], s.call[2], s.call[3], s.call[4]));
    assert Word(code, at + 1) == Join(s.call[1], s.call[2], s.call[3], s.call[4]);
    assert Decode(code, at) == Some(Fetched(Call(rel), 5));
    assert Lists(Disassembly(code), at, Call(rel), 5);
  }

  lemma CallsRule(prog: Program, s0: Cpu, s: Cpu, target: u32, m: Memory) returns (t: Cpu)
    requires Reaches(prog, s0, s) && Calls(prog, s.eip, target)
    requires s.r.esp >= 4 && Store32(s.mem, s.r.esp - 4, Wrap(s.eip + 5)) == Some(m)
    ensures Reaches(prog, s0, t)
    ensures t == s.(eip := target, mem := m, r := s.r.(esp := s.r.esp - 4, flags := Resume(s.r.flags)))
  {
    hide Reaches, Store32, Run, Step;
    var rel :| Lists(prog, s.eip, Call(rel), 5) && Wrap(Wrap(s.eip + 5) + rel) == target;
    t := CallRule(prog, s0, s, rel, 5, m);
  }
}
