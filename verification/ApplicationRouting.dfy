// The application's event switch: a bounds check, a detour through a byte table
// of indices, and an indirect jump through a table of targets.

module ApplicationRouting {
  import opened Words
  import opened X86
  import opened X86Rules
  import opened FrameTarget

  /** ApplicationRoutingSpec with the caller's FrameTargetSpecs it is checked against. */
  datatype RoutingSpec = RoutingSpec(initializer: FrameTargetSpec, application: FrameTargetSpec,
                                     dispatcher: FrameTargetSpec,
                                     detour_rva: u32, index_rva: u32, table_rva: u32,
                                     indices: seq<byte>, target_rvas: seq<u32>)

  predicate InRange(s: RoutingSpec, r: int, n: int) {
    r >= 4096 && n <= s.initializer.image_size && r <= s.initializer.image_size - n
  }

  /** The eight reviewed spans, as (start, length). */
  function Spans(s: RoutingSpec): seq<(int, int)> {
    [(s.application.target_rva, 27), (s.detour_rva, 12), (s.index_rva, 39), (s.table_rva, 44),
     (s.initializer.call_rva, 5), (s.initializer.target_rva, 16),
     (s.dispatcher.target_rva, 17), (s.dispatcher.call_rva - 7, 12)]
  }

  predicate Disjoint(a: (int, int), b: (int, int)) { !(a.0 < b.0 + b.1 && b.0 < a.0 + a.1) }

  /** The three call sites lie in one image, and event 24 selects the initializer. */
  predicate SitesAgree(s: RoutingSpec)
    requires |s.indices| == 39 && |s.target_rvas| == 11
  {
    && ValidFrameTarget(s.initializer) && ValidFrameTarget(s.application) && ValidFrameTarget(s.dispatcher)
    && s.initializer.image_base == s.application.image_base && s.initializer.image_size == s.application.image_size
    && s.dispatcher.image_base == s.application.image_base && s.dispatcher.image_size == s.application.image_size
    && s.application.call_rva == s.dispatcher.target_rva + 12
    && s.indices[24] == 5 && s.target_rvas[5] == s.initializer.call_rva
  }

  /** What layout accepts. */
  predicate LayoutValid(s: RoutingSpec) {
    && |s.indices| == 39 && |s.target_rvas| == 11
    && SitesAgree(s)
    && (forall i :: 0 <= i < 8 ==> InRange(s, Spans(s)[i].0, Spans(s)[i].1))
    && (forall i, j :: 0 <= j < i < 8 ==> Disjoint(Spans(s)[i], Spans(s)[j]))
    && (forall i :: 0 <= i < 39 ==> s.indices[i] < 11)
    && (forall i :: 0 <= i < 11 ==> InRange(s, s.target_rvas[i], 1))
  }

  /** layout, with its loops over spans, pairs of spans, indices and targets. */
  method Layout(s: RoutingSpec) returns (ok: bool)
    requires |s.indices| == 39 && |s.target_rvas| == 11
    ensures ok == LayoutValid(s)
  {
    hide SitesAgree, InRange, Disjoint;
    if !SitesAgree(s) {
      return false;
    }
    var spans := Spans(s);
    for i := 0 to 8
      invariant forall k :: 0 <= k < i ==> InRange(s, spans[k].0, spans[k].1)
      invariant forall k, j :: 0 <= j < k < i ==> Disjoint(spans[k], spans[j])
    {
      if !InRange(s, spans[i].0, spans[i].1) {
        return false;
      }
      for j := 0 to i
        invariant forall k :: 0 <= k < j ==> Disjoint(spans[i], spans[k])
      {
        if !Disjoint(spans[i], spans[j]) {
          return false;
        }
      }
    }
    for i := 0 to 39
      invariant forall k :: 0 <= k < i ==> s.indices[k] < 11
    {
      if s.indices[i] >= 11 {
        return false;
      }
    }
    for i := 0 to 11
      invariant forall k :: 0 <= k < i ==> InRange(s, s.target_rvas[k], 1)
    {
      if !InRange(s, s.target_rvas[i], 1) {
        return false;
      }
    }
    return true;
  }

  function Base(s: RoutingSpec): u32 { s.application.image_base }
  function Handler(s: RoutingSpec): int { s.application.image_base + s.application.target_rva }

  // ---- application_routing_code --------------------------------------------

  function Outside(s: RoutingSpec): u32 requires |s.target_rvas| == 11 {
    Wrap(s.target_rvas[10] - (s.application.target_rva + 13))
  }
  function ToDetour(s: RoutingSpec): u32 { Wrap(s.detour_rva - (s.application.target_rva + 20)) }
  function FromDetour(s: RoutingSpec): u32 { Wrap(s.application.target_rva + 20 - (s.detour_rva + 12)) }
  function IndexTable(s: RoutingSpec): u32 { Wrap(Base(s) + s.index_rva) }
  function TargetTable(s: RoutingSpec): u32 { Wrap(Base(s) + s.table_rva) }

  const LOAD_EVENT: seq<byte> := [0x8b, 0x44, 0x24, 0x04, 0x83, 0xf8, 0x26]

  /** The 20 bytes of the entry before the indirect jump. */
  function EntryBytes(s: RoutingSpec): seq<byte> requires |s.target_rvas| == 11 {
    LOAD_EVENT + ([0x0f, 0x87] + Bytes(Outside(s))) + [0x90, 0x90] + ([0xe9] + Bytes(ToDetour(s)))
  }

  function DetourBytes(s: RoutingSpec): seq<byte> {
    ([0x0f, 0xb6, 0x80] + Bytes(IndexTable(s))) + ([0xe9] + Bytes(FromDetour(s)))
  }

  function IndirectBytes(s: RoutingSpec): seq<byte> { [0xff, 0x24, 0x85] + Bytes(TargetTable(s)) }

  /** The table of absolute targets, code.targets. */
  function Targets(s: RoutingSpec): seq<u32> requires |s.target_rvas| == 11 {
    seq<u32>(11, i requires 0 <= i < 11 => Wrap(Base(s) + s.target_rvas[i]))
  }

  // ---- Disassembly ------------------------------------------------------

  function Indexed(s: RoutingSpec): Addr { Addr(false, Of(EAX), NoReg, 1, Signed32(IndexTable(s))) }
  function Scaled(s: RoutingSpec): Addr { Addr(false, NoReg, Of(EAX), 4, Signed32(TargetTable(s))) }

  predicate RoutingListed(prog: Program, s: RoutingSpec) requires |s.target_rvas| == 11 {
    var r := Handler(s); var d := Base(s) + s.detour_rva;
    && Lists(prog, r, Mov(R32(EAX), Mem32(Based(ESP, 4))), 4)
    && Lists(prog, r + 4, Arith(CMP, R32(EAX), Imm(38)), 3)
    && Lists(prog, r + 7, Jcc(Above, Signed32(Outside(s))), 6)
    && Lists(prog, r + 13, Nop, 1) && Lists(prog, r + 14, Nop, 1)
    && Lists(prog, r + 15, Jmp(Signed32(ToDetour(s))), 5)
    && Lists(prog, r + 20, JmpTo(Mem32(Scaled(s))), 7)
    && Lists(prog, d, MovZx(EAX, Mem8(Indexed(s))), 7)
    && Lists(prog, d + 7, Jmp(Signed32(FromDetour(s))), 5)
  }

  lemma LoadEventDecodes(code: Code, p: int)
    requires Loaded(code, p, LOAD_EVENT)
    ensures Lists(Disassembly(code), p, Mov(R32(EAX), Mem32(Based(ESP, 4))), 4)
    ensures Lists(Disassembly(code), p + 4, Arith(CMP, R32(EAX), Imm(38)), 3)
  {
    assert Decode(code, p) == Some(Fetched(Mov(R32(EAX), Mem32(Based(ESP, 4))), 4));
    assert Decode(code, p + 4) == Some(Fetched(Arith(CMP, R32(EAX), Imm(38)), 3));
  }

  lemma NopsDecode(code: Code, p: int)
    requires Loaded(code, p, [0x90, 0x90])
    ensures Lists(Disassembly(code), p, Nop, 1) && Lists(Disassembly(code), p + 1, Nop, 1)
  {
    assert Decode(code, p) == Some(Fetched(Nop, 1));
    assert Decode(code, p + 1) == Some(Fetched(Nop, 1));
  }

  lemma JaDecodes(code: Code, p: int, v: u32)
    requires Loaded(code, p, [0x0f, 0x87] + Bytes(v))
    ensures Lists(Disassembly(code), p, Jcc(Above, Signed32(v)), 6)
  {
    hide ByteOf;
    var text := [0x0f, 0x87] + Bytes(v);
    JoinBytes(v);
    assert text[2] == ByteOf(v, 0) && text[3] == ByteOf(v, 1) && text[4] == ByteOf(v, 2) && text[5] == ByteOf(v, 3);
    assert Word(code, p + 2) == v;
    assert Decode(code, p) == Some(Fetched(Jcc(Above, Signed32(v)), 6));
  }

  lemma JmpDecodes(code: Code, p: int, v: u32)
    requires Loaded(code, p, [0xe9] + Bytes(v))
    ensures Lists(Disassembly(code), p, Jmp(Signed32(v)), 5)
  {
    hide ByteOf;
    var text := [0xe9] + Bytes(v);
    JoinBytes(v);
    assert text[1] == ByteOf(v, 0) && text[2] == ByteOf(v, 1) && text[3] == ByteOf(v, 2) && text[4] == ByteOf(v, 3);
    assert Word(code, p + 1) == v;
    assert Decode(code, p) == Some(Fetched(Jmp(Signed32(v)), 5));
  }

  lemma MovZxDecodes(code: Code, p: int, v: u32)
    requires Loaded(code, p, [0x0f, 0xb6, 0x80] + Bytes(v))
    ensures Lists(Disassembly(code), p, MovZx(EAX, Mem8(Addr(false, Of(EAX), NoReg, 1, Signed32(v)))), 7)
  {
    hide ByteOf;
    var text := [0x0f, 0xb6, 0x80] + Bytes(v);
    JoinBytes(v);
    assert text[3] == ByteOf(v, 0) && text[4] == ByteOf(v, 1) && text[5] == ByteOf(v, 2) && text[6] == ByteOf(v, 3);
    assert Word(code, p + 3) == v;
    assert Decode(code, p) == Some(Fetched(MovZx(EAX, Mem8(Addr(false, Of(EAX), NoReg, 1, Signed32(v)))), 7));
  }

  lemma JmpToDecodes(code: Code, p: int, v: u32)
    requires Loaded(code, p, [0xff, 0x24, 0x85] + Bytes(v))
    ensures Lists(Disassembly(code), p, JmpTo(Mem32(Addr(false, NoReg, Of(EAX), 4, Signed32(v)))), 7)
  {
    hide ByteOf;
    var text := [0xff, 0x24, 0x85] + Bytes(v);
    JoinBytes(v);
    assert text[3] == ByteOf(v, 0) && text[4] == ByteOf(v, 1) && text[5] == ByteOf(v, 2) && text[6] == ByteOf(v, 3);
    assert Word(code, p + 3) == v;
    assert Decode(code, p) == Some(Fetched(JmpTo(Mem32(Addr(false, NoReg, Of(EAX), 4, Signed32(v)))), 7));
  }

  lemma RoutingDecodes(code: Code, s: RoutingSpec)
    requires |s.target_rvas| == 11
    requires Loaded(code, Handler(s), EntryBytes(s)) && Loaded(code, Handler(s) + 20, IndirectBytes(s))
    requires Loaded(code, Base(s) + s.detour_rva, DetourBytes(s))
    ensures RoutingListed(Disassembly(code), s)
  {
    hide Loaded, Disassembly;
    var r, d := Handler(s), Base(s) + s.detour_rva;
    var a := [0x0f, 0x87] + Bytes(Outside(s));
    var b := [0xe9] + Bytes(ToDetour(s));
    LoadedParts(code, r, LOAD_EVENT + a + [0x90, 0x90], b);
    LoadedParts(code, r, LOAD_EVENT + a, [0x90, 0x90]);
    LoadedParts(code, r, LOAD_EVENT, a);
    LoadedParts(code, d, [0x0f, 0xb6, 0x80] + Bytes(IndexTable(s)), [0xe9] + Bytes(FromDetour(s)));
    LoadEventDecodes(code, r);
    JaDecodes(code, r + 7, Outside(s));
    NopsDecode(code, r + 13);
    JmpDecodes(code, r + 15, ToDetour(s));
    JmpToDecodes(code, r + 20, TargetTable(s));
    MovZxDecodes(code, d, IndexTable(s));
    JmpDecodes(code, d + 7, FromDetour(s));
  }

  // ---- Execution --------------------------------------------------------

  /** The tables lie in memory as the code expects them. */
  ghost predicate TablesIn(m: Memory, s: RoutingSpec) requires |s.indices| == 39 && |s.target_rvas| == 11 {
    && (forall i :: 0 <= i < 39 ==> Load8(m, IndexTable(s) + i) == Some(s.indices[i]))
    && (forall i :: 0 <= i < 11 ==> Load32(m, TargetTable(s) + 4 * i) == Some(Targets(s)[i]))
  }

  /** The image does not wrap: every address of the layout is base plus RVA. */
  lemma NoWrap(s: RoutingSpec)
    requires LayoutValid(s)
    ensures |s.indices| == 39 && |s.target_rvas| == 11
    ensures Handler(s) < M32 - 27 && Base(s) + s.detour_rva < M32 - 12
    ensures IndexTable(s) == Base(s) + s.index_rva < M32 - 39 && TargetTable(s) == Base(s) + s.table_rva < M32 - 44
    ensures forall i :: 0 <= i < 11 ==> Targets(s)[i] == Base(s) + s.target_rvas[i]
  {
    assert InRange(s, Spans(s)[0].0, Spans(s)[0].1) && InRange(s, Spans(s)[1].0, Spans(s)[1].1);
    assert InRange(s, Spans(s)[2].0, Spans(s)[2].1) && InRange(s, Spans(s)[3].0, Spans(s)[3].1);
    forall i | 0 <= i < 11 ensures Targets(s)[i] == Base(s) + s.target_rvas[i] {
      assert InRange(s, s.target_rvas[i], 1);
    }
  }

  /** A rel32 displacement computed modulo 2^32 reaches its target. */
  lemma DisplacementReaches(from: u32, to: u32)
    ensures Wrap(from + Signed32(Wrap(to - from))) == to
  {}

  lemma WrapIs(x: u32)
    ensures Wrap(x) == x
  {}

  /** The three displacements reach their targets. */
  lemma Displacements(s: RoutingSpec)
    requires LayoutValid(s)
    ensures Wrap(Wrap(Handler(s) + 13) + Signed32(Outside(s))) == Base(s) + s.target_rvas[10]
    ensures Wrap(Wrap(Handler(s) + 20) + Signed32(ToDetour(s))) == Base(s) + s.detour_rva
    ensures Wrap(Wrap(Base(s) + s.detour_rva + 12) + Signed32(FromDetour(s))) == Handler(s) + 20
  {
    NoWrap(s);
    assert InRange(s, s.target_rvas[10], 1);
    hide LayoutValid, Signed32, Wrap;
    WrapIs(Handler(s) + 13);
    WrapIs(Handler(s) + 20);
    WrapIs(Base(s) + s.detour_rva + 12);
    DisplacementReaches(Handler(s) + 13, Base(s) + s.target_rvas[10]);
    DisplacementReaches(Handler(s) + 20, Base(s) + s.detour_rva);
    DisplacementReaches(Base(s) + s.detour_rva + 12, Handler(s) + 20);
  }

  /** The event is loaded and compared with the last index. */
  lemma ComparesEvent(prog: Program, s: RoutingSpec, c: Cpu, e: u32) returns (t: Cpu)
    requires LayoutValid(s) && RoutingListed(prog, s) && c.eip == Handler(s)
    requires c.r.esp < M32 - 8 && Load32(c.mem, c.r.esp + 4) == Some(e)
    ensures Reaches(prog, c, t) && t.mem == c.mem && t.fs == c.fs && t.eip == Handler(s) + 7
    ensures t.r == c.r.(eax := e, flags := t.r.flags) && Holds(t.r.flags, Above) == (e > 38)
    ensures SameControl(t.r.flags, c.r.flags)
  {
    NoWrap(s);
    hide LayoutValid, Reaches, Run, Step, Load32, EvenParity;
    Stay(prog, c);
    t := LoadRule(prog, c, c, EAX, Based(ESP, 4), 4, e);
    t := AluRule(prog, c, t, CMP, EAX, Imm(38), 3, 38);
  }

  /** Two no-operations and a jump. */
  lemma JumpsOn(prog: Program, c: Cpu, u: Cpu, rel: int) returns (t: Cpu)
    requires Reaches(prog, c, u) && u.eip < M32 - 8
    requires Lists(prog, u.eip, Nop, 1) && Lists(prog, u.eip + 1, Nop, 1) && Lists(prog, u.eip + 2, Jmp(rel), 5)
    ensures Reaches(prog, c, t) && t.mem == u.mem && t.fs == u.fs && t.eip == Wrap(u.eip + 7 + rel)
    ensures t.r == u.r.(flags := Resume(u.r.flags))
  {
    hide Reaches, Run, Step, Wrap;
    WrapIs(u.eip + 1);
    WrapIs(u.eip + 2);
    WrapIs(u.eip + 7);
    t := NopRule(prog, c, u);
    t := NopRule(prog, c, t);
    t := JmpRule(prog, c, t, rel, 5);
  }

  /** Behind the conditional jump. */
  lemma BranchesOnEvent(prog: Program, s: RoutingSpec, c: Cpu, e: u32) returns (t: Cpu)
    requires LayoutValid(s) && RoutingListed(prog, s) && c.eip == Handler(s)
    requires c.r.esp < M32 - 8 && Load32(c.mem, c.r.esp + 4) == Some(e)
    ensures Reaches(prog, c, t) && t.mem == c.mem && t.fs == c.fs
    ensures t.r == c.r.(eax := e, flags := t.r.flags) && SameControl(t.r.flags, c.r.flags)
    ensures t.eip == if e <= 38 then Handler(s) + 13 else Base(s) + s.target_rvas[10]
  {
    NoWrap(s);
    Displacements(s);
    hide LayoutValid, Reaches, Run, Step, Load32, Holds, Signed32, Outside, ToDetour, Wrap;
    WrapIs(Handler(s) + 13);
    t := ComparesEvent(prog, s, c, e);
    t := JccRule(prog, c, t, Above, Signed32(Outside(s)), 6);
  }

  /** Entry to detour or to the out-of-range target. */
  lemma ThroughEntry(prog: Program, s: RoutingSpec, c: Cpu, e: u32) returns (t: Cpu)
    requires LayoutValid(s) && RoutingListed(prog, s) && c.eip == Handler(s)
    requires c.r.esp < M32 - 8 && Load32(c.mem, c.r.esp + 4) == Some(e)
    ensures Reaches(prog, c, t) && t.mem == c.mem && t.fs == c.fs
    ensures t.r == c.r.(eax := e, flags := t.r.flags) && SameControl(t.r.flags, c.r.flags)
    ensures t.eip == Base(s) + if e <= 38 then s.detour_rva else s.target_rvas[10]
  {
    NoWrap(s);
    Displacements(s);
    hide LayoutValid, Reaches, Run, Step, Load32, Signed32, ToDetour, Wrap;
    WrapIs(Handler(s) + 20);
    t := BranchesOnEvent(prog, s, c, e);
    if e <= 38 { t := JumpsOn(prog, c, t, Signed32(ToDetour(s))); }
  }

  /** The detour: the event's index, and back to the indirect jump. */
  lemma ThroughDetour(prog: Program, s: RoutingSpec, c: Cpu, e: nat) returns (t: Cpu)
    requires LayoutValid(s) && RoutingListed(prog, s) && c.eip == Base(s) + s.detour_rva
    requires e <= 38 && c.r.eax == e && TablesIn(c.mem, s)
    ensures Reaches(prog, c, t) && t.mem == c.mem && t.fs == c.fs && t.eip == Handler(s) + 20
    ensures t.r == c.r.(eax := s.indices[e], flags := t.r.flags)
    ensures t.r.flags.tf == c.r.flags.tf && t.r.flags.df == c.r.flags.df && t.r.flags.rest == c.r.flags.rest
  {
    hide LayoutValid, Reaches, Run, Step, Load8;
    NoWrap(s);
    Displacements(s);
    Stay(prog, c);
    t := MovZxRule(prog, c, c, EAX, Mem8(Indexed(s)).addr, 7, s.indices[e]);
    t := JmpRule(prog, c, t, Signed32(FromDetour(s)), 5);
  }

  lemma ThroughTable(prog: Program, s: RoutingSpec, c: Cpu, k: nat) returns (t: Cpu)
    requires LayoutValid(s) && RoutingListed(prog, s) && c.eip == Handler(s) + 20
    requires k < 11 && c.r.eax == k && TablesIn(c.mem, s)
    ensures Reaches(prog, c, t)
    ensures Base(s) + s.target_rvas[k] < M32
    ensures t == c.(eip := Base(s) + s.target_rvas[k], r := c.r.(flags := Resume(c.r.flags)))
  {
    hide LayoutValid, Reaches, Run, Step, Load32;
    NoWrap(s);
    Stay(prog, c);
    t := JmpToRule(prog, c, c, Scaled(s), 7, Targets(s)[k]);
  }

  /** The compiled switch is the source-level switch: for every 32-bit event the code
      lands on the target the tables name, with only EAX and the flags changed. */
  lemma Routes(code: Code, s: RoutingSpec, c: Cpu, e: u32) returns (t: Cpu)
    requires LayoutValid(s)
    requires Loaded(code, Handler(s), EntryBytes(s)) && Loaded(code, Handler(s) + 20, IndirectBytes(s))
    requires Loaded(code, Base(s) + s.detour_rva, DetourBytes(s))
    requires c.eip == Handler(s) && c.r.esp < M32 - 8 && Load32(c.mem, c.r.esp + 4) == Some(e)
    requires TablesIn(c.mem, s)
    ensures Reaches(Disassembly(code), c, t) && t.mem == c.mem && t.fs == c.fs
    ensures t.eip == Base(s) + s.target_rvas[if e <= 38 then s.indices[e] else 10]
    ensures t.r == c.r.(eax := if e <= 38 then s.indices[e] else e, flags := t.r.flags)
  {
    hide Reaches, Loaded, Disassembly, TablesIn, RoutingListed;
    var prog := Disassembly(code);
    RoutingDecodes(code, s);
    t := ThroughEntry(prog, s, c, e);
    if e <= 38 {
      var u := ThroughDetour(prog, s, t, e);
      Chain(prog, c, t, u);
      t := ThroughTable(prog, s, u, s.indices[e]);
      Chain(prog, c, u, t);
    }
  }

  // ---- application_routing_frame ----------------------------------------

  predicate RoutingFrame(s: RoutingSpec, stage: nat, saved: Registers, r: Registers, stack: seq<u32>)
    requires LayoutValid(s)
  {
    && 1 <= stage <= 4 && saved.esp >= 4096 && saved.esp % 4 == 0 && saved.eax == 0 && saved.ebx == 0
    && !saved.flags.tf && !saved.flags.df && !r.flags.tf && !r.flags.df
    && r.esp == saved.esp - 32 && r.ebx == 0 && r.ecx == saved.ecx && r.edx == saved.edx && r.ebp == saved.ebp
    && r.esi == 0 && r.edi == 24
    && r.eax == (if stage == 1 then 0 else if stage == 2 then 24 else 5)
    && stack == [s.application.image_base + s.application.call_rva + 5, 24, 0, saved.edi, saved.esi,
                 s.dispatcher.image_base + s.dispatcher.call_rva + 5, 24, 0]
  }

  /** Event 24 passes its four stops: entry, detour, indirect jump, initializer CALL. */
  lemma Event24(code: Code, s: RoutingSpec, saved: Registers, c: Cpu, stack: seq<u32>) returns (run: seq<Cpu>)
    requires LayoutValid(s)
    requires Loaded(code, Handler(s), EntryBytes(s)) && Loaded(code, Handler(s) + 20, IndirectBytes(s))
    requires Loaded(code, Base(s) + s.detour_rva, DetourBytes(s))
    requires c.eip == Handler(s) && TablesIn(c.mem, s) && RoutingFrame(s, 1, saved, c.r, stack)
    requires forall k :: 0 <= k < 8 ==> Load32(c.mem, c.r.esp + 4 * k) == Some(stack[k])
    ensures |run| == 4 && run[0] == c && run[1].eip == Base(s) + s.detour_rva
    ensures run[2].eip == Handler(s) + 20 && run[3].eip == Base(s) + s.initializer.call_rva
    ensures forall k :: 0 <= k < 4 ==> RoutingFrame(s, k + 1, saved, run[k].r, stack) && run[k].mem == c.mem
    ensures forall k :: 1 <= k < 4 ==> Reaches(Disassembly(code), run[k - 1], run[k])
  {
    hide Reaches, Loaded, Disassembly, TablesIn, RoutingListed, Load32;
    var prog := Disassembly(code);
    RoutingDecodes(code, s);
    assert Load32(c.mem, c.r.esp + 4 * 1) == Some(stack[1]);
    var t1 := ThroughEntry(prog, s, c, 24);
    var t2 := ThroughDetour(prog, s, t1, 24);
    var t3 := ThroughTable(prog, s, t2, 5);
    run := [c, t1, t2, t3];
  }
}
