// The ranges that the validations compare, as the bytes they consist of: a range test
// means that every byte of a span lies in the image, an overlap test that two spans own
// no byte together, and a displacement test that the CALL names its target.

module Extents {
  import opened Words
  import opened FrameTarget
  import opened CwdSeh
  import Routing = ApplicationRouting

  predicate In(x: int, lo: int, hi: int) { lo <= x <= hi }

  /** The byte x is one of the n bytes from a on. */
  predicate Owns(a: int, n: int, x: int) { a <= x < a + n }

  ghost predicate Lies(a: int, n: int, lo: int, hi: int) { forall x :: Owns(a, n, x) ==> In(x, lo, hi) }

  ghost predicate Foreign(a: int, n: int, b: int, k: int) { forall x :: Owns(a, n, x) ==> !Owns(b, k, x) }

  lemma LiesIs(a: int, n: int, lo: int, hi: int)
    requires n > 0
    ensures Lies(a, n, lo, hi) <==> lo <= a && a + n - 1 <= hi
  {
    if Lies(a, n, lo, hi) { assert Owns(a, n, a) && Owns(a, n, a + n - 1); }
  }

  lemma ForeignIs(a: int, n: int, b: int, k: int)
    requires n > 0 && k > 0
    ensures Foreign(a, n, b, k) <==> !(a < b + k && b < a + n)
  {
    if a < b + k && b < a + n {
      var x := if a < b then b else a;
      assert Owns(a, n, x) && Owns(b, k, x);
    }
  }

  /** A reviewed CALL: it lies in the image behind its headers, as does the start of its
      target, and its bytes are the opcode and the distance to the target. */
  lemma CallSiteMeans(s: FrameTargetSpec)
    ensures ValidFrameTarget(s) <==>
            && s.image_base > 0 && s.image_base % 0x1_0000 == 0
            && In(s.image_size, 0x1000, 0x1000_0000) && s.image_base + s.image_size <= 0xffff_ffff
            && Lies(s.call_rva, 5, 4096, s.image_size - 1) && Lies(s.target_rva, 16, 4096, s.image_size - 1)
            && Foreign(s.call_rva, 5, s.target_rva, 16) && |s.target_prefix| == 16
            && s.call == [0xe8] + Bytes(Wrap(s.target_rva - s.call_rva - 5))
  {
    LiesIs(s.call_rva, 5, 4096, s.image_size - 1);
    LiesIs(s.target_rva, 16, 4096, s.image_size - 1);
    ForeignIs(s.call_rva, 5, s.target_rva, 16);
    hide Lies, Foreign, Join, Bytes, Signed32, Wrap;
    if |s.call| == 5 && s.call_rva < 0x1000_0000 && s.target_rva < 0x1000_0000 {
      CallMeans(s.call, s.call_rva, s.target_rva);
    }
  }

  lemma CallMeans(call: seq<byte>, at: nat, target: nat)
    requires |call| == 5 && at < 0x1000_0000 && target < 0x1000_0000
    ensures call[0] == 0xe8 && at + 5 + Signed32(Join(call[1], call[2], call[3], call[4])) == target <==>
            call == [0xe8] + Bytes(Wrap(target - at - 5))
  {
    var to := Wrap(target - at - 5);
    JoinBytes(to);
    BytesJoin(call[1], call[2], call[3], call[4]);
    var d := Join(call[1], call[2], call[3], call[4]);
    assert Signed32(to) == target - at - 5;
    hide Join, ByteOf;
    if call[0] == 0xe8 && at + 5 + Signed32(d) == target {
      assert d == to;
      assert call == [0xe8] + Bytes(d);
    }
    if call == [0xe8] + Bytes(to) { assert d == to; }
  }

  /** One image holds three CALLs. */
  predicate OneImage(a: FrameTargetSpec, b: FrameTargetSpec) {
    a.image_base == b.image_base && a.image_size == b.image_size
  }

  ghost predicate Apiece(spans: seq<(int, int)>, lo: int, hi: int) {
    && (forall i :: 0 <= i < |spans| ==> Lies(spans[i].0, spans[i].1, lo, hi))
    && (forall i, j :: 0 <= j < i < |spans| ==> Foreign(spans[i].0, spans[i].1, spans[j].0, spans[j].1))
  }

  lemma SpansMean(s: Routing.RoutingSpec, spans: seq<(int, int)>)
    requires |spans| == 8 && forall i :: 0 <= i < 8 ==> 0 < spans[i].1 <= 44
    ensures Apiece(spans, 4096, s.initializer.image_size - 1) <==>
            && (forall i :: 0 <= i < 8 ==> spans[i].0 >= 4096 && spans[i].0 + spans[i].1 <= s.initializer.image_size)
            && (forall i, j :: 0 <= j < i < 8 ==> Routing.Disjoint(spans[i], spans[j]))
  {
    forall i | 0 <= i < 8
      ensures Lies(spans[i].0, spans[i].1, 4096, s.initializer.image_size - 1) <==>
              spans[i].0 >= 4096 && spans[i].0 + spans[i].1 <= s.initializer.image_size
    {
      LiesIs(spans[i].0, spans[i].1, 4096, s.initializer.image_size - 1);
    }
    forall i, j | 0 <= j < i < 8
      ensures Foreign(spans[i].0, spans[i].1, spans[j].0, spans[j].1) <==> Routing.Disjoint(spans[i], spans[j])
    {
      ForeignIs(spans[i].0, spans[i].1, spans[j].0, spans[j].1);
    }
    hide Lies, Foreign, Routing.Disjoint;
  }

  /** An accepted switch: its three CALLs share the image, the handler is called behind the
      dispatcher's twelve bytes, event 24 takes the initializer's CALL, and the eight pieces
      lie in the image behind its headers, no two of them on the same byte. */
  lemma SwitchMeans(s: Routing.RoutingSpec)
    ensures Routing.LayoutValid(s) <==>
            && |s.indices| == 39 && |s.target_rvas| == 11
            && ValidFrameTarget(s.initializer) && ValidFrameTarget(s.application) && ValidFrameTarget(s.dispatcher)
            && OneImage(s.initializer, s.application) && OneImage(s.application, s.dispatcher)
            && s.application.call_rva - s.dispatcher.target_rva == 12
            && s.indices[24] == 5 && s.target_rvas[s.indices[24]] == s.initializer.call_rva
            && Apiece([(s.application.target_rva, 27), (s.detour_rva, 12), (s.index_rva, 39), (s.table_rva, 44),
                       (s.initializer.call_rva, 5), (s.initializer.target_rva, 16),
                       (s.dispatcher.target_rva, 17), (s.dispatcher.call_rva - 7, 12)],
                      4096, s.initializer.image_size - 1)
            && (forall i :: 0 <= i < 39 ==> s.indices[i] as int < |s.target_rvas|)
            && (forall i :: 0 <= i < 11 ==> In(s.target_rvas[i], 4096, s.initializer.image_size - 1))
  {
    var spans := [(s.application.target_rva as int, 27), (s.detour_rva, 12), (s.index_rva, 39), (s.table_rva, 44),
                  (s.initializer.call_rva, 5), (s.initializer.target_rva, 16),
                  (s.dispatcher.target_rva, 17), (s.dispatcher.call_rva - 7, 12)];
    SpansMean(s, spans);
    assert spans == Routing.Spans(s);
    hide ValidFrameTarget, Apiece, Lies, Routing.Disjoint, Routing.Spans;
  }

  /** The reviewed SEH prologue: two CALLs in one image, the second at offset seven of the
      first's target; the code, the scope table and the handlers lie in the image. */
  lemma PrologueMeans(s: CwdSehSpec)
    ensures ValidSeh(s) <==>
            && ValidFrameTarget(s.wrapper) && ValidFrameTarget(s.prologue) && OneImage(s.wrapper, s.prologue)
            && s.prologue.call_rva - s.wrapper.target_rva == 7
            && Lies(s.scope_rva, 12, 4096, s.wrapper.image_size - 1)
            && Lies(s.handler_rva, 16, 4096, s.wrapper.image_size - 1)
            && Lies(s.cleanup_rva, 16, 4096, s.wrapper.image_size - 1)
            && Lies(s.prologue.target_rva, 59, 4096, s.wrapper.image_size - 1)
            && Lies(s.wrapper.target_rva, 28, 4096, s.wrapper.image_size - 1)
  {
    var top := s.wrapper.image_size - 1;
    LiesIs(s.scope_rva, 12, 4096, top);
    LiesIs(s.handler_rva, 16, 4096, top);
    LiesIs(s.cleanup_rva, 16, 4096, top);
    LiesIs(s.prologue.target_rva, 59, 4096, top);
    LiesIs(s.wrapper.target_rva, 28, 4096, top);
    hide Lies;
  }
}
