// HIGHLOW relocation of an export's 20-byte prefix: 32-bit words at marked
// offsets are moved by the difference of two image bases, modulo 2^32.

module Relocation {
  import opened Words

  const PREFIX: nat := 20

  // ---- Masks --------------------------------------------------------------

  ghost predicate InRange(mask: nat) { forall k: nat :: Bit(mask, k) ==> k <= 16 }

  /** The set bits below n are pairwise at least four apart. */
  ghost predicate Spaced(mask: nat, n: nat) {
    forall i: nat, j: nat :: i < j < n && Bit(mask, i) && Bit(mask, j) ==> j - i >= 4
  }

  /** Starting offsets 0..16, disjoint four-byte windows, and an aligned nonzero
      preferred base unless there is nothing to move. */
  ghost predicate MaskValid(mask: u32, preferred: u32) {
    && InRange(mask) && Spaced(mask, 17)
    && (mask != 0 ==> preferred != 0 && preferred % 65536 == 0)
  }

  lemma {:induction false} ShiftedBit(x: nat, o: nat, k: nat)
    ensures Bit(x * Pow2(o), k) <==> k >= o && Bit(x, k - o)
    decreases o
  {
    if o == 0 {
      assert x * Pow2(0) == x;
    } else {
      var y := x * Pow2(o - 1);
      Doubled(x, Pow2(o - 1));
      assert x * Pow2(o) == 2 * y;
      if k > 0 {
        assert (2 * y) / 2 == y;
        ShiftedBit(x, o - 1, k - 1);
      }
    }
  }

  lemma FifteenBit(k: nat)
    ensures Bit(15, k) <==> k < 4
  {
    if k >= 4 {
      BitShift4(15, k - 4);
      ZeroHasNoBits(k - 4);
    } else {
      assert Bit(15, 0) && Bit(15, 1) == Bit(7, 0) && Bit(15, 2) == Bit(7, 1) == Bit(3, 0);
      assert Bit(15, 3) == Bit(7, 2) == Bit(3, 1) == Bit(1, 0);
    }
  }

  lemma OneBit(k: nat)
    ensures Bit(1, k) <==> k == 0
  {
    if k > 0 { ZeroHasNoBits(k - 1); }
  }

  /** 15 << o covers the window of offset o. */
  lemma WindowBit(o: nat, k: nat)
    ensures Bit(15 * Pow2(o), k) <==> o <= k < o + 4
  {
    ShiftedBit(15, o, k);
    if k >= o { FifteenBit(k - o); }
  }

  /** mask & (1 << o). */
  lemma AndPow2(mask: nat, o: nat)
    ensures And(mask, Pow2(o)) == 0 <==> !Bit(mask, o)
  {
    AndZero(mask, Pow2(o));
    assert Pow2(o) == 1 * Pow2(o);
    ShiftedBit(1, o, o);
    OneBit(0);
    forall k: nat | Bit(Pow2(o), k) ensures k == o {
      ShiftedBit(1, o, k);
      if k >= o { OneBit(k - o); }
    }
  }

  lemma {:induction false} LowOnes(n: nat, k: nat)
    ensures Bit(Pow2(n) - 1, k) <==> k < n
    decreases n
  {
    if n == 0 {
      ZeroHasNoBits(k);
    } else {
      assert (Pow2(n) - 1) / 2 == Pow2(n - 1) - 1;
      if k > 0 { LowOnes(n - 1, k - 1); }
    }
  }

  lemma HighMask(k: nat)
    ensures Bit(Not(0x1_ffff), k) <==> 16 < k < 32
  {
    Pow2Values();
    assert Pow2(17) == 0x2_0000 by { assert Pow2(17) == 2 * Pow2(16); }
    hide Bit, Pow2;
    if k < 32 {
      NotBit(0x1_ffff, k);
      LowOnes(17, k);
    } else {
      BitBound(Not(0x1_ffff), 32, k);
    }
  }

  /** mask & ~0x1ffff. */
  lemma OutOfRangeBits(mask: u32)
    ensures And(mask, Not(0x1_ffff)) == 0 <==> InRange(mask)
  {
    Pow2Values();
    hide Bit, Pow2, And, Not;
    AndZero(mask, Not(0x1_ffff));
    forall k: nat ensures Bit(Not(0x1_ffff), k) <==> 16 < k < 32 { HighMask(k); }
    forall k: nat | Bit(mask, k) ensures k < 32 { if k >= 32 { BitBound(mask, 32, k); } }
    if InRange(mask) {
      assert forall k: nat :: !(Bit(mask, k) && Bit(Not(0x1_ffff), k));
    } else {
      var k: nat :| Bit(mask, k) && k > 16;
      assert Bit(Not(0x1_ffff), k);
    }
  }

  // ---- Words in a prefix ---------------------------------------------------

  function WordIn(b: seq<byte>, o: nat): u32
    requires o + 4 <= |b|
  {
    Join(b[o], b[o + 1], b[o + 2], b[o + 3])
  }

  predicate InWindow(mask: nat, k: nat) {
    exists o :: 0 <= o <= k && k < o + 4 && Bit(mask, o)
  }

  /** out is in with the word of every marked offset moved by delta, and nothing else. */
  ghost predicate Moved(before: seq<byte>, after: seq<byte>, mask: u32, delta: int) {
    && |before| == PREFIX && |after| == PREFIX
    && (forall o :: 0 <= o <= 16 && Bit(mask, o) ==> WordIn(after, o) == Wrap(WordIn(before, o) + delta))
    && (forall k :: 0 <= k < PREFIX && !InWindow(mask, k) ==> after[k] == before[k])
  }

  function PutWord(b: seq<byte>, o: nat, v: u32): (r: seq<byte>)
    requires o + 4 <= |b|
    ensures |r| == |b|
  {
    b[o := ByteOf(v, 0)][o + 1 := ByteOf(v, 1)][o + 2 := ByteOf(v, 2)][o + 3 := ByteOf(v, 3)]
  }

  lemma PutWordGets(b: seq<byte>, o: nat, v: u32)
    requires o + 4 <= |b|
    ensures WordIn(PutWord(b, o, v), o) == v
    ensures forall k :: 0 <= k < |b| && !(o <= k < o + 4) ==> PutWord(b, o, v)[k] == b[k]
  {
    hide ByteOf;
    JoinBytes(v);
  }

  /** The first o offsets have been moved; the rest of the prefix is untouched. */
  ghost predicate MovedUpTo(before: seq<byte>, after: seq<byte>, mask: u32, delta: int, n: nat) {
    && |before| == PREFIX && |after| == PREFIX
    && (forall o :: 0 <= o < n && o <= 16 && Bit(mask, o) ==> WordIn(after, o) == Wrap(WordIn(before, o) + delta))
    && (forall k :: 0 <= k < PREFIX && !CoveredBelow(mask, n, k) ==> after[k] == before[k])
  }

  predicate CoveredBelow(mask: nat, n: nat, k: nat) {
    exists o :: 0 <= o < n && o <= k < o + 4 && Bit(mask, o)
  }

  lemma MovesOne(before: seq<byte>, b: seq<byte>, mask: u32, delta: int, o: nat)
    requires o <= 16 && Bit(mask, o) && MovedUpTo(before, b, mask, delta, o)
    requires forall i :: 0 <= i < o && Bit(mask, i) ==> o - i >= 4
    ensures WordIn(b, o) == WordIn(before, o)
    ensures MovedUpTo(before, PutWord(b, o, Wrap(WordIn(b, o) + delta)), mask, delta, o + 1)
  {
    hide Bit, Wrap, Join;
    var v := Wrap(WordIn(b, o) + delta);
    var b' := PutWord(b, o, v);
    PutWordGets(b, o, v);
    forall k | o <= k < o + 4 ensures b[k] == before[k] {
      assert !CoveredBelow(mask, o, k);
    }
    forall i | 0 <= i < o && Bit(mask, i) ensures WordIn(b', i) == WordIn(b, i) {
      assert b'[i] == b[i] && b'[i + 1] == b[i + 1] && b'[i + 2] == b[i + 2] && b'[i + 3] == b[i + 3];
    }
    forall k | 0 <= k < PREFIX && !CoveredBelow(mask, o + 1, k) ensures b'[k] == before[k] {
      assert !(o <= k < o + 4);
      assert !CoveredBelow(mask, o, k);
    }
  }

  lemma SkipsOne(before: seq<byte>, b: seq<byte>, mask: u32, delta: int, o: nat)
    requires !Bit(mask, o) && MovedUpTo(before, b, mask, delta, o)
    ensures MovedUpTo(before, b, mask, delta, o + 1)
  {
    hide Bit, Wrap, Join;
    forall k | 0 <= k < PREFIX && !CoveredBelow(mask, o + 1, k) ensures b[k] == before[k] {
      assert !CoveredBelow(mask, o, k);
    }
  }

  /** covered is exactly the union of the windows seen so far. */
  ghost predicate Covers(covered: nat, mask: nat, n: nat) {
    forall k: nat :: Bit(covered, k) <==> CoveredBelow(mask, n, k)
  }

  /** The collision test of the loop. */
  lemma Collides(covered: nat, mask: u32, o: nat)
    requires Covers(covered, mask, o) && Bit(mask, o) && Spaced(mask, o)
    ensures And(covered, 15 * Pow2(o)) == 0 <==> Spaced(mask, o + 1)
  {
    hide Bit, And, Pow2;
    AndZero(covered, 15 * Pow2(o));
    forall k: nat ensures Bit(15 * Pow2(o), k) <==> o <= k < o + 4 { WindowBit(o, k); }
    if And(covered, 15 * Pow2(o)) != 0 {
      var k: nat :| Bit(covered, k) && Bit(15 * Pow2(o), k);
      var i :| 0 <= i < o && i <= k < i + 4 && Bit(mask, i);
      assert o - i < 4;
    } else {
      assert Bit(15 * Pow2(o), o) && !Bit(covered, o);
      assert !CoveredBelow(mask, o, o);
    }
  }

  lemma CoversNext(covered: nat, mask: u32, o: nat)
    requires Covers(covered, mask, o) && Bit(mask, o)
    ensures Covers(Or(covered, 15 * Pow2(o)), mask, o + 1)
  {
    forall k: nat ensures Bit(Or(covered, 15 * Pow2(o)), k) <==> CoveredBelow(mask, o + 1, k) {
      OrBit(covered, 15 * Pow2(o), k);
      WindowBit(o, k);
      hide Bit;
    }
  }

  lemma CoversSkip(covered: nat, mask: u32, o: nat)
    requires Covers(covered, mask, o) && !Bit(mask, o)
    ensures Covers(covered, mask, o + 1)
  {
    hide Bit;
  }

  /** bootstrap_export_prefix: accepted exactly for valid masks; then exactly the marked
      words are moved. */
  method ExportPrefix(prefix: seq<byte>, preferred: u32, mask: u32, actual: u32) returns (output: Option<seq<byte>>)
    requires |prefix| == PREFIX
    ensures output.Some? <==> MaskValid(mask, preferred)
    ensures output.Some? ==> Moved(prefix, output.value, mask, actual - preferred)
  {
    hide Bit, And, Or, Pow2, Not, Wrap, Join, ByteOf, MovedUpTo, Moved, Covers, InRange, Spaced, PutWord;
    OutOfRangeBits(mask);
    if And(mask, Not(0x1_ffff)) != 0 || (mask != 0 && (preferred == 0 || preferred % 65536 != 0)) {
      return None;
    }
    var bytes := prefix;
    var covered: nat := 0;
    StartsEmpty(prefix, mask, actual - preferred);
    for offset := 0 to 17
      invariant |bytes| == PREFIX && Covers(covered, mask, offset) && Spaced(mask, offset)
      invariant MovedUpTo(prefix, bytes, mask, actual - preferred, offset)
    {
      AndPow2(mask, offset);
      if And(mask, Pow2(offset)) == 0 {
        CoversSkip(covered, mask, offset);
        SpacedSkip(mask, offset);
        SkipsOne(prefix, bytes, mask, actual - preferred, offset);
      } else {
        Collides(covered, mask, offset);
        if And(covered, 15 * Pow2(offset)) != 0 {
          SpacedPrefix(mask, offset + 1, 17);
          return None;
        }
        CoversNext(covered, mask, offset);
        SpacedLast(mask, offset);
        MovesOne(prefix, bytes, mask, actual - preferred, offset);
        covered := Or(covered, 15 * Pow2(offset));
        var value := WordIn(bytes, offset);
        value := Wrap(value + (actual - preferred));
        bytes := PutWord(bytes, offset, value);
      }
    }
    MovedAll(prefix, bytes, mask, actual - preferred);
    return Some(bytes);
  }

  lemma SpacedPrefix(mask: nat, m: nat, n: nat)
    requires m <= n
    ensures Spaced(mask, n) ==> Spaced(mask, m)
  { hide Bit; }

  lemma SpacedSkip(mask: nat, o: nat)
    requires Spaced(mask, o) && !Bit(mask, o)
    ensures Spaced(mask, o + 1)
  { hide Bit; }

  lemma SpacedLast(mask: nat, o: nat)
    requires Spaced(mask, o + 1) && Bit(mask, o)
    ensures forall i :: 0 <= i < o && Bit(mask, i) ==> o - i >= 4
  { hide Bit; }

  lemma StartsEmpty(prefix: seq<byte>, mask: u32, delta: int)
    requires |prefix| == PREFIX
    ensures Covers(0, mask, 0) && Spaced(mask, 0) && MovedUpTo(prefix, prefix, mask, delta, 0)
  {
    forall k: nat ensures !Bit(0, k) { ZeroHasNoBits(k); }
    hide Bit;
  }

  lemma MovedAll(before: seq<byte>, after: seq<byte>, mask: u32, delta: int)
    requires MovedUpTo(before, after, mask, delta, 17) && InRange(mask)
    ensures Moved(before, after, mask, delta)
  {
    hide Bit, Wrap, Join;
    forall k | 0 <= k < PREFIX ensures CoveredBelow(mask, 17, k) ==> InWindow(mask, k) {}
  }

  // ---- Laws ----------------------------------------------------------------

  lemma WordDetermines(a: seq<byte>, b: seq<byte>, o: nat)
    requires o + 4 <= |a| == |b| && WordIn(a, o) == WordIn(b, o)
    ensures forall k :: o <= k < o + 4 ==> a[k] == b[k]
  {
    BytesJoin(a[o], a[o + 1], a[o + 2], a[o + 3]);
    BytesJoin(b[o], b[o + 1], b[o + 2], b[o + 3]);
  }

  /** The result is determined by the mask and the difference. */
  lemma MovedUnique(before: seq<byte>, a: seq<byte>, b: seq<byte>, mask: u32, d: int)
    requires Moved(before, a, mask, d) && Moved(before, b, mask, d) && InRange(mask)
    ensures a == b
  {
    hide Bit, Wrap, WordIn;
    forall k | 0 <= k < PREFIX ensures a[k] == b[k] {
      if InWindow(mask, k) {
        var o :| 0 <= o <= k && k < o + 4 && Bit(mask, o);
        assert o <= 16;
        WordDetermines(a, b, o);
      }
    }
  }

  lemma WrapIsMod(x: int)
    ensures Wrap(x) == x % M32
  {}

  lemma WrapWrap(w: int, d: int, e: int)
    ensures Wrap(Wrap(w + d) + e) == Wrap(w + d + e)
  {
    WrapIsMod(w + d);
    WrapIsMod(Wrap(w + d) + e);
    WrapIsMod(w + d + e);
  }

  /** At the preferred base nothing changes. */
  lemma IdentityAtPreferred(before: seq<byte>, after: seq<byte>, mask: u32, base: u32)
    requires MaskValid(mask, base) && Moved(before, after, mask, base - base)
    ensures after == before
  {
    hide Bit, Wrap, WordIn;
    assert Moved(before, before, mask, 0) by {
      forall o | 0 <= o <= 16 && Bit(mask, o) ensures WordIn(before, o) == Wrap(WordIn(before, o) + 0) {
        WrapIsMod(WordIn(before, o));
      }
    }
    MovedUnique(before, after, before, mask, 0);
  }

  lemma MovedTwice(a: seq<byte>, b: seq<byte>, c: seq<byte>, mask: u32, d: int, e: int)
    requires Moved(a, b, mask, d) && Moved(b, c, mask, e)
    ensures Moved(a, c, mask, d + e)
  {
    hide Bit, Wrap, WordIn;
    forall o | 0 <= o <= 16 && Bit(mask, o) ensures WordIn(c, o) == Wrap(WordIn(a, o) + (d + e)) {
      WrapWrap(WordIn(a, o), d, e);
      assert WordIn(b, o) == Wrap(WordIn(a, o) + d);
      assert WordIn(a, o) + (d + e) == WordIn(a, o) + d + e;
    }
  }

  /** Relocating to b, and the result from b to c, is relocating to c; the second step is
      accepted exactly when there is nothing to move or b is itself an aligned base. */
  lemma RelocationComposes(prefix: seq<byte>, at_b: seq<byte>, twice: seq<byte>, once: seq<byte>, mask: u32,
                           preferred: u32, b: u32, c: u32)
    requires MaskValid(mask, preferred) && Moved(prefix, at_b, mask, b - preferred)
    requires Moved(at_b, twice, mask, c - b) && Moved(prefix, once, mask, c - preferred)
    ensures twice == once
    ensures MaskValid(mask, b) <==> mask == 0 || (b != 0 && b % 65536 == 0)
  {
    hide Bit, Wrap, WordIn, Moved, InRange, Spaced;
    MovedTwice(prefix, at_b, twice, mask, b - preferred, c - b);
    MovedUnique(prefix, twice, once, mask, c - preferred);
  }
}
