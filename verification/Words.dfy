// Fixed-width machine words as bounded integers, and the bitwise operators of
// the source on them.  The bitwise operators are defined bit by bit so that
// every fact about a mask is proved, not assumed of the solver's bit-vectors.

module Words {
  datatype Option<+T> = None | Some(value: T)

  const M32: int := 0x1_0000_0000
  const U32_MAX: int := 0xffff_ffff

  type byte = x: int | 0 <= x < 256
  type u32 = x: int | 0 <= x < 0x1_0000_0000
  type u64 = x: int | 0 <= x < 0x1_0000_0000_0000_0000

  /** Reduction modulo 2^32; the first three cases keep ordinary sums linear. */
  function Wrap(x: int): u32 {
    if 0 <= x < M32 then x
    else if -M32 <= x < 0 then x + M32
    else if M32 <= x < 2 * M32 then x - M32
    else x % M32
  }

  lemma WrapMeans(x: int)
    ensures Wrap(x) == x % 0x1_0000_0000
  {
    if -M32 <= x < 0 { assert x % M32 == x + M32; }
    if M32 <= x < 2 * M32 { assert x % M32 == x - M32; }
  }

  function Signed8(b: byte): int { if b < 128 then b else b - 256 }

  function Signed32(v: u32): int { if v < 0x8000_0000 then v else v - M32 }

  /** The little-endian word made of four bytes, and the four bytes of a word. */
  function Join(b0: byte, b1: byte, b2: byte, b3: byte): u32 {
    b0 + 0x100 * b1 + 0x1_0000 * b2 + 0x100_0000 * b3
  }

  function ByteOf(v: u32, k: nat): byte
    requires k < 4
  {
    if k == 0 then v % 256
    else if k == 1 then (v / 0x100) % 256
    else if k == 2 then (v / 0x1_0000) % 256
    else v / 0x100_0000
  }

  function Bytes(v: u32): (r: seq<byte>)
    ensures |r| == 4
  {
    [ByteOf(v, 0), ByteOf(v, 1), ByteOf(v, 2), ByteOf(v, 3)]
  }

  lemma JoinBytes(v: u32)
    ensures Join(ByteOf(v, 0), ByteOf(v, 1), ByteOf(v, 2), ByteOf(v, 3)) == v
  {
    assert v == v % 256 + 256 * (v / 0x100);
    assert v / 0x100 == (v / 0x100) % 256 + 256 * (v / 0x1_0000);
    assert v / 0x1_0000 == (v / 0x1_0000) % 256 + 256 * (v / 0x100_0000);
  }

  /** A number written as quotient and remainder. */
  lemma Divided256(q: nat, r: nat)
    requires r < 256
    ensures (256 * q + r) / 256 == q && (256 * q + r) % 256 == r
  {}

  lemma Divided65536(q: nat, r: nat)
    requires r < 0x1_0000
    ensures (0x1_0000 * q + r) / 0x1_0000 == q && (0x1_0000 * q + r) % 0x1_0000 == r
  {}

  lemma Divided16M(q: nat, r: nat)
    requires r < 0x100_0000
    ensures (0x100_0000 * q + r) / 0x100_0000 == q
  {}

  lemma BytesJoin(b0: byte, b1: byte, b2: byte, b3: byte)
    ensures var v := Join(b0, b1, b2, b3);
            ByteOf(v, 0) == b0 && ByteOf(v, 1) == b1 && ByteOf(v, 2) == b2 && ByteOf(v, 3) == b3
  {
    var v := Join(b0, b1, b2, b3);
    assert v == 256 * (b1 + 0x100 * b2 + 0x1_0000 * b3) + b0;
    Divided256(b1 + 0x100 * b2 + 0x1_0000 * b3, b0);
    assert b1 + 0x100 * b2 + 0x1_0000 * b3 == 256 * (b2 + 0x100 * b3) + b1;
    Divided256(b2 + 0x100 * b3, b1);
    assert v == 0x1_0000 * (b2 + 0x100 * b3) + (b0 + 0x100 * b1);
    Divided65536(b2 + 0x100 * b3, b0 + 0x100 * b1);
    Divided256(b3, b2);
    Divided16M(b3, b0 + 0x100 * b1 + 0x1_0000 * b2);
  }

  lemma ByteOfByte(b: byte)
    ensures ByteOf(b, 0) == b
  {}

  function Low16(v: u32): u32 { v % 0x1_0000 }

  lemma HalfBytes(v: u32)
    ensures ByteOf(Low16(v), 0) == ByteOf(v, 0) && ByteOf(Low16(v), 1) == ByteOf(v, 1)
  {
    var q, r := v / 0x1_0000, v % 0x1_0000;
    var b1, b0 := r / 256, r % 256;
    assert v == 256 * (256 * q + b1) + b0;
    Divided256(256 * q + b1, b0);
    Divided256(q, b1);
    Divided256(0, b1);
  }

  // ---- Bits ------------------------------------------------------------

  function Pow2(k: nat): (r: nat)
    ensures r > 0
  {
    if k == 0 then 1 else 2 * Pow2(k - 1)
  }

  predicate Bit(x: nat, k: nat) {
    if k == 0 then x % 2 == 1 else Bit(x / 2, k - 1)
  }

  function And(a: nat, b: nat): (r: nat)
    ensures r <= a && r <= b
  {
    if a == 0 || b == 0 then 0 else (if a % 2 == 1 && b % 2 == 1 then 1 else 0) + 2 * And(a / 2, b / 2)
  }

  function Or(a: nat, b: nat): (r: nat)
    ensures a <= r && b <= r
    decreases a + b
  {
    if a == 0 && b == 0 then 0
    else (if a % 2 == 1 || b % 2 == 1 then 1 else 0) + 2 * Or(a / 2, b / 2)
  }

  function Xor(a: nat, b: nat): nat
    decreases a + b
  {
    if a == 0 && b == 0 then 0
    else (if a % 2 != b % 2 then 1 else 0) + 2 * Xor(a / 2, b / 2)
  }

  function Not(a: u32): u32 { U32_MAX - a }

  lemma {:induction false} AndBit(a: nat, b: nat, k: nat)
    ensures Bit(And(a, b), k) == (Bit(a, k) && Bit(b, k))
    decreases k
  {
    if a == 0 || b == 0 {
      ZeroHasNoBits(k);
    } else {
      assert And(a, b) / 2 == And(a / 2, b / 2);
      if k > 0 { AndBit(a / 2, b / 2, k - 1); }
    }
  }

  lemma {:induction false} OrBit(a: nat, b: nat, k: nat)
    ensures Bit(Or(a, b), k) == (Bit(a, k) || Bit(b, k))
    decreases k
  {
    if a == 0 && b == 0 {
      ZeroHasNoBits(k);
    } else {
      assert Or(a, b) / 2 == Or(a / 2, b / 2);
      if k > 0 { OrBit(a / 2, b / 2, k - 1); }
    }
  }

  lemma {:induction false} XorBit(a: nat, b: nat, k: nat)
    ensures Bit(Xor(a, b), k) == (Bit(a, k) != Bit(b, k))
    decreases k
  {
    if a == 0 && b == 0 {
      ZeroHasNoBits(k);
    } else {
      assert Xor(a, b) / 2 == Xor(a / 2, b / 2);
      if k > 0 { XorBit(a / 2, b / 2, k - 1); }
    }
  }

  lemma {:induction false} ZeroHasNoBits(k: nat)
    ensures !Bit(0, k)
  {
    if k > 0 { ZeroHasNoBits(k - 1); }
  }

  lemma {:induction false} NotBit(a: u32, k: nat)
    requires k < 32
    ensures Bit(Not(a), k) == !Bit(a, k)
  {
    Pow2Values();
    ComplementBit(a, 32, k);
  }

  lemma {:induction false} ComplementBit(a: nat, n: nat, k: nat)
    requires k < n && a < Pow2(n)
    ensures Bit(Pow2(n) - 1 - a, k) == !Bit(a, k)
    decreases n
  {
    var c := Pow2(n) - 1 - a;
    assert c / 2 == Pow2(n - 1) - 1 - a / 2;
    if k > 0 { ComplementBit(a / 2, n - 1, k - 1); }
  }

  lemma Pow2Values()
    ensures Pow2(4) == 16 && Pow2(8) == 256 && Pow2(9) == 512 && Pow2(16) == 0x1_0000
    ensures Pow2(31) == 0x8000_0000 && Pow2(32) == 0x1_0000_0000
  {
    assert Pow2(4) == 16;
    assert Pow2(8) == 16 * Pow2(4);
    assert Pow2(12) == 16 * Pow2(8);
    assert Pow2(16) == 16 * Pow2(12);
    assert Pow2(20) == 16 * Pow2(16);
    assert Pow2(24) == 16 * Pow2(20);
    assert Pow2(28) == 16 * Pow2(24);
    assert Pow2(32) == 16 * Pow2(28);
  }

  lemma {:induction false} Pow2Monotone(a: nat, b: nat)
    requires a < b
    ensures Pow2(a) < Pow2(b)
  {
    if a + 1 < b { Pow2Monotone(a, b - 1); }
  }

  lemma BitShift4(x: nat, k: nat)
    ensures Bit(x, k + 4) == Bit(x / 16, k)
  {
    assert Bit(x, k + 4) == Bit(x / 2, k + 3) == Bit(x / 2 / 2, k + 2);
    assert Bit(x / 2 / 2, k + 2) == Bit(x / 2 / 2 / 2, k + 1) == Bit(x / 2 / 2 / 2 / 2, k);
    assert x / 2 / 2 / 2 / 2 == x / 16;
  }

  /** The bits the zero-byte test and the flag formulas look at, as digits. */
  lemma BitDigits(x: u32)
    ensures Bit(x, 4) == ((x / 0x10) % 2 == 1)
    ensures Bit(x, 8) == ((x / 0x100) % 2 == 1)
    ensures Bit(x, 16) == ((x / 0x1_0000) % 2 == 1)
    ensures Bit(x, 24) == ((x / 0x100_0000) % 2 == 1)
    ensures Bit(x, 31) == (x >= 0x8000_0000)
  {
    BitShift4(x, 0);
    BitShift4(x, 4); BitShift4(x / 0x10, 0);
    assert x / 0x10 / 0x10 == x / 0x100;
    BitShift4(x, 12); BitShift4(x / 0x10, 8); BitShift4(x / 0x100, 4); BitShift4(x / 0x1000, 0);
    assert x / 0x100 / 0x10 == x / 0x1000 && x / 0x1000 / 0x10 == x / 0x1_0000;
    BitsAbove16(x);
  }

  lemma Nibble5(x: u32)
    ensures x / 0x10 / 0x10 == x / 0x100 && x / 0x100 / 0x10 == x / 0x1000
    ensures x / 0x1000 / 0x10 == x / 0x1_0000 && x / 0x1_0000 / 0x10 == x / 0x10_0000
  {}

  lemma Nibble7(x: u32)
    ensures x / 0x10_0000 / 0x10 == x / 0x100_0000 && x / 0x100_0000 / 0x10 == x / 0x1000_0000
  {}

  lemma BitsAbove16(x: u32)
    ensures Bit(x, 24) == ((x / 0x100_0000) % 2 == 1)
    ensures Bit(x, 31) == (x >= 0x8000_0000)
  {
    Bit24(x);
    hide Bit;
    BitShift4(x, 27); BitShift4(x / 0x10, 23); BitShift4(x / 0x100, 19);
    BitShift4(x / 0x1000, 15); BitShift4(x / 0x1_0000, 11); BitShift4(x / 0x10_0000, 7);
    BitShift4(x / 0x100_0000, 3);
    Nibble5(x);
    Nibble7(x);
    TopOfNibble(x / 0x1000_0000);
  }

  lemma Bit24(x: u32)
    ensures Bit(x, 24) == ((x / 0x100_0000) % 2 == 1)
  {
    var top := x / 0x100_0000;
    assert Bit(top, 0) == (top % 2 == 1);
    hide Bit;
    BitShift4(x, 20); BitShift4(x / 0x10, 16); BitShift4(x / 0x100, 12);
    BitShift4(x / 0x1000, 8); BitShift4(x / 0x1_0000, 4); BitShift4(x / 0x10_0000, 0);
    Nibble5(x);
    Nibble7(x);
  }

  lemma TopOfNibble(h: nat)
    requires h < 16
    ensures Bit(h, 3) == (h >= 8)
  {
    assert Bit(h, 3) == Bit(h / 2, 2) == Bit(h / 2 / 2, 1) == Bit(h / 2 / 2 / 2, 0);
  }

  /** Two numbers share no bit exactly when their conjunction is zero. */
  lemma {:induction false} AndZero(a: nat, b: nat)
    ensures And(a, b) == 0 ==> forall k: nat :: !(Bit(a, k) && Bit(b, k))
    ensures (forall k: nat :: !(Bit(a, k) && Bit(b, k))) ==> And(a, b) == 0
  {
    if And(a, b) == 0 {
      forall k: nat ensures !(Bit(a, k) && Bit(b, k)) {
        AndBit(a, b, k);
        ZeroHasNoBits(k);
      }
    } else {
      var k := SomeBit(And(a, b));
      AndBit(a, b, k);
    }
  }

  /** A nonzero number has a bit below any power of two that bounds it. */
  lemma {:induction false} SomeBit(x: nat) returns (k: nat)
    requires x > 0
    ensures Bit(x, k)
  {
    if x % 2 == 1 { k := 0; } else { k := SomeBit(x / 2); k := k + 1; }
  }

  lemma {:induction false} BitBound(x: nat, n: nat, k: nat)
    requires x < Pow2(n) && n <= k
    ensures !Bit(x, k)
    decreases n
  {
    if n == 0 {
      ZeroHasNoBits(k);
    } else {
      BitBound(x / 2, n - 1, k - 1);
    }
  }

  lemma {:induction false} XorBound(a: nat, b: nat, n: nat)
    requires a < Pow2(n) && b < Pow2(n)
    ensures Xor(a, b) < Pow2(n)
  {
    if n > 0 && !(a == 0 && b == 0) { XorBound(a / 2, b / 2, n - 1); }
  }

  lemma {:induction false} OrBound(a: nat, b: nat, n: nat)
    requires a < Pow2(n) && b < Pow2(n)
    ensures Or(a, b) < Pow2(n)
  {
    if n > 0 && !(a == 0 && b == 0) { OrBound(a / 2, b / 2, n - 1); }
  }

  lemma AndStep(a: nat, b: nat)
    ensures And(a, b) == (if a % 2 == 1 && b % 2 == 1 then 1 else 0) + 2 * And(a / 2, b / 2)
  {}

  function Both(a: nat, b: nat): nat { if a == 1 && b == 1 then 1 else 0 }

  lemma AndDigit(a: nat, p: nat, b: nat, q: nat)
    requires a < 2 && b < 2
    ensures And(a + 2 * p, b + 2 * q) == Both(a, b) + 2 * And(p, q)
  {
    AndStep(a + 2 * p, b + 2 * q);
    assert (a + 2 * p) / 2 == p && (b + 2 * q) / 2 == q;
  }

  lemma AndOneDigit(a: nat, b: nat)
    requires a < 2 && b < 2
    ensures And(a, b) == Both(a, b)
  {
    AndDigit(a, 0, b, 0);
  }

  lemma AndTwoDigits(a0: nat, a1: nat, p: nat, b0: nat, b1: nat, q: nat)
    requires a0 < 2 && a1 < 2 && b0 < 2 && b1 < 2
    ensures And(a0 + 2 * (a1 + 2 * p), b0 + 2 * (b1 + 2 * q)) == And(a0 + 2 * a1, b0 + 2 * b1) + 4 * And(p, q)
  {
    hide And, Both;
    AndOneDigit(a1, b1);
    AndDigit(a1, p, b1, q);
    AndDigit(a0, a1, b0, b1);
    var s, t := a1 + 2 * p, b1 + 2 * q;
    AndDigit(a0, s, b0, t);
    assert And(s, t) == Both(a1, b1) + 2 * And(p, q);
  }

  /** Conjunction works separately on the digits of a power-of-two base. */
  lemma AndDigit4(a: nat, p: nat, b: nat, q: nat)
    requires a < 4 && b < 4
    ensures And(a + 4 * p, b + 4 * q) == And(a, b) + 4 * And(p, q)
  {
    hide And;
    var a0, a1, b0, b1 := a % 2, a / 2, b % 2, b / 2;
    assert a == a0 + 2 * a1 && b == b0 + 2 * b1;
    assert a + 4 * p == a0 + 2 * (a1 + 2 * p) && b + 4 * q == b0 + 2 * (b1 + 2 * q);
    AndTwoDigits(a0, a1, p, b0, b1, q);
  }

  lemma AndDigit16(a: nat, p: nat, b: nat, q: nat)
    requires a < 16 && b < 16
    ensures And(a + 16 * p, b + 16 * q) == And(a, b) + 16 * And(p, q)
  {
    hide And;
    var a0, a1, b0, b1 := a % 4, a / 4, b % 4, b / 4;
    assert a == a0 + 4 * a1 && b == b0 + 4 * b1;
    AndDigit4(a0, a1 + 4 * p, b0, b1 + 4 * q);
    AndDigit4(a1, p, b1, q);
    AndDigit4(a0, a1, b0, b1);
  }

  lemma AndSplit8(x: nat, lo: nat, hi: nat)
    requires lo < 256
    ensures And(x, lo + 256 * hi) == And(x % 256, lo) + 256 * And(x / 256, hi)
  {
    hide And;
    var a, p := x % 256, x / 256;
    var a0, a1, b0, b1 := a % 16, a / 16, lo % 16, lo / 16;
    assert a == a0 + 16 * a1 && lo == b0 + 16 * b1 && x == a + 256 * p;
    AndDigit16(a0, a1 + 16 * p, b0, b1 + 16 * hi);
    AndDigit16(a1, p, b1, hi);
    AndDigit16(a0, a1, b0, b1);
  }

  lemma Nibbles(x: nat)
    ensures x / 16 / 16 == x / 256 && x % 256 % 16 == x % 16 && x % 256 / 16 == x / 16 % 16
  {}

  /** The low k bits of x, and x without them. */
  function LowBits(x: nat, k: nat): (r: nat)
    ensures r <= x && r < Pow2(k)
  {
    if k == 0 then 0 else x % 2 + 2 * LowBits(x / 2, k - 1)
  }

  function HighBits(x: nat, k: nat): nat {
    if k == 0 then x else HighBits(x / 2, k - 1)
  }

  lemma {:induction false} AndLowMask(x: nat, k: nat)
    ensures And(x, Pow2(k) - 1) == LowBits(x, k)
  {
    hide And, Pow2, LowBits;
    Pow2Step(k);
    LowBitsStep(x, k);
    if k == 0 {
      AndNothing(x);
    } else {
      AndLowMask(x / 2, k - 1);
      AndDigit(x % 2, x / 2, 1, Pow2(k - 1) - 1);
      assert Pow2(k) - 1 == 1 + 2 * (Pow2(k - 1) - 1);
    }
  }

  lemma {:induction false} AndOnes(x: nat, n: nat)
    requires x < Pow2(n)
    ensures And(x, Pow2(n) - 1) == x
  {
    if n > 0 {
      AndOnes(x / 2, n - 1);
      AndStep(x, Pow2(n) - 1);
      hide And;
      assert Pow2(n) == 2 * Pow2(n - 1);
      assert (Pow2(n) - 1) / 2 == Pow2(n - 1) - 1 && (Pow2(n) - 1) % 2 == 1;
      assert x == 2 * (x / 2) + x % 2;
    }
  }

  lemma HighMaskStep(x: nat, mask: nat, low: nat)
    requires And(x / 2, mask) == x / 2 - low
    ensures And(x, 2 * mask) == x - (x % 2 + 2 * low)
  {
    hide And;
    AndDigit(x % 2, x / 2, 0, mask);
  }

  /** Clearing the low k bits with the complement of 2^k - 1. */
  lemma Pow2Step(k: nat)
    ensures k == 0 ==> Pow2(k) == 1
    ensures k > 0 ==> Pow2(k) == 2 * Pow2(k - 1)
  {}

  lemma LowBitsStep(x: nat, k: nat)
    ensures k == 0 ==> LowBits(x, k) == 0
    ensures k > 0 ==> LowBits(x, k) == x % 2 + 2 * LowBits(x / 2, k - 1)
  {}

  lemma {:induction false} AndHighMask(x: nat, n: nat, k: nat)
    requires k <= n && x < Pow2(n)
    ensures Pow2(k) <= Pow2(n)
    ensures And(x, Pow2(n) - Pow2(k)) == x - LowBits(x, k)
    decreases k
  {
    hide And, Pow2, LowBits;
    Pow2Step(k);
    Pow2Step(n);
    LowBitsStep(x, k);
    if k == 0 {
      AndOnes(x, n);
    } else {
      AndHighMask(x / 2, n - 1, k - 1);
      HighMaskStep(x, Pow2(n - 1) - Pow2(k - 1), LowBits(x / 2, k - 1));
    }
  }

  lemma Doubled(a: int, b: int)
    ensures a * (2 * b) == 2 * (a * b)
  {}

  lemma {:induction false} WithoutLowBits(x: nat, k: nat)
    ensures x - LowBits(x, k) == HighBits(x, k) * Pow2(k)
  {
    if k > 0 {
      WithoutLowBits(x / 2, k - 1);
      Doubled(HighBits(x / 2, k - 1), Pow2(k - 1));
    }
  }

  /** n & (n - 1) is zero for exactly the powers of two (and for zero). */
  lemma {:induction false} PowerOfTwo(n: nat) returns (k: nat)
    requires n > 0 && And(n, n - 1) == 0
    ensures n == Pow2(k)
  {
    if n == 1 {
      k := 0;
    } else {
      AndStep(n, n - 1);
      if n % 2 == 1 {
        assert (n - 1) / 2 == n / 2;
        AndSelf(n / 2);
        assert false;
      }
      assert (n - 1) / 2 == n / 2 - 1;
      k := PowerOfTwo(n / 2);
      k := k + 1;
    }
  }

  lemma {:induction false} AndSelf(n: nat)
    ensures And(n, n) == n
  {
    if n > 0 { AndSelf(n / 2); }
  }

  lemma AndThree(x: nat)
    ensures And(x, 3) == x % 4
  {
    assert x == x % 4 + 4 * (x / 4);
    AndDigit4(x % 4, x / 4, 3, 0);
    assert And(x / 4, 0) == 0;
    var a := x % 4;
    AndDigit(a % 2, a / 2, 1, 1);
    AndDigit(a / 2, 0, 1, 0);
    hide And;
  }

  /** Testing the third or the fourth byte of a word. */
  lemma AndByte2(x: u32)
    ensures And(x, 0x00ff_0000) == 0 <==> ByteOf(x, 2) == 0
  {
    hide And;
    var y := x / 256;
    var z := y / 256;
    AndSplit8(x, 0, 0xff00);
    AndSplit8(y, 0, 0xff);
    AndNothing(x % 256);
    AndNothing(y % 256);
    AndFf(z);
    ByteShifts(x);
  }

  lemma AndByte3(x: u32)
    ensures And(x, 0xff00_0000) == 0 <==> ByteOf(x, 3) == 0
  {
    hide And;
    var y := x / 256;
    var z := y / 256;
    var w := z / 256;
    AndSplit8(x, 0, 0xff_0000);
    AndSplit8(y, 0, 0xff00);
    AndSplit8(z, 0, 0xff);
    AndNothing(x % 256);
    AndNothing(y % 256);
    AndNothing(z % 256);
    AndFf(w);
    ByteShifts(x);
  }

  lemma AndNothing(x: nat)
    ensures And(x, 0) == 0
  {}

  lemma AndFf(y: nat)
    ensures And(y, 0xff) == y % 256
  {
    Pow2Values();
    AndLowMask(y, 8);
    LowByte(y);
  }

  lemma ByteShifts(x: u32)
    ensures x / 256 / 256 % 256 == ByteOf(x, 2)
    ensures x / 256 / 256 / 256 % 256 == ByteOf(x, 3)
  {
    assert x / 256 / 256 == x / 0x1_0000;
    assert x / 256 / 256 / 256 == x / 0x100_0000;
  }

  lemma LowNibble(x: nat, k: nat)
    ensures LowBits(x, k + 4) == x % 16 + 16 * LowBits(x / 16, k)
  {
    assert LowBits(x, k + 4) == x % 2 + 2 * LowBits(x / 2, k + 3);
    assert LowBits(x / 2, k + 3) == x / 2 % 2 + 2 * LowBits(x / 2 / 2, k + 2);
    assert LowBits(x / 2 / 2, k + 2) == x / 2 / 2 % 2 + 2 * LowBits(x / 2 / 2 / 2, k + 1);
    assert LowBits(x / 2 / 2 / 2, k + 1) == x / 2 / 2 / 2 % 2 + 2 * LowBits(x / 2 / 2 / 2 / 2, k);
    assert x / 2 / 2 / 2 / 2 == x / 16;
  }

  lemma LowByte(x: nat)
    ensures LowBits(x, 8) == x % 256
  {
    LowNibble(x, 4);
    LowNibble(x / 16, 0);
    Nibbles(x);
  }

  lemma {:induction false} OrDisjoint(a: nat, b: nat)
    requires And(a, b) == 0
    ensures Or(a, b) == a + b
    decreases a + b
  {
    if a == 0 || b == 0 {
      OrZero(a); OrZero(b);
    } else {
      OrDisjoint(a / 2, b / 2);
    }
  }

  lemma {:induction false} OrZero(a: nat)
    ensures Or(a, 0) == a && Or(0, a) == a
  {
    if a > 0 { OrZero(a / 2); }
  }

  /** The masks that keep the upper 24 or 16 bits. */
  lemma ClearLow8(x: u32)
    ensures And(x, 0xffff_ff00) == x - x % 256
  {
    Pow2Values();
    AndHighMask(x, 32, 8);
    LowByte(x);
  }

  lemma ClearLow16(x: u32)
    ensures And(x, 0xffff_0000) == x - x % 0x1_0000
  {
    hide And;
    AndSplit8(x, 0, 0xff_ff00);
    AndNothing(x % 256);
    AndSmaller(x / 256);
    TwoLowBytes(x);
  }

  lemma TwoLowBytes(x: u32)
    ensures 256 * (x / 256 - x / 256 % 256) == x - x % 0x1_0000
  {
    assert x / 256 / 256 == x / 0x1_0000;
  }

  lemma AndSmaller(y: u32)
    requires y < 0x100_0000
    ensures And(y, 0xff_ff00) == y - y % 256
  {
    Pow2Values();
    assert Pow2(24) == 256 * Pow2(16) by {
      assert Pow2(24) == 16 * Pow2(20);
      assert Pow2(20) == 16 * Pow2(16);
    }
    AndHighMask(y, 24, 8);
    LowByte(y);
  }

  /** Replacing the low byte of a register. */
  lemma LowByteReplaced(v: u32, b: byte)
    ensures 0 <= v - v % 256 + b < M32 && ByteOf(v - v % 256 + b, 0) == b
  {}

  function Clear8(v: u32): u32 { v - v % 256 }

  lemma Clear8Kept(v: u32, b: byte)
    ensures 0 <= v - v % 256 + b < M32 && Clear8(v - v % 256 + b) == Clear8(v)
    ensures b == 0 ==> v - v % 256 + b == Clear8(v)
  {}

  /** The number of one bits among the low n bits (the source's parity loops). */
  function Ones(v: nat, n: nat): nat {
    if n == 0 then 0 else v % 2 + Ones(v / 2, n - 1)
  }

  predicate EvenParity(v: nat) { Ones(v, 8) % 2 == 0 }
}
