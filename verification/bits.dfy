/** Masks and shifts as the program writes them.

    Bitwise operators on numbers, position by position, and the remainders, quotients and sums
    that the masks of the simulator amount to. */
module Bits {
  import opened Words

  function Pow2(i: nat): (p: nat)
    ensures p > 0
  {
    if i == 0 then 1 else 2 * Pow2(i - 1)
  }

  /** Applies `f` to the lowest `n` bits of both numbers, position by position. */
  function Bitwise(f: (bool, bool) -> bool, a: nat, b: nat, n: nat): nat {
    if n == 0 then 0
    else 2 * Bitwise(f, a / 2, b / 2, n - 1) + (if f(a % 2 == 1, b % 2 == 1) then 1 else 0)
  }

  const BOTH: (bool, bool) -> bool := (x: bool, y: bool) => x && y
  const EITHER: (bool, bool) -> bool := (x: bool, y: bool) => x || y
  const DIFFER: (bool, bool) -> bool := (x: bool, y: bool) => x != y

  /** `a & b` in `n` bits. */
  function BitAnd(a: nat, b: nat, n: nat): nat {
    Bitwise(BOTH, a, b, n)
  }

  /** `a | b` in `n` bits. */
  function BitOr(a: nat, b: nat, n: nat): nat {
    Bitwise(EITHER, a, b, n)
  }

  /** `a ^ b` in `n` bits. */
  function BitXor(a: nat, b: nat, n: nat): nat {
    Bitwise(DIFFER, a, b, n)
  }

  /** `~a` in 32 bits. */
  function BitNot(a: u32): u32 {
    0xFFFF_FFFF - a
  }

  /** `a >> k`. */
  function ShiftRight(a: nat, k: nat): nat {
    QuotientSign(a, Pow2(k));
    a / Pow2(k)
  }

  lemma {:induction false} QuotientSign(a: int, p: int)
    requires a >= 0 && p > 0
    ensures a / p >= 0
  {
    var q := a / p;
    assert a == p * q + a % p;
    assert q < 0 ==> p * q <= -p;
  }

  /** `a << k`. */
  function ShiftLeft(a: nat, k: nat): nat {
    a * Pow2(k)
  }

  predicate Bit(v: nat, i: nat) {
    ShiftRight(v, i) % 2 == 1
  }

  // ---------- position by position ----------

  lemma {:induction false} Quotient(v: nat, d: nat, q: nat, r: nat)
    requires d > 0 && v == q * d + r && r < d
    ensures v / d == q && v % d == r
  {
    var e := v / d - q;
    assert e * d == r - v % d;
  }

  lemma {:induction false} HalfShr(v: nat, i: nat)
    ensures ShiftRight(v, i + 1) == ShiftRight(v / 2, i)
  {
    var p := Pow2(i);
    var q, r, b := v / 2 / p, v / 2 % p, v % 2;
    assert v == q * (2 * p) + (2 * r + b) && 0 <= 2 * r + b < 2 * p;
    Quotient(v, 2 * p, q, 2 * r + b);
  }

  lemma {:induction false} LowBit(v: nat)
    ensures Bit(v, 0) <==> v % 2 == 1
  {
  }

  lemma {:induction false} ZeroBit(i: nat)
    ensures !Bit(0, i)
  {
    Quotient(0, Pow2(i), 0, 0);
  }

  /** A bitwise operator reaches no position beyond the last. */
  lemma {:induction false} BitwiseBits(f: (bool, bool) -> bool, a: nat, b: nat, n: nat, i: nat)
    ensures Bit(Bitwise(f, a, b, n), i) == (i < n && f(Bit(a, i), Bit(b, i)))
    decreases n
  {
    hide ShiftRight;
    var w := Bitwise(f, a, b, n);
    if n == 0 {
      ZeroBit(i);
    } else if i == 0 {
      LowBit(w);
      LowBit(a);
      LowBit(b);
    } else {
      assert w / 2 == Bitwise(f, a / 2, b / 2, n - 1);
      HalfShr(w, i - 1);
      HalfShr(a, i - 1);
      HalfShr(b, i - 1);
      BitwiseBits(f, a / 2, b / 2, n - 1, i - 1);
    }
  }

  lemma {:induction false} BitwiseFits(f: (bool, bool) -> bool, a: nat, b: nat, n: nat)
    ensures Bitwise(f, a, b, n) < Pow2(n)
    decreases n
  {
    if n > 0 {
      BitwiseFits(f, a / 2, b / 2, n - 1);
    }
  }

  lemma {:induction false} Powers()
    ensures Pow2(0) == 1 && Pow2(1) == 2 && Pow2(2) == 4 && Pow2(3) == 8 && Pow2(4) == 16 && Pow2(7) == 128
    ensures Pow2(8) == 0x100
    ensures Pow2(16) == 0x1_0000 && Pow2(24) == 0x100_0000 && Pow2(32) == TWO32
  {
    assert Pow2(4) == 16 && Pow2(8) == 0x100;
    assert Pow2(12) == 0x1000 && Pow2(16) == 0x1_0000;
    assert Pow2(20) == 0x10_0000 && Pow2(24) == 0x100_0000 && Pow2(28) == 0x1000_0000;
  }

  // ---------- masks as remainders ----------

  lemma {:induction false} HalfRemainder(a: nat, k: nat)
    ensures a % Pow2(k + 1) == 2 * (a / 2 % Pow2(k)) + a % 2
  {
    var p := Pow2(k);
    var q, r := a / 2 / p, a / 2 % p;
    assert a == q * (2 * p) + (2 * r + a % 2) && 0 <= 2 * r + a % 2 < 2 * p;
    Quotient(a, 2 * p, q, 2 * r + a % 2);
  }

  /** A mask of low ones takes the remainder. */
  lemma {:induction false} LowMask(a: nat, k: nat, n: nat)
    requires k <= n
    ensures BitAnd(a, Pow2(k) - 1, n) == a % Pow2(k)
    decreases k
  {
    hide BitAnd;
    if k == 0 {
      AndZero(a, n);
    } else {
      assert (Pow2(k) - 1) / 2 == Pow2(k - 1) - 1 && (Pow2(k) - 1) % 2 == 1;
      AndStep(a, Pow2(k) - 1, n);
      LowMask(a / 2, k - 1, n - 1);
      HalfRemainder(a, k - 1);
    }
  }

  lemma {:induction false} AndStep(a: nat, b: nat, n: nat)
    requires n > 0
    ensures BitAnd(a, b, n) == 2 * BitAnd(a / 2, b / 2, n - 1) + (if a % 2 == 1 && b % 2 == 1 then 1 else 0)
  {
  }

  lemma {:induction false} AndZero(a: nat, n: nat)
    ensures BitAnd(a, 0, n) == 0
    decreases n
  {
    if n > 0 {
      AndZero(a / 2, n - 1);
    }
  }

  lemma {:induction false} OrZero(a: nat, n: nat)
    ensures BitOr(a, 0, n) == a % Pow2(n) && BitOr(0, a, n) == a % Pow2(n)
    decreases n
  {
    if n > 0 {
      OrZero(a / 2, n - 1);
      HalfRemainder(a, n - 1);
    }
  }

  /** Fields that do not overlap are added. */
  lemma {:induction false} OrFields(a: nat, b: nat, k: nat, n: nat)
    requires k <= n && b < Pow2(k) && a < Pow2(n - k)
    ensures BitOr(a * Pow2(k), b, n) == a * Pow2(k) + b
    decreases k
  {
    hide BitOr;
    if k == 0 {
      OrZero(a, n);
      Quotient(a, Pow2(n), 0, a);
      assert b == 0 && a * Pow2(0) == a;
    } else {
      var x := a * Pow2(k - 1);
      assert a * Pow2(k) == 2 * x;
      OrDouble(x, b, n);
      OrFields(a, b / 2, k - 1, n - 1);
    }
  }

  lemma {:induction false} OrDouble(x: nat, b: nat, n: nat)
    requires n > 0
    ensures BitOr(2 * x, b, n) == 2 * BitOr(x, b / 2, n - 1) + b % 2
  {
    assert 2 * x / 2 == x && 2 * x % 2 == 0;
  }

  lemma {:induction false} OrCommutes(a: nat, b: nat, n: nat)
    ensures BitOr(a, b, n) == BitOr(b, a, n)
    decreases n
  {
    if n > 0 {
      OrCommutes(a / 2, b / 2, n - 1);
    }
  }

  /** Masking with a power of two tests one bit. */
  lemma {:induction false} TestBit(a: nat, i: nat, n: nat)
    requires i < n
    ensures BitAnd(a, Pow2(i), n) != 0 <==> Bit(a, i)
    decreases i
  {
    hide ShiftRight;
    if i == 0 {
      AndZero(a / 2, n - 1);
      LowBit(a);
    } else {
      TestBit(a / 2, i - 1, n - 1);
      HalfShr(a, i - 1);
    }
  }

  lemma {:induction false} OnesKeep(a: nat, n: nat)
    requires a < Pow2(n)
    ensures BitAnd(a, Pow2(n) - 1, n) == a && BitOr(a, 0, n) == a
  {
    hide BitAnd, BitOr;
    LowMask(a, n, n);
    OrZero(a, n);
    Quotient(a, Pow2(n), 0, a);
  }

  /** The masks the decoders use. */
  lemma {:induction false} ByteFields(b: byte)
    ensures BitAnd(b, 0x0f, 32) == b % 16 && BitAnd(ShiftRight(b, 4), 0x0f, 32) == b / 16
    ensures BitAnd(b, 0x7f, 32) == b % 128
    ensures BitAnd(b, 0x80, 32) != 0 <==> b >= 128
  {
    hide Bitwise;
    Powers();
    LowMask(b, 4, 32);
    LowMask(b / 16, 4, 32);
    LowMask(b, 7, 32);
    TestBit(b, 7, 32);
  }

  // ---------- the low three bits ----------

  /** A bitwise operator on the three lowest bits and on the rest. */
  lemma {:induction false} LowThree(f: (bool, bool) -> bool, a: nat, b: nat, n: nat)
    requires n >= 3
    ensures var w := Bitwise(f, a, b, n);
      && (w % 2 == 1) == f(a % 2 == 1, b % 2 == 1) && (w / 2 % 2 == 1) == f(a / 2 % 2 == 1, b / 2 % 2 == 1)
      && (w / 4 % 2 == 1) == f(a / 4 % 2 == 1, b / 4 % 2 == 1) && w / 8 == Bitwise(f, a / 8, b / 8, n - 3)
  {
    var w1, w2 := Bitwise(f, a / 2, b / 2, n - 1), Bitwise(f, a / 4, b / 4, n - 2);
    assert a / 2 / 2 == a / 4 && b / 2 / 2 == b / 4 && a / 4 / 2 == a / 8 && b / 4 / 2 == b / 8;
    assert Bitwise(f, a, b, n) / 2 == w1 && w1 / 2 == w2;
  }

  lemma {:induction false} NotLowThree(m: nat)
    requires m < 8
    ensures var v := BitNot(m);
      && (v % 2 == 1 <==> m % 2 == 0) && (v / 2 % 2 == 1 <==> m / 2 % 2 == 0) && (v / 4 % 2 == 1 <==> m / 4 % 2 == 0)
      && v / 8 == 0x1FFF_FFFF && m / 8 == 0
  {
  }

  /** Clearing some of the three lowest bits of a word. */
  lemma {:induction false} ClearLowThree(w: u32, m: nat)
    requires m < 8
    ensures var v := BitAnd(w, BitNot(m), 32);
      && (v % 2 == 1 <==> w % 2 == 1 && m % 2 == 0) && (v / 2 % 2 == 1 <==> w / 2 % 2 == 1 && m / 2 % 2 == 0)
      && (v / 4 % 2 == 1 <==> w / 4 % 2 == 1 && m / 4 % 2 == 0) && v / 8 == w / 8 && v < TWO32
  {
    hide Bitwise, Pow2, BitNot;
    LowThree(BOTH, w, BitNot(m), 32);
    NotLowThree(m);
    Power29();
    OnesKeep(w / 8, 29);
    BitwiseFits(BOTH, w, BitNot(m), 32);
    Powers();
  }

  /** Setting some of them. */
  lemma {:induction false} SetLowThree(w: u32, m: nat)
    requires m < 8
    ensures var v := BitOr(w, m, 32);
      && (v % 2 == 1 <==> w % 2 == 1 || m % 2 == 1) && (v / 2 % 2 == 1 <==> w / 2 % 2 == 1 || m / 2 % 2 == 1)
      && (v / 4 % 2 == 1 <==> w / 4 % 2 == 1 || m / 4 % 2 == 1) && v / 8 == w / 8 && v < TWO32
  {
    hide Bitwise, Pow2, BitNot;
    LowThree(EITHER, w, m, 32);
    NotLowThree(m);
    Power29();
    OnesKeep(w / 8, 29);
    BitwiseFits(EITHER, w, m, 32);
    Powers();
  }

  lemma {:induction false} Power29()
    ensures Pow2(29) == 0x2000_0000
  {
    Powers();
    assert Pow2(26) == 4 * Pow2(24) && Pow2(28) == 4 * Pow2(26);
  }
}
