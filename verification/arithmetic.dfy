/** What the operators compute, told by how results relate to operands. */
module Arithmetic {
  import opened Words
  import opened Bits
  import opened Machine
  import Ssa

  ghost predicate IsSum(v: u32, a: u32, b: u32) {
    (v - a - b) % 0x1_0000_0000 == 0
  }

  ghost predicate IsDifference(v: u32, a: u32, b: u32) {
    (v + b - a) % 0x1_0000_0000 == 0
  }

  ghost predicate IsProduct(v: u32, a: int, b: int) {
    (v - a * b) % 0x1_0000_0000 == 0
  }

  ghost predicate IsQuotient(v: u32, a: u32, b: u32) {
    v * b <= a < v * b + b
  }

  ghost predicate IsRemainder(v: u32, a: u32, b: u32) {
    v < b && exists q: nat :: a == q * b + v
  }

  ghost predicate IsAnd(v: u32, a: u32, b: u32) {
    forall i :: 0 <= i < 32 ==> (Bit(v, i) <==> Bit(a, i) && Bit(b, i))
  }

  ghost predicate IsXor(v: u32, a: u32, b: u32) {
    forall i :: 0 <= i < 32 ==> (Bit(v, i) <==> Bit(a, i) != Bit(b, i))
  }

  ghost predicate IsOr(v: u32, a: u32, b: u32) {
    forall i :: 0 <= i < 32 ==> (Bit(v, i) <==> Bit(a, i) || Bit(b, i))
  }

  /** Bit `i` was bit `i - b`, and the low ones are clear. */
  ghost predicate IsShiftedLeft(v: u32, a: u32, b: u32) {
    forall i :: 0 <= i < 32 ==> (Bit(v, i) <==> b <= i && Bit(a, i - b))
  }

  /** Bit `i` was bit `i + b`. */
  ghost predicate IsShiftedRight(v: u32, a: u32, b: u32) {
    forall i :: 0 <= i < 32 ==> (Bit(v, i) <==> Bit(a, i + b))
  }

  /** What the operator written `e` makes of `a` and `b`; the host decides where the language leaves
      it undefined. */
  ghost predicate Denotes(host: Host, e: string, a: u32, b: u32, v: u32) {
    match e
    case "+" => IsSum(v, a, b)
    case "-" => IsDifference(v, a, b)
    case "*" => IsProduct(v, a, b)
    case "/" => if b == 0 then v == host(Ssa.Div, a, b) else IsQuotient(v, a, b)
    case "%" => if b == 0 then v == host(Ssa.Rem, a, b) else IsRemainder(v, a, b)
    case "&" => IsAnd(v, a, b)
    case "^" => IsXor(v, a, b)
    case "|" => IsOr(v, a, b)
    case "<<" => if b >= 32 then v == host(Ssa.LShift, a, b) else IsShiftedLeft(v, a, b)
    case ">>" => if b >= 32 then v == host(Ssa.RShift, a, b) else IsShiftedRight(v, a, b)
    case _ => false
  }

  // ---------- sums and products ----------

  lemma {:induction false} WrapNear(x: int)
    ensures (Wrap(x) - x) % 0x1_0000_0000 == 0
  {
  }

  lemma {:induction false} Quotients(a: u32, b: u32)
    requires b > 0
    ensures IsQuotient(a / b, a, b) && IsRemainder(a % b, a, b)
  {
    var q, r := a / b, a % b;
    assert a == q * b + r;
    QuotientSign(a, b);
  }

  // ---------- shifts ----------

  lemma {:induction false} OnesBit(n: nat, i: nat)
    requires i < n
    ensures Bit(Pow2(n) - 1, i)
    decreases n
  {
    hide Bit;
    var v: nat := Pow2(n) - 1;
    assert v / 2 == Pow2(n - 1) - 1 && v % 2 == 1;
    if i == 0 {
      LowBit(v);
    } else {
      OnesBit(n - 1, i - 1);
      HalfBit(v, i - 1);
    }
  }

  lemma {:induction false} HalfBit(v: nat, i: nat)
    ensures Bit(v, i + 1) <==> Bit(v / 2, i)
  {
    HalfShr(v, i);
  }

  /** Cutting to 32 bits keeps them. */
  lemma {:induction false} WrapBit(x: nat, i: nat)
    requires i < 32
    ensures Bit(Wrap(x), i) <==> Bit(x, i)
  {
    hide Bit, Bitwise, Pow2;
    Powers();
    LowMask(x, 32, 32);
    BitwiseBits(BOTH, x, Pow2(32) - 1, 32, i);
    OnesBit(32, i);
  }

  lemma {:induction false} LeftBit(a: nat, b: nat, i: nat)
    ensures Bit(a * Pow2(b), i) <==> b <= i && Bit(a, i - b)
    decreases b
  {
    hide Bit;
    if b == 0 {
      assert a * Pow2(0) == a;
    } else {
      var x := a * Pow2(b - 1);
      assert a * Pow2(b) == 2 * x;
      if i == 0 {
        LowBit(2 * x);
      } else {
        HalfBit(2 * x, i - 1);
        LeftBit(a, b - 1, i - 1);
      }
    }
  }

  lemma {:induction false} RightBit(a: nat, b: nat, i: nat)
    ensures Bit(ShiftRight(a, b), i) <==> Bit(a, i + b)
    decreases b
  {
    hide Bit, ShiftRight;
    if b == 0 {
      NoShift(a);
    } else {
      HalfShr(a, b - 1);
      RightBit(a / 2, b - 1, i);
      HalfBit(a, i + b - 1);
    }
  }

  lemma {:induction false} NoShift(a: nat)
    ensures ShiftRight(a, 0) == a
  {
  }

  lemma {:induction false} ShiftsMean(host: Host, a: u32, b: u32)
    requires b < 32
    ensures IsShiftedLeft(Alu(host, Ssa.LShift, a, b), a, b)
    ensures IsShiftedRight(Alu(host, Ssa.RShift, a, b), a, b)
  {
    hide Bit, Pow2;
    var x, y: nat := a * Pow2(b), ShiftRight(a, b);
    forall i | 0 <= i < 32
      ensures Bit(Alu(host, Ssa.LShift, a, b), i) <==> b <= i && Bit(a, i - b)
      ensures Bit(Alu(host, Ssa.RShift, a, b), i) <==> Bit(a, i + b)
    {
      WrapBit(x, i);
      LeftBit(a, b, i);
      WrapBit(y, i);
      RightBit(a, b, i);
    }
  }

  // ---------- the ten operators ----------

  lemma {:induction false} BitsMean(host: Host, a: u32, b: u32)
    ensures IsAnd(Alu(host, Ssa.And, a, b), a, b) && IsXor(Alu(host, Ssa.Xor, a, b), a, b)
    ensures IsOr(Alu(host, Ssa.Or, a, b), a, b)
  {
    hide Bit, Alu;
    forall i | 0 <= i < 32
      ensures Bit(Alu(host, Ssa.And, a, b), i) <==> Bit(a, i) && Bit(b, i)
      ensures Bit(Alu(host, Ssa.Xor, a, b), i) <==> Bit(a, i) != Bit(b, i)
      ensures Bit(Alu(host, Ssa.Or, a, b), i) <==> Bit(a, i) || Bit(b, i)
    {
      AluBits(host, a, b, i);
    }
  }

  lemma {:induction false} SumsMean(host: Host, a: u32, b: u32)
    ensures IsSum(Alu(host, Ssa.Add, a, b), a, b) && IsDifference(Alu(host, Ssa.Sub, a, b), a, b)
    ensures IsProduct(Alu(host, Ssa.Mul, a, b), a, b)
  {
    WrapNear(a + b);
    WrapNear(a - b);
    WrapNear(a * b);
  }

  lemma {:induction false} QuotientsMean(host: Host, a: u32, b: u32)
    ensures var q, r := Alu(host, Ssa.Div, a, b), Alu(host, Ssa.Rem, a, b);
      if b == 0 then q == host(Ssa.Div, a, b) && r == host(Ssa.Rem, a, b)
      else IsQuotient(q, a, b) && IsRemainder(r, a, b)
  {
    hide IsQuotient, IsRemainder;
    if b > 0 {
      Quotients(a, b);
    }
  }

  /** The character string an operator is written as in the source language. */
  ghost function Written(op: Ssa.BinOp): string {
    match op
    case Add => "+"
    case Sub => "-"
    case Mul => "*"
    case Div => "/"
    case Rem => "%"
    case LShift => "<<"
    case RShift => ">>"
    case And => "&"
    case Xor => "^"
    case Or => "|"
  }

  /** The machine computes what each operator denotes. */
  lemma {:induction false} AluDenotes(host: Host, op: Ssa.BinOp, a: u32, b: u32)
    ensures Denotes(host, Written(op), a, b, Alu(host, op, a, b))
  {
    hide IsSum, IsDifference, IsProduct, IsQuotient, IsRemainder, IsAnd, IsXor, IsOr, IsShiftedLeft, IsShiftedRight;
    SumsMean(host, a, b);
    QuotientsMean(host, a, b);
    BitsMean(host, a, b);
    if b < 32 {
      ShiftsMean(host, a, b);
    }
  }

  // ---------- one value each ----------

  lemma {:induction false} SameBits(v: nat, w: nat, n: nat)
    requires v < Pow2(n) && w < Pow2(n) && forall i :: 0 <= i < n ==> (Bit(v, i) <==> Bit(w, i))
    ensures v == w
    decreases n
  {
    hide Bit;
    if n > 0 {
      LowBit(v);
      LowBit(w);
      forall i | 0 <= i < n - 1
        ensures Bit(v / 2, i) <==> Bit(w / 2, i)
      {
        HalfBit(v, i);
        HalfBit(w, i);
      }
      SameBits(v / 2, w / 2, n - 1);
    }
  }

  lemma {:induction false} SameWord(v: u32, w: u32)
    requires forall i :: 0 <= i < 32 ==> (Bit(v, i) <==> Bit(w, i))
    ensures v == w
  {
    hide Bit, Pow2;
    Powers();
    SameBits(v, w, 32);
  }

  lemma {:induction false} SameQuotient(v: u32, w: u32, a: u32, b: u32)
    requires IsQuotient(v, a, b) && IsQuotient(w, a, b)
    ensures v == w
  {
    Quotient(a, b, v, a - v * b);
    Quotient(a, b, w, a - w * b);
  }

  lemma {:induction false} SameRemainder(v: u32, w: u32, a: u32, b: u32)
    requires IsRemainder(v, a, b) && IsRemainder(w, a, b)
    ensures v == w
  {
    var p: nat :| a == p * b + v;
    var q: nat :| a == q * b + w;
    Quotient(a, b, p, v);
    Quotient(a, b, q, w);
  }

  lemma {:induction false} SameSum(v: u32, w: u32, x: int)
    requires (v - x) % 0x1_0000_0000 == 0 && (w - x) % 0x1_0000_0000 == 0
    ensures v == w
  {
  }

  /** What is denoted is one value. */
  lemma {:induction false} DenotesOne(host: Host, e: string, a: u32, b: u32, v: u32, w: u32)
    requires Denotes(host, e, a, b, v) && Denotes(host, e, a, b, w)
    ensures v == w
  {
    hide Bit;
    match e
    case "+" => SameSum(v, w, a + b);
    case "-" => SameSum(v, w, a - b);
    case "*" => SameSum(v, w, a * b);
    case "/" =>
      if b > 0 {
        SameQuotient(v, w, a, b);
      }
    case "%" =>
      if b > 0 {
        SameRemainder(v, w, a, b);
      }
    case "<<" =>
      if b < 32 {
        SameWord(v, w);
      }
    case ">>" =>
      if b < 32 {
        SameWord(v, w);
      }
    case _ => SameWord(v, w);
  }
}
