/** What the machine's arithmetic computes, operator by operator, in terms of numbers and bits. */
module Arithmetic {
  import opened Word
  import opened Bpf
  import opened Bitmap

  /** `r` is the 32-bit result: sums, differences and products wrap around, a quotient is rounded
      down, shift counts are taken modulo 32, and the others go bit by bit. */
  predicate Means(op: AluOp, a: u32, b: u32, r: u32) {
    match op
    case Add => r == a + b || r + U32 == a + b
    case Sub => r + b == a || r + b == a + U32
    case Mul => Congruent(a * b, r)
    case Div => if b == 0 then r == 0 else r * b <= a < (r + 1) * b
    case Or => forall k :: 0 <= k < U32BITS ==> Bit(r, k) == (Bit(a, k) || Bit(b, k))
    case And => forall k :: 0 <= k < U32BITS ==> Bit(r, k) == (Bit(a, k) && Bit(b, k))
    case Xor => forall k :: 0 <= k < U32BITS ==> Bit(r, k) == (Bit(a, k) != Bit(b, k))
    case Lsh => forall k :: 0 <= k < U32BITS ==> Bit(r, k) == (k >= b % 32 && Bit(a, k - b % 32))
    case Rsh => r * Pow2(b % 32) <= a < (r + 1) * Pow2(b % 32)
  }

  predicate Congruent(p: nat, r: nat) {
    (p - r) % U32 == 0
  }

  /** Bit `k` says whether `w` divided by 2^k, which is 1 for `k` zero and doubles from bit to bit,
      is odd. */
  lemma {:induction false} BitIs(w: nat, k: nat, q: nat)
    requires q * Pow2(k) <= w < (q + 1) * Pow2(k)
    ensures Bit(w, k) <==> q % 2 == 1
    ensures Pow2(0) == 1 && Pow2(k + 1) == 2 * Pow2(k)
  {
    if k > 0 {
      Halved(w, q, Pow2(k - 1));
      BitIs(w / 2, k - 1, q);
    }
  }

  lemma Halved(w: nat, q: nat, p: nat)
    requires q * (2 * p) <= w < (q + 1) * (2 * p)
    ensures q * p <= w / 2 < (q + 1) * p
  {
    assert q * (2 * p) == 2 * (q * p) && (q + 1) * (2 * p) == 2 * ((q + 1) * p);
  }

  lemma Doubled(w: nat, q: nat, p: nat)
    requires q * p <= w / 2 < (q + 1) * p
    ensures q * (2 * p) <= w < (q + 1) * (2 * p)
  {
    assert q * (2 * p) == 2 * (q * p) && (q + 1) * (2 * p) == 2 * ((q + 1) * p);
  }

  lemma Between(q: nat, r: nat, n: nat)
    requires q * n < (r + 1) * n
    ensures q <= r
  {
    if q > r {
      Monotone(r + 1, q, n);
    }
  }

  lemma Monotone(a: nat, b: nat, n: nat)
    requires a <= b
    ensures a * n <= b * n
  {
  }

  lemma {:induction false} DivIs(a: nat, b: nat)
    requires b > 0
    ensures Quotient(a, b) * b <= a < (Quotient(a, b) + 1) * b
  {
    if a >= b {
      DivIs(a - b, b);
      var q := Quotient(a - b, b);
      assert (q + 1) * b == q * b + b && (q + 2) * b == q * b + 2 * b;
    }
  }

  lemma QuotientIs(a: u32, b: u32)
    ensures Means(Div, a, b, Compute(Div, a, b))
  {
    if b > 0 {
      DivIs(a, b);
    }
  }

  lemma {:induction false} RshIs(a: u32, n: nat)
    ensures Shr32(a, n) * Pow2(n) <= a < (Shr32(a, n) + 1) * Pow2(n)
    decreases n
  {
    if n > 0 {
      RshIs(a / 2, n - 1);
      Doubled(a, Shr32(a / 2, n - 1), Pow2(n - 1));
    }
  }

  lemma {:induction false} ShiftIs(a: u32, b: u32)
    ensures Means(Lsh, a, b, Compute(Lsh, a, b))
  {
    hide Bit, Shl32;
    forall k | 0 <= k < U32BITS
      ensures Bit(Compute(Lsh, a, b), k) == (k >= b % 32 && Bit(a, k - b % 32))
    {
      ShlBit(a, b % 32, k);
    }
  }

  lemma {:induction false} BitwiseIs(op: AluOp, a: u32, b: u32)
    requires op.Or? || op.And? || op.Xor?
    ensures Means(op, a, b, Compute(op, a, b))
  {
    hide Bit, Bitwise;
    var o := if op.Or? then OrOp else if op.And? then AndOp else XorOp;
    forall k | 0 <= k < U32BITS
      ensures Bit(Compute(op, a, b), k) == o.Holds(Bit(a, k), Bit(b, k))
    {
      BitwiseBit(o, a, b, k);
    }
  }

  lemma SumIs(op: AluOp, a: u32, b: u32)
    requires op.Add? || op.Sub?
    ensures Means(op, a, b, Compute(op, a, b))
  {
    hide Bit, Pow2, Quotient, Shl32, Shr32, Bitwise;
  }

  lemma {:induction false} ProductIs(a: u32, b: u32)
    ensures Means(Mul, a, b, Compute(Mul, a, b))
  {
    hide Bit, Pow2, Quotient, Shl32, Shr32, Bitwise, Congruent;
    ProductWraps(a * b);
  }

  /** The machine's arithmetic computes what is meant. */
  lemma {:induction false} ComputeIs(op: AluOp, a: u32, b: u32)
    ensures Means(op, a, b, Compute(op, a, b))
  {
    hide Means, Compute;
    match op
    case Div => QuotientIs(a, b);
    case Rsh => RightShiftIs(a, b);
    case Lsh => ShiftIs(a, b);
    case Or => BitwiseIs(op, a, b);
    case And => BitwiseIs(op, a, b);
    case Xor => BitwiseIs(op, a, b);
    case Mul => ProductIs(a, b);
    case _ => SumIs(op, a, b);
  }

  lemma RightShiftIs(a: u32, b: u32)
    ensures Means(Rsh, a, b, Compute(Rsh, a, b))
  {
    hide Shr32, Pow2;
    RshIs(a, b % 32);
  }

  lemma ProductWraps(p: nat)
    ensures Congruent(p, p % U32)
  {
  }

  /** Nothing else is meant. */
  lemma {:induction false} MeaningIsUnique(op: AluOp, a: u32, b: u32, r: u32, q: u32)
    requires Means(op, a, b, r) && Means(op, a, b, q)
    ensures r == q
  {
    hide Bit, Pow2, Means;
    match op
    case Add => SameSum(op, a, b, r, q);
    case Sub => SameSum(op, a, b, r, q);
    case Mul => SameProduct(a, b, r, q);
    case Div => SameDivision(a, b, r, q);
    case Rsh => SameRightShift(a, b, r, q);
    case _ =>
      BitsAgree(op, a, b, r, q);
      Pow2Is32();
      SameBits(r, q, U32BITS);
  }

  lemma SameSum(op: AluOp, a: u32, b: u32, r: u32, q: u32)
    requires op.Add? || op.Sub?
    requires Means(op, a, b, r) && Means(op, a, b, q)
    ensures r == q
  {
    hide Bit, Pow2;
  }

  lemma {:induction false} SameProduct(a: u32, b: u32, r: u32, q: u32)
    requires Means(Mul, a, b, r) && Means(Mul, a, b, q)
    ensures r == q
  {
    hide Bit, Pow2, Congruent;
    SameResidue(a * b, r, q);
  }

  lemma {:induction false} SameDivision(a: u32, b: u32, r: u32, q: u32)
    requires Means(Div, a, b, r) && Means(Div, a, b, q)
    ensures r == q
  {
    hide Bit, Pow2;
    SameQuotient(a, b, r, q);
  }

  lemma {:induction false} SameRightShift(a: u32, b: u32, r: u32, q: u32)
    requires Means(Rsh, a, b, r) && Means(Rsh, a, b, q)
    ensures r == q
  {
    hide Bit, Pow2;
    SameQuotient(a, Pow2(b % 32), r, q);
  }

  lemma SameQuotient(a: nat, n: nat, r: nat, q: nat)
    requires if n == 0 then r == q else r * n <= a < (r + 1) * n && q * n <= a < (q + 1) * n
    ensures r == q
  {
    if n > 0 {
      Between(r, q, n);
      Between(q, r, n);
    }
  }

  lemma {:induction false} BitsAgree(op: AluOp, a: u32, b: u32, r: u32, q: u32)
    requires Means(op, a, b, r) && Means(op, a, b, q) && (op.Or? || op.And? || op.Xor? || op.Lsh?)
    ensures forall k :: 0 <= k < U32BITS ==> Bit(r, k) == Bit(q, k)
  {
    hide Bit;
  }

  lemma SameResidue(p: nat, r: u32, q: u32)
    requires Congruent(p, r) && Congruent(p, q)
    ensures r == q
  {
  }

  lemma {:induction false} SameBits(r: nat, q: nat, n: nat)
    requires r < Pow2(n) && q < Pow2(n) && forall k :: 0 <= k < n ==> Bit(r, k) == Bit(q, k)
    ensures r == q
  {
    if n > 0 {
      assert Bit(r, 0) == Bit(q, 0);
      forall k | 0 <= k < n - 1
        ensures Bit(r / 2, k) == Bit(q / 2, k)
      {
        var next := k + 1;
        assert Bit(r, next) == Bit(q, next);
      }
      SameBits(r / 2, q / 2, n - 1);
    }
  }

  /** A negated number and the number add up to zero. */
  lemma NegIs(a: u32)
    ensures (a + Neg32(a)) % U32 == 0
  {
  }

  /** Comparisons are of unsigned numbers; a test of bits looks for one that both have. */
  lemma {:induction false} CompareIs(a: u32, b: u32)
    ensures Compare(Jeq, a, b) <==> a == b
    ensures Compare(Jgt, a, b) <==> a > b
    ensures Compare(Jge, a, b) <==> a > b || a == b
    ensures Compare(Jset, a, b) <==> exists k :: 0 <= k < U32BITS && Bit(a, k) && Bit(b, k)
  {
    hide Bit, Bitwise;
    var r := And32(a, b);
    if r != 0 {
      Pow2Is32();
      var k := SomeBit(r, U32BITS);
      BitwiseBit(AndOp, a, b, k);
    }
    if k :| 0 <= k < U32BITS && Bit(a, k) && Bit(b, k) {
      BitwiseBit(AndOp, a, b, k);
      ZeroBit(k);
    }
  }

  lemma {:induction false} SomeBit(r: nat, n: nat) returns (k: nat)
    requires 0 < r < Pow2(n)
    ensures k < n && Bit(r, k)
  {
    k := 0;
    if r % 2 == 0 {
      k := SomeBit(r / 2, n - 1);
      k := k + 1;
    }
  }
}
