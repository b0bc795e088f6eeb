/** Unsigned machine words as bounded integers, with the bitwise operators of C
    defined bit by bit so that their laws are provable by induction on the width. */
module Word {

  const U32 := 0x1_0000_0000
  const U32_MAX := 0xFFFF_FFFF

  type u8 = x: nat | x < 0x100
  type u16 = x: nat | x < 0x1_0000
  type u32 = x: nat | x < 0x1_0000_0000
  type u64 = x: nat | x < 0x1_0000_0000_0000_0000

  function Pow2(n: nat): (r: nat)
    ensures r > 0
  {
    if n == 0 then 1 else 2 * Pow2(n - 1)
  }

  lemma {:induction false} Pow2Monotone(m: nat, n: nat)
    requires m < n
    ensures Pow2(m) < Pow2(n)
  {
    if m + 1 < n {
      Pow2Monotone(m, n - 1);
    }
  }

  lemma Pow2Is32()
    ensures Pow2(31) == 0x8000_0000 && Pow2(32) == U32
  {
    assert Pow2(8) == 0x100;
    assert Pow2(16) == 0x1_0000;
    assert Pow2(24) == 0x100_0000;
  }

  lemma DoublePow2(m: nat)
    ensures Pow2(m + 1) == 2 * Pow2(m)
  {
  }

  /** Bit `b` of `w`. */
  predicate Bit(w: nat, b: nat) {
    if b == 0 then w % 2 == 1 else Bit(w / 2, b - 1)
  }

  datatype BitwiseOp = AndOp | OrOp | XorOp {
    function Apply(p: nat, q: nat): (r: nat)
      requires p < 2 && q < 2
      ensures r < 2
    {
      match this
      case AndOp => if p == 1 && q == 1 then 1 else 0
      case OrOp => if p == 1 || q == 1 then 1 else 0
      case XorOp => if p != q then 1 else 0
    }

    predicate Holds(p: bool, q: bool) {
      match this
      case AndOp => p && q
      case OrOp => p || q
      case XorOp => p != q
    }
  }

  /** The bitwise operator, bit by bit until both operands are used up. */
  function Bitwise(o: BitwiseOp, a: nat, b: nat): nat
    decreases a + b
  {
    if a == 0 && b == 0 then 0
    else o.Apply(a % 2, b % 2) + 2 * Bitwise(o, a / 2, b / 2)
  }

  lemma {:induction false} BitwiseFits(o: BitwiseOp, a: nat, b: nat, n: nat)
    requires a < Pow2(n) && b < Pow2(n)
    ensures Bitwise(o, a, b) < Pow2(n)
  {
    if n > 0 {
      BitwiseFits(o, a / 2, b / 2, n - 1);
    }
  }

  lemma {:induction false} BitwiseBit(o: BitwiseOp, a: nat, b: nat, k: nat)
    ensures Bit(Bitwise(o, a, b), k) == o.Holds(Bit(a, k), Bit(b, k))
  {
    BitwiseHalves(o, a, b);
    hide Bitwise;
    if k > 0 {
      BitwiseBit(o, a / 2, b / 2, k - 1);
    }
  }

  lemma {:induction false} BitwiseHalves(o: BitwiseOp, a: nat, b: nat)
    ensures Bitwise(o, a, b) % 2 == o.Apply(a % 2, b % 2) && Bitwise(o, a, b) / 2 == Bitwise(o, a / 2, b / 2)
  {
  }

  function And32(a: u32, b: u32): (r: u32) {
    Fits32(AndOp, a, b);
    Bitwise(AndOp, a, b)
  }

  function Or32(a: u32, b: u32): (r: u32) {
    Fits32(OrOp, a, b);
    Bitwise(OrOp, a, b)
  }

  function Xor32(a: u32, b: u32): (r: u32) {
    Fits32(XorOp, a, b);
    Bitwise(XorOp, a, b)
  }

  lemma {:induction false} Fits32(o: BitwiseOp, a: u32, b: u32)
    ensures Bitwise(o, a, b) < U32
  {
    Pow2Is32();
    BitwiseFits(o, a, b, 32);
  }

  function And16(a: u16, b: u16): (r: u16) {
    Fits16(AndOp, a, b);
    Bitwise(AndOp, a, b)
  }

  function Or16(a: u16, b: u16): (r: u16) {
    Fits16(OrOp, a, b);
    Bitwise(OrOp, a, b)
  }

  lemma Pow2Is16()
    ensures Pow2(16) == 0x1_0000
  {
    assert Pow2(8) == 0x100;
  }

  lemma {:induction false} ShiftFits(k: nat)
    requires k < 16
    ensures Pow2(k) < 0x1_0000
  {
    Pow2Is16();
    Pow2Monotone(k, 16);
  }

  lemma {:induction false} Fits16(o: BitwiseOp, a: u16, b: u16)
    ensures Bitwise(o, a, b) < 0x1_0000
  {
    Pow2Is16();
    BitwiseFits(o, a, b, 16);
  }

  /** The bits of a power of two, of zero and of all ones. */
  lemma {:induction false} Pow2Bit(n: nat, k: nat)
    ensures Bit(Pow2(n), k) == (k == n)
  {
    if n == 0 {
      if k > 0 {
        ZeroBit(k - 1);
      }
    } else if k > 0 {
      Pow2Bit(n - 1, k - 1);
    }
  }

  lemma {:induction false} ZeroBit(k: nat)
    ensures !Bit(0, k)
  {
    if k > 0 {
      ZeroBit(k - 1);
    }
  }

  lemma {:induction false} OnesBit(n: nat, k: nat)
    ensures Bit(Pow2(n) - 1, k) == (k < n)
  {
    if n == 0 {
      ZeroBit(k);
    } else if k > 0 {
      OnesBit(n - 1, k - 1);
    }
  }

  function Not32(a: u32): (r: u32) {
    U32_MAX - a
  }

  function Shl32(a: u32, n: nat): (r: u32)
    decreases n
  {
    if n == 0 then a else Shl32((2 * a) % U32, n - 1)
  }

  function Shr32(a: u32, n: nat): (r: u32)
    decreases n
  {
    if n == 0 then a else Shr32(a / 2, n - 1)
  }

  function Neg32(a: u32): (r: u32) {
    (U32 - a) % U32
  }

  /** The halves of a 64-bit word, and the bitwise operators on whole words. */
  function High(a: u64): u32 {
    a / U32
  }

  function Low(a: u64): u32 {
    a % U32
  }

  function Join(hi: u32, lo: u32): (r: u64) {
    hi * U32 + lo
  }

  lemma Halves(hi: u32, lo: u32)
    ensures High(Join(hi, lo)) == hi && Low(Join(hi, lo)) == lo
  {
  }

  function Xor64(a: u64, b: u64): (r: u64) {
    Join(Xor32(High(a), High(b)), Xor32(Low(a), Low(b)))
  }

  function And64(a: u64, b: u64): (r: u64) {
    Join(And32(High(a), High(b)), And32(Low(a), Low(b)))
  }

  /** A 32-bit immediate widened to 64 bits, as two's complement. */
  function SignBits(a: u32): u32 {
    if a >= 0x8000_0000 then U32_MAX else 0
  }

  function SignExtend(a: u32): (r: u64) {
    Join(SignBits(a), a)
  }

  lemma {:induction false} AndZero(a: nat)
    ensures Bitwise(AndOp, 0, a) == 0
  {
    if a > 0 {
      AndZero(a / 2);
    }
  }

  lemma {:induction false} XorSelf(a: nat)
    ensures Bitwise(XorOp, a, a) == 0
  {
    if a > 0 {
      XorSelf(a / 2);
    }
  }

  lemma {:induction false} XorZero(a: nat)
    ensures Bitwise(XorOp, a, 0) == a && Bitwise(XorOp, 0, a) == a
  {
    if a > 0 {
      XorZero(a / 2);
    }
  }

  /** The top bit of an exclusive or: set when the operands' top bits differ. */
  lemma {:induction false} XorTop(a: nat, b: nat, n: nat)
    requires a < Pow2(n + 1) && b < Pow2(n + 1)
    ensures (Bitwise(XorOp, a, b) >= Pow2(n)) == ((a >= Pow2(n)) != (b >= Pow2(n)))
  {
    if n > 0 {
      XorTop(a / 2, b / 2, n - 1);
    }
  }

  lemma SignBitsXor(a: u32, b: u32)
    ensures Xor32(SignBits(a), SignBits(b)) == SignBits(Xor32(a, b))
  {
    Pow2Is32();
    assert (Xor32(a, b) >= 0x8000_0000) == ((a >= 0x8000_0000) != (b >= 0x8000_0000)) by {
      XorTop(a, b, 31);
    }
    if SignBits(a) == SignBits(b) {
      XorSelf(SignBits(a));
    } else {
      XorZero(U32_MAX);
    }
  }

  /** Blinding in 64 bits and unblinding in 32 agree on sign-extended immediates. */
  lemma SignExtendXor(a: u32, b: u32)
    ensures Xor64(SignExtend(a), SignExtend(b)) == SignExtend(Xor32(a, b))
  {
    Halves(SignBits(a), a);
    Halves(SignBits(b), b);
    SignBitsXor(a, b);
  }

  lemma XorSelf64(a: u64)
    ensures Xor64(a, a) == 0
  {
    XorSelf(High(a));
    XorSelf(Low(a));
  }

  lemma AndNarrow(a: u32, b: u32)
    ensures And64(a, b) == And32(a, b)
  {
    Halves(0, a);
    Halves(0, b);
    AndZero(0);
  }
}
