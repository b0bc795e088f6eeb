/** The bitmap of deleted slots: an array of 32-bit words that stands for a set of indices. */
module Bitmap {
  import opened Word
  import opened Recovery

  const U32BITS := 32

  predicate HasBit(w: seq<u32>, x: nat) {
    x / U32BITS < |w| && Bit(w[x / U32BITS], x % U32BITS)
  }

  /** The set that the words stand for. */
  function Members(w: seq<u32>): (s: set<nat>)
    ensures forall x: nat :: x in s <==> HasBit(w, x)
  {
    set x: nat | 0 <= x < U32BITS * |w| && HasBit(w, x)
  }

  // ----- words as sets of bit positions -----

  lemma {:induction false} AddPow2Bit(w: nat, n: nat, b: nat)
    requires b < n
    ensures Bit(w + Pow2(n), b) == Bit(w, b)
    decreases b
  {
    if b > 0 {
      AddPow2Bit(w / 2, n - 1, b - 1);
      assert (w + Pow2(n)) / 2 == w / 2 + Pow2(n - 1);
    }
  }

  lemma {:induction false} DoubleBit(a: u32, b: nat)
    requires b < U32BITS
    ensures Bit((2 * a) % U32, b) == (b > 0 && Bit(a, b - 1))
  {
    hide Pow2, Bit;
    Pow2Is32();
    TwiceBit(a, b);
    if 2 * a >= U32 {
      AddPow2Bit(2 * a - U32, 32, b);
    }
  }

  lemma {:induction false} TwiceBit(a: nat, b: nat)
    ensures Bit(2 * a, b) == (b > 0 && Bit(a, b - 1))
  {
    assert (2 * a) / 2 == a;
  }

  lemma {:induction false} ShlBit(a: u32, n: nat, b: nat)
    requires b < U32BITS
    ensures Bit(Shl32(a, n), b) == (b >= n && Bit(a, b - n))
    decreases n
  {
    if n > 0 {
      var d: u32 := (2 * a) % U32;
      ShlBit(d, n - 1, b);
      if b >= n - 1 {
        DoubleBit(a, b - (n - 1));
      }
    }
  }

  lemma {:induction false} ShlPow2(m: nat, n: nat)
    requires m + n < U32BITS
    ensures Pow2(m) < U32 && Shl32(Pow2(m), n) == Pow2(m + n)
    decreases n
  {
    hide Pow2;
    Pow2Is32();
    Pow2Monotone(m, 32);
    if n > 0 {
      Pow2Monotone(m + 1, 32);
      DoublePow2(m);
      ShlPow2(m + 1, n - 1);
    }
  }

  lemma {:induction false} NotBit(w: nat, n: nat, b: nat)
    requires w < Pow2(n) && b < n
    ensures Bit(Pow2(n) - 1 - w, b) == !Bit(w, b)
  {
    if b > 0 {
      NotBit(w / 2, n - 1, b - 1);
      assert (Pow2(n) - 1 - w) / 2 == Pow2(n - 1) - 1 - w / 2;
    }
  }

  lemma {:induction false} AndPow2(w: nat, b: nat)
    ensures (Bitwise(AndOp, w, Pow2(b)) != 0) == Bit(w, b)
  {
    if b > 0 {
      AndPow2(w / 2, b - 1);
    } else {
      AndRight(w / 2);
    }
  }

  lemma {:induction false} AndRight(a: nat)
    ensures Bitwise(AndOp, a, 0) == 0
  {
    if a > 0 {
      AndRight(a / 2);
    }
  }

  /** ((1u << c) - 1) << f: the bits from `f` on, `c` of them. */
  function Mask(c: nat, f: nat): u32
    requires c < U32BITS
  {
    ShlPow2(0, c);
    Shl32(Shl32(1, c) - 1, f)
  }

  /** Exactly the bits `[lo, hi)` of `m` are set. */
  predicate IsMask(m: u32, lo: nat, hi: nat) {
    lo <= hi <= U32BITS && forall b :: 0 <= b < U32BITS ==> Bit(m, b) == (lo <= b < hi)
  }

  lemma MaskIs(c: nat, f: nat)
    requires c < U32BITS && f + c <= U32BITS
    ensures IsMask(Mask(c, f), f, f + c)
  {
    ShlPow2(0, c);
    forall b | 0 <= b < U32BITS ensures Bit(Mask(c, f), b) == (f <= b < f + c) {
      ShlBit(Pow2(c) - 1, f, b);
      if b >= f {
        OnesBit(c, b - f);
      }
    }
  }

  /** UINT32_MAX << f: all bits from `f` on. */
  lemma {:induction false} MaxIs(f: nat)
    requires f < U32BITS
    ensures IsMask(Shl32(U32_MAX, f), f, U32BITS)
  {
    Pow2Is32();
    forall b | 0 <= b < U32BITS ensures Bit(Shl32(U32_MAX, f), b) == (f <= b < U32BITS) {
      ShlBit(U32_MAX, f, b);
      if b >= f {
        OnesBit(32, b - f);
      }
    }
  }

  // ----- counting bits -----

  /** __builtin_popcount */
  function Popcount(w: nat): nat {
    if w == 0 then 0 else w % 2 + Popcount(w / 2)
  }

  /** How many of the bits `[lo, hi)` of `w` are set. */
  function BitsIn(w: nat, lo: nat, hi: nat): nat
    decreases hi
  {
    if hi <= lo then 0 else BitsIn(w, lo, hi - 1) + (if Bit(w, hi - 1) then 1 else 0)
  }

  lemma {:induction false} BitsShift(w: nat, n: nat)
    requires n > 0
    ensures BitsIn(w, 0, n) == w % 2 + BitsIn(w / 2, 0, n - 1)
  {
    if n > 1 {
      BitsShift(w, n - 1);
    } else {
      assert BitsIn(w, 0, 0) == 0;
    }
  }

  lemma {:induction false} PopcountBits(w: nat, n: nat)
    requires w < Pow2(n)
    ensures Popcount(w) == BitsIn(w, 0, n)
  {
    if n > 0 {
      BitsShift(w, n);
      PopcountBits(w / 2, n - 1);
      assert w == 0 ==> Popcount(w / 2) == 0;
    }
  }

  lemma {:induction false} BitsMasked(v: nat, w: nat, lo: nat, hi: nat, n: nat)
    requires lo <= hi
    requires forall b :: 0 <= b < n ==> Bit(v, b) == (Bit(w, b) && lo <= b < hi)
    ensures BitsIn(v, 0, n) == if n <= hi then BitsIn(w, lo, n) else BitsIn(w, lo, hi)
  {
    if n > 0 {
      BitsMasked(v, w, lo, hi, n - 1);
    }
  }

  /** The population count of a masked word counts the bits under the mask. */
  lemma {:induction false} PopcountMasked(w: u32, m: u32, lo: nat, hi: nat)
    requires IsMask(m, lo, hi)
    ensures Popcount(And32(w, m)) == BitsIn(w, lo, hi)
  {
    var v := And32(w, m);
    Pow2Is32();
    PopcountBits(v, 32);
    forall b | 0 <= b < 32 ensures Bit(v, b) == (Bit(w, b) && lo <= b < hi) {
      BitwiseBit(AndOp, w, m, b);
    }
    BitsMasked(v, w, lo, hi, 32);
  }

  /** Counting members within one word is counting its bits. */
  lemma {:induction false} CountInWord(w: seq<u32>, k: nat, lo: nat, hi: nat)
    requires k < |w| && lo <= hi <= U32BITS
    ensures Count(Members(w), 32 * k + lo, 32 * k + hi) == BitsIn(w[k], lo, hi)
    decreases hi
  {
    if lo < hi {
      CountInWord(w, k, lo, hi - 1);
      var x := 32 * k + (hi - 1);
      assert x / 32 == k && x % 32 == hi - 1;
      assert HasBit(w, x) == Bit(w[k], hi - 1);
    }
  }

  /** Counting members through a mask, and in a whole word. */
  lemma {:induction false} CountMasked(w: seq<u32>, k: nat, m: u32, lo: nat, hi: nat)
    requires k < |w| && IsMask(m, lo, hi)
    ensures Popcount(And32(w[k], m)) == Count(Members(w), 32 * k + lo, 32 * k + hi)
  {
    PopcountMasked(w[k], m, lo, hi);
    CountInWord(w, k, lo, hi);
  }

  lemma {:induction false} CountWhole(w: seq<u32>, k: nat)
    requires k < |w|
    ensures Popcount(w[k]) == Count(Members(w), 32 * k, 32 * k + 32)
  {
    CountWidth(w, k, U32BITS);
  }

  lemma CountWidth(w: seq<u32>, k: nat, n: nat)
    requires k < |w| && n == U32BITS
    ensures Popcount(w[k]) == Count(Members(w), 32 * k, 32 * k + n)
  {
    hide Popcount, Count, Pow2;
    Pow2Is32();
    PopcountBits(w[k], n);
    CountInWord(w, k, 0, n);
  }

  // ----- editing words -----

  lemma {:induction false} SetWord(w: seq<u32>, k: nat, m: u32, lo: nat, hi: nat)
    requires k < |w| && IsMask(m, lo, hi)
    ensures Members(w[k := Or32(w[k], m)]) == Members(w) + Span(32 * k + lo, hi - lo)
  {
    var w' := w[k := Or32(w[k], m)];
    forall x: nat ensures HasBit(w', x) == (HasBit(w, x) || 32 * k + lo <= x < 32 * k + hi) {
      BitwiseBit(OrOp, w[k], m, x % 32);
    }
    assert Members(w') == Members(w) + Span(32 * k + lo, hi - lo);
  }

  lemma {:induction false} ClearWord(w: seq<u32>, x: nat)
    requires x / U32BITS < |w|
    ensures Members(w[x / U32BITS := And32(w[x / U32BITS], Not32(Shl32(1, x % U32BITS)))]) == Members(w) - {x}
  {
    var k, b, m := x / U32BITS, x % U32BITS, Shl32(1, x % U32BITS);
    var w' := w[k := And32(w[k], Not32(m))];
    Pow2Is32();
    ShlPow2(0, b);
    forall y: nat ensures HasBit(w', y) == (HasBit(w, y) && y != x) {
      if y / U32BITS == k {
        BitwiseBit(AndOp, w[k], Not32(m), y % 32);
        NotBit(m, 32, y % 32);
        SingleBit(b, y % 32);
      }
    }
    assert Members(w') == Members(w) - {x};
  }

  lemma {:induction false} SingleBit(n: nat, b: nat)
    ensures Bit(Pow2(n), b) == (b == n)
  {
    if n > 0 && b > 0 {
      SingleBit(n - 1, b - 1);
    } else if b > 0 {
      ZeroBit(b - 1);
    }
  }

  /** Testing a bit through a mask. */
  lemma {:induction false} TestBit(w: seq<u32>, x: nat, mask: u32)
    requires x / U32BITS < |w| && mask == Pow2(x % U32BITS)
    ensures (And32(w[x / U32BITS], mask) != 0) == (x in Members(w))
  {
    AndPow2(w[x / U32BITS], x % U32BITS);
  }
}
