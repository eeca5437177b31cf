/** 32-bit words with the operators the Bloom filter uses: arithmetic wraps, and the bitwise
    operators work digit by digit. */
module Words {
  import opened Bytes

  type Word = w: nat | w < TWO_32

  function Wrap(n: nat): Word {
    n % TWO_32
  }

  function Pow2(k: nat): (p: nat)
    ensures p > 0
  {
    if k == 0 then 1 else 2 * Pow2(k - 1)
  }

  /** Bit `k` of `w`. */
  predicate Bit(w: nat, k: nat)
    decreases k
  {
    if k == 0 then w % 2 == 1 else Bit(w / 2, k - 1)
  }

  /** It is the `k`-th binary digit. */
  lemma {:induction false} BitMeaning(w: nat, k: nat)
    ensures Bit(w, k) <==> w / Pow2(k) % 2 == 1
    decreases k
  {
    if k > 0 {
      BitMeaning(w / 2, k - 1);
      HalfFirst(w, Pow2(k - 1));
    }
  }

  lemma HalfFirst(w: nat, p: nat)
    requires p > 0
    ensures w / 2 / p == w / (2 * p)
  {
    var (h, q) := (w / 2, w / 2 / p);
    var r := h - p * q;
    assert 2 * (p * q) == 2 * p * q;
    QuotientIs(w, 2 * p, q, 2 * r + w % 2);
  }

  lemma QuotientIs(v: nat, m: nat, q: nat, r: nat)
    requires m > 0 && v == m * q + r && r < m
    ensures v / m == q
  {
    ModUnique(v, m, q, r);
    var d: int := v / m - q;
    assert m * (v / m) == m * q;
    assert m * d == 0;
  }

  /** The masks double from 1 on. */
  lemma MaskValues(k: nat)
    requires k < 32
    ensures Mask(0) == 1 && Mask(k) == Pow2(k)
    ensures k > 0 ==> Mask(k) == 2 * Mask(k - 1)
  {
  }

  function OrNat(a: nat, b: nat): nat
    decreases a + b
  {
    if a == 0 && b == 0 then 0 else (if a % 2 == 1 || b % 2 == 1 then 1 else 0) + 2 * OrNat(a / 2, b / 2)
  }

  function AndNat(a: nat, b: nat): nat
    decreases a + b
  {
    if a == 0 && b == 0 then 0 else (if a % 2 == 1 && b % 2 == 1 then 1 else 0) + 2 * AndNat(a / 2, b / 2)
  }

  /** None of the operators needs more bits than its operands. */
  lemma {:induction false} BitwiseBounds(a: nat, b: nat, bits: nat)
    requires a < Pow2(bits) && b < Pow2(bits)
    ensures OrNat(a, b) < Pow2(bits) && AndNat(a, b) < Pow2(bits)
    decreases bits
  {
    if bits > 0 {
      BitwiseBounds(a / 2, b / 2, bits - 1);
    }
  }

  lemma Pow2Of32()
    ensures Pow2(32) == TWO_32
  {
    assert Pow2(8) == 256;
    assert Pow2(16) == 65536;
    assert Pow2(24) == 0x100_0000;
  }

  lemma WordBounds(a: Word, b: Word)
    ensures OrNat(a, b) < TWO_32 && AndNat(a, b) < TWO_32
  {
    Pow2Of32();
    BitwiseBounds(a, b, 32);
  }

  function OfBits(v: bv32): Word {
    v as int
  }

  function Xor(a: Word, b: Word): Word {
    OfBits((a as bv32) ^ (b as bv32))
  }

  function Or(a: Word, b: Word): Word {
    WordBounds(a, b);
    OrNat(a, b)
  }

  function And(a: Word, b: Word): Word {
    WordBounds(a, b);
    AndNat(a, b)
  }

  lemma {:induction false} Pow2Monotone(j: nat, k: nat)
    requires j <= k
    ensures Pow2(j) <= Pow2(k)
  {
    if j < k {
      Pow2Monotone(j, k - 1);
    }
  }

  lemma MaskBound(k: nat)
    requires k < 32
    ensures Pow2(k) < TWO_32
  {
    Pow2Of32();
    Pow2Monotone(k, 31);
    assert Pow2(32) == 2 * Pow2(31);
  }

  /** The mask `1 << k`. */
  function Mask(k: nat): Word
    requires k < 32
  {
    MaskBound(k);
    Pow2(k)
  }

  lemma {:induction false} ZeroBit(j: nat)
    ensures !Bit(0, j)
  {
    if j > 0 { ZeroBit(j - 1); }
  }

  lemma LastDigit(d: nat, rest: nat)
    requires d < 2
    ensures (d + 2 * rest) % 2 == d && (d + 2 * rest) / 2 == rest
  {
  }

  lemma OrUnfolds(a: nat, b: nat)
    ensures OrNat(a, b) == (if a % 2 == 1 || b % 2 == 1 then 1 else 0) + 2 * OrNat(a / 2, b / 2)
  {
  }

  lemma OrDigits(a: nat, b: nat)
    ensures OrNat(a, b) % 2 == (if a % 2 == 1 || b % 2 == 1 then 1 else 0)
    ensures OrNat(a, b) / 2 == OrNat(a / 2, b / 2)
  {
    hide OrNat;
    OrUnfolds(a, b);
    LastDigit(if a % 2 == 1 || b % 2 == 1 then 1 else 0, OrNat(a / 2, b / 2));
  }

  lemma BitStep(w: nat, j: nat)
    ensures Bit(w, 0) <==> w % 2 == 1
    ensures j > 0 ==> (Bit(w, j) <==> Bit(w / 2, j - 1))
  {
  }

  lemma {:induction false} OrBit(a: nat, b: nat, j: nat)
    ensures Bit(OrNat(a, b), j) <==> Bit(a, j) || Bit(b, j)
    decreases j
  {
    hide OrNat, Bit;
    OrDigits(a, b);
    BitStep(OrNat(a, b), j);
    BitStep(a, j);
    BitStep(b, j);
    if j > 0 {
      OrBit(a / 2, b / 2, j - 1);
    }
  }

  lemma {:induction false} PowBit(k: nat, j: nat)
    ensures Bit(Pow2(k), j) <==> j == k
  {
    if k == 0 {
      if j > 0 { ZeroBit(j - 1); }
    } else if j > 0 {
      PowBit(k - 1, j - 1);
    }
  }

  lemma {:induction false} AndPow(w: nat, k: nat)
    ensures AndNat(w, Pow2(k)) != 0 <==> Bit(w, k)
    decreases k
  {
    if k == 0 {
      AndZero(w / 2);
    } else {
      AndPow(w / 2, k - 1);
    }
  }

  lemma {:induction false} AndZero(w: nat)
    ensures AndNat(w, 0) == 0
  {
    if w > 0 { AndZero(w / 2); }
  }

  /** Or-ing a mask sets its bit and no other. */
  lemma OrMask(w: Word, k: nat, j: nat)
    requires k < 32 && j < 32
    ensures Bit(Or(w, Mask(k)), j) <==> Bit(w, j) || j == k
  {
    OrBit(w, Mask(k), j);
    PowBit(k, j);
  }

  /** And-ing with a mask tests its bit. */
  lemma AndMask(w: Word, k: nat)
    requires k < 32
    ensures And(w, Mask(k)) != 0 <==> Bit(w, k)
  {
    AndPow(w, k);
  }
}
