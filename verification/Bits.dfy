/** Bit operations on unbounded naturals, as the big-integer package gives them:
    exclusive or, conjunction and bit length, related to division by powers of two. */
module Bits {
  function Pow2(k: nat): (p: nat)
    ensures p >= 1
  {
    if k == 0 then 1 else 2 * Pow2(k - 1)
  }

  function Xor(a: nat, b: nat): nat {
    if a == 0 && b == 0 then 0
    else (if a % 2 == b % 2 then 0 else 1) + 2 * Xor(a / 2, b / 2)
  }

  function And(a: nat, b: nat): nat {
    if a == 0 || b == 0 then 0
    else (if a % 2 == 1 && b % 2 == 1 then 1 else 0) + 2 * And(a / 2, b / 2)
  }

  /** Number of bits needed to write n; zero needs none. */
  function BitLen(n: nat): nat {
    if n == 0 then 0 else 1 + BitLen(n / 2)
  }

  lemma {:induction false} Pow2Monotone(j: nat, k: nat)
    requires j <= k
    ensures Pow2(j) <= Pow2(k)
  {
    if j == k {
    } else {
      Pow2Monotone(j, k - 1);
    }
  }

  /** The network mask with `ones` leading ones in an address of `bits` bits. */
  function Mask(ones: nat, bits: nat): nat
    requires ones <= bits
  {
    Pow2Monotone(bits - ones, bits);
    Pow2(bits) - Pow2(bits - ones)
  }

  lemma {:induction false} Pow2Sum(j: nat, k: nat)
    ensures Pow2(j + k) == Pow2(j) * Pow2(k)
  {
    if j == 0 {
    } else {
      Pow2Sum(j - 1, k);
      assert Pow2(j + k) == 2 * Pow2(j - 1 + k);
      assert 2 * (Pow2(j - 1) * Pow2(k)) == (2 * Pow2(j - 1)) * Pow2(k);
    }
  }

  lemma {:induction false} MulGrows(x: nat, y: nat, p: nat)
    ensures x < y ==> x * p + p <= y * p
  {
    if x < y {
      assert y * p == (x + 1) * p + (y - x - 1) * p;
    }
  }

  /** Quotient and remainder are unique. */
  lemma {:induction false} QuotientUnique(a: nat, p: nat, q: nat, r: nat)
    requires r < p && a == q * p + r
    ensures a / p == q && a % p == r
  {
    MulGrows(q, a / p, p);
    MulGrows(a / p, q, p);
  }

  lemma {:induction false} Halve(a: nat, p: nat)
    requires p > 0
    ensures a / (2 * p) == (a / 2) / p
    ensures a % (2 * p) == 2 * ((a / 2) % p) + a % 2
  {
    var q, r := (a / 2) / p, (a / 2) % p;
    assert a / 2 == q * p + r;
    assert a == q * (2 * p) + (2 * r + a % 2);
    QuotientUnique(a, 2 * p, q, 2 * r + a % 2);
  }

  lemma {:induction false} HalvePow2(a: nat, k: nat)
    requires k > 0
    ensures a / Pow2(k) == (a / 2) / Pow2(k - 1)
    ensures a % Pow2(k) == 2 * ((a / 2) % Pow2(k - 1)) + a % 2
  {
    Halve(a, Pow2(k - 1));
  }

  lemma {:induction false} XorZero(a: nat, b: nat)
    ensures Xor(a, b) == 0 <==> a == b
  {
    if a == 0 && b == 0 {
    } else {
      XorZero(a / 2, b / 2);
    }
  }

  /** The bit length of a xor b is the least k at which a and b agree once
      their k low bits are dropped. */
  lemma {:induction false} HighestDifferingBit(a: nat, b: nat, k: nat)
    ensures BitLen(Xor(a, b)) <= k <==> a / Pow2(k) == b / Pow2(k)
  {
    XorZero(a, b);
    if k == 0 {
    } else {
      HalvePow2(a, k);
      HalvePow2(b, k);
      HighestDifferingBit(a / 2, b / 2, k - 1);
      XorZero(a / 2, b / 2);
      if a != 0 || b != 0 {
        assert Xor(a, b) / 2 == Xor(a / 2, b / 2);
      }
    }
  }

  /** A value of at most `bits` bits is unchanged by the all-ones mask. */
  lemma {:induction false} AndOnes(a: nat, bits: nat)
    requires a < Pow2(bits)
    ensures And(a, Pow2(bits) - 1) == a
  {
    if bits == 0 || a == 0 {
    } else {
      AndOnes(a / 2, bits - 1);
      assert (Pow2(bits) - 1) / 2 == Pow2(bits - 1) - 1;
    }
  }

  lemma {:induction false} AndEven(a: nat, m: nat)
    ensures And(a, 2 * m) == 2 * And(a / 2, m)
  {
    if a > 0 && m > 0 {
      assert (2 * m) / 2 == m && (2 * m) % 2 == 0;
    }
  }

  lemma {:induction false} MaskEven(ones: nat, bits: nat)
    requires ones < bits
    ensures Mask(ones, bits) == 2 * Mask(ones, bits - 1)
  {
  }

  /** Masking clears exactly the low bits. */
  lemma {:induction false} AndMask(a: nat, ones: nat, bits: nat)
    requires ones <= bits && a < Pow2(bits)
    ensures And(a, Mask(ones, bits)) == a - a % Pow2(bits - ones)
    decreases bits
  {
    if ones == bits {
      AndOnes(a, bits);
    } else {
      MaskEven(ones, bits);
      AndEven(a, Mask(ones, bits - 1));
      AndMask(a / 2, ones, bits - 1);
      HalvePow2(a, bits - ones);
    }
  }

  /** Rounding down to a multiple of p. */
  lemma {:induction false} RoundDown(a: nat, p: nat)
    requires p > 0
    ensures a - a % p == a / p * p
  {
    assert a == a / p * p + a % p;
  }

  lemma {:induction false} RoundedAligned(a: nat, p: nat)
    requires p > 0
    ensures (a - a % p) % p == 0
  {
    RoundDown(a, p);
    QuotientUnique(a / p * p, p, a / p, 0);
  }

  lemma {:induction false} SameQuotient(a: nat, b: nat, p: nat)
    requires p > 0 && a / p == b / p
    ensures a - a % p == b - b % p
  {
    RoundDown(a, p);
    RoundDown(b, p);
  }
}
