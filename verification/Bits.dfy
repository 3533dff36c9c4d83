/** Bitwise operations on natural numbers, and what shifts and masks of 32-bit words do. */
module Bits {
  import opened Arithmetic

  const U32 := 0x1_0000_0000

  function And(x: nat, y: nat): nat {
    if x == 0 || y == 0 then 0 else 2 * And(x / 2, y / 2) + (x % 2) * (y % 2)
  }

  function Or(x: nat, y: nat): nat {
    if x == 0 then y
    else if y == 0 then x
    else 2 * Or(x / 2, y / 2) + (if x % 2 == 1 || y % 2 == 1 then 1 else 0)
  }

  /** `x << k` on `u32`: the bits shifted out are lost. */
  function Shl32(x: nat, k: nat): nat {
    x * Power2(k) % U32
  }

  /** `x >> k` */
  function Shr(x: nat, k: nat): nat {
    if k == 0 then x else Shr(x / 2, k - 1)
  }

  lemma {:induction false} Power2Of32()
    ensures Power2(8) == 256 && Power2(32) == U32
  {
    assert Power2(8) == 256;
    assert Power2(16) == 65536;
    Power2Sum(16, 16);
  }

  lemma {:induction false} ShrIsQuotient(x: nat, k: nat)
    ensures Shr(x, k) == x / Power2(k)
  {
    if k > 0 {
      ShrIsQuotient(x / 2, k - 1);
      HalfQuotient(x, Power2(k - 1));
    }
  }

  /** Or-ing into zeroed low bits adds. */
  lemma {:induction false} OrIsSum(x: nat, y: nat, k: nat)
    requires y < Power2(k)
    ensures Or(x * Power2(k), y) == x * Power2(k) + y
  {
    if k > 0 && x > 0 && y > 0 {
      var p := Power2(k - 1);
      assert x * Power2(k) == 2 * (x * p);
      QuotientUnique(x * Power2(k), 2, x * p, 0);
      OrIsSum(x, y / 2, k - 1);
      assert x * Power2(k) > 0 by {
        MultiplesApart(Power2(k), x, 0);
      }
    }
  }

  lemma {:induction false} AndAllOnes(x: nat, m: nat)
    requires x < Power2(m)
    ensures And(x, Power2(m) - 1) == x
  {
    if x > 0 {
      assert m > 0;
      var y := Power2(m) - 1;
      QuotientUnique(y, 2, Power2(m - 1) - 1, 1);
      AndAllOnes(x / 2, m - 1);
      if y / 2 == 0 {
        assert And(x / 2, 0) == 0;
      }
    }
  }

  /** Masking with `k` ones keeps the low `k` bits. */
  lemma {:induction false} AndKeepsLow(x: nat, k: nat)
    ensures And(x, Power2(k) - 1) == x % Power2(k)
  {
    if k > 0 {
      hide And;
      AndKeepsLow(x / 2, k - 1);
      LowBits(x, Power2(k - 1));
      AndOdd(x, Power2(k - 1) - 1);
    } else {
      NothingMasked(x);
    }
  }

  lemma {:induction false} AndOdd(x: nat, y: nat)
    ensures And(x, 2 * y + 1) == 2 * And(x / 2, y) + x % 2
  {
    QuotientUnique(2 * y + 1, 2, y, 1);
    NothingMasked(x / 2);
  }

  lemma {:induction false} NothingMasked(x: nat)
    ensures And(x, 0) == 0
  {
  }

  lemma {:induction false} LowBits(x: nat, p: nat)
    requires 1 <= p
    ensures x % (2 * p) == 2 * (x / 2 % p) + x % 2
  {
    var q, r := x / 2 / p, x / 2 % p;
    assert x / 2 == p * q + r;
    Doubled(p, q);
    QuotientUnique(x, 2 * p, q, 2 * r + x % 2);
  }

  lemma {:induction false} AndEven(x: nat, y: nat)
    ensures And(x, 2 * y) == 2 * And(x / 2, y)
  {
    if x > 0 && y > 0 {
      QuotientUnique(2 * y, 2, y, 0);
    }
  }

  /** Masking with `m` ones above `k` zeros clears the low bits. */
  lemma {:induction false} AndClearsLow(x: nat, k: nat, m: nat)
    requires x < Power2(k + m)
    ensures And(x, Power2(k) * (Power2(m) - 1)) == Power2(k) * (x / Power2(k))
    decreases k
  {
    hide And;
    if k == 0 {
      AndAllOnes(x, m);
    } else {
      var p, ones := Power2(k - 1), Power2(m) - 1;
      AndClearsLow(x / 2, k - 1, m);
      HalfQuotient(x, p);
      AndEven(x, p * ones);
      Doubled(p, ones);
      Doubled(p, x / 2 / p);
    }
  }

  lemma {:induction false} Doubled(p: int, y: int)
    ensures 2 * p * y == 2 * (p * y)
  {
  }

  lemma {:induction false} HalfQuotient(x: nat, p: nat)
    requires 1 <= p
    ensures x / (2 * p) == x / 2 / p
  {
    var q, r := x / 2 / p, x / 2 % p;
    assert x / 2 == p * q + r;
    Doubled(p, q);
    QuotientUnique(x, 2 * p, q, 2 * r + x % 2);
  }

  lemma {:induction false} AllOnesShifted(p: nat)
    requires 1 <= p <= U32
    ensures (U32 - 1) * p % U32 == U32 - p
  {
    assert (U32 - 1) * p == U32 * (p - 1) + (U32 - p);
    QuotientUnique((U32 - 1) * p, U32, p - 1, U32 - p);
  }

  /** `u32::MAX << k` is ones above `k` zeros. */
  lemma {:induction false} MaskOfShift(k: nat)
    requires k <= 32
    ensures Power2(k) <= U32
    ensures Shl32(U32 - 1, k) == Power2(k) * (Power2(32 - k) - 1)
  {
    hide Power2;
    Power2Of32();
    Power2Sum(k, 32 - k);
    var p, q := Power2(k), Power2(32 - k);
    assert p * (q - 1) == U32 - p;
    if q >= 2 {
      MultiplesApart(p, q, 1);
    }
    AllOnesShifted(p);
  }
}
