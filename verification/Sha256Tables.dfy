/** What the tables of the hash function hold, by sections 4.2.2 and 5.3.3 of FIPS 180-4, and
    what its two bitwise functions select. */
module Sha256Tables {
  import opened Arithmetic
  import opened Sha256

  // ---- the first 64 primes ----------------------------------------------------------

  predicate IsPrime(n: nat) {
    2 <= n && forall d :: 2 <= d < n ==> n % d != 0
  }

  const P0: seq<nat> := [2, 3, 5, 7, 11, 13, 17, 19]
  const P1: seq<nat> := [23, 29, 31, 37, 41, 43, 47, 53]
  const P2: seq<nat> := [59, 61, 67, 71, 73, 79, 83, 89]
  const P3: seq<nat> := [97, 101, 103, 107, 109, 113, 127, 131]
  const P4: seq<nat> := [137, 139, 149, 151, 157, 163, 167, 173]
  const P5: seq<nat> := [179, 181, 191, 193, 197, 199, 211, 223]
  const P6: seq<nat> := [227, 229, 233, 239, 241, 251, 257, 263]
  const P7: seq<nat> := [269, 271, 277, 281, 283, 293, 307, 311]
  const PRIMES: seq<nat> := P0 + P1 + P2 + P3 + P4 + P5 + P6 + P7

  predicate IsFree(n: nat, p: nat)
    requires 0 < p
  {
    n == p || n % p != 0
  }

  /** No prime below 19 divides the number, but for the number itself. */
  predicate IsSifted(n: nat) {
    && IsFree(n, 2) && IsFree(n, 3) && IsFree(n, 5) && IsFree(n, 7) && IsFree(n, 11) && IsFree(n, 13)
    && IsFree(n, 17)
  }

  /** Below the square of 19 that is enough. */
  lemma {:induction false} SiftedIsPrime(n: nat)
    requires 2 <= n < 361
    ensures IsSifted(n) <==> IsPrime(n)
  {
    hide IsSifted;
    if IsSifted(n) {
      forall d | 2 <= d < n ensures n % d != 0 {
        Undivided(n, d);
      }
    } else {
      NotSifted(n);
    }
  }

  lemma {:induction false} NotSifted(n: nat)
    requires 2 <= n && !IsSifted(n)
    ensures !IsPrime(n)
  {
    var p := if !IsFree(n, 2) then 2 else if !IsFree(n, 3) then 3 else if !IsFree(n, 5) then 5
             else if !IsFree(n, 7) then 7 else if !IsFree(n, 11) then 11 else if !IsFree(n, 13) then 13 else 17;
    assert n % p == 0 && n != p;
    SmallRemainder(n, p);
  }

  lemma {:induction false} SmallRemainder(n: nat, p: nat)
    requires 0 < p
    ensures n < p ==> n % p == n
  {
  }

  lemma {:induction false} Undivided(n: nat, d: nat)
    requires 2 <= d < n < 361 && IsSifted(n)
    ensures n % d != 0
  {
    hide IsSifted;
    var e := n / d;
    if n == d * e {
      CofactorIsLarge(n, d, e);
      SmallFactor(n, if d < 19 then d else e, if d < 19 then e else d);
    }
  }

  lemma {:induction false} CofactorIsLarge(n: nat, d: nat, e: nat)
    requires n == d * e && 2 <= d < n < 361
    ensures 2 <= e && (d < 19 || e < 19)
  {
    assert e != 0 && e != 1;
    assert 19 <= d && 19 <= e ==> 19 * 19 <= d * e by {
      ProductsGrow(19, 19, d, e);
    }
  }

  lemma {:induction false} ProductsGrow(a: nat, b: nat, c: nat, d: nat)
    ensures a <= c && b <= d ==> a * b <= c * d
  {
    assert c * d - a * b == (c - a) * d + a * (d - b);
  }

  lemma {:induction false} SmallFactor(n: nat, d: nat, e: nat)
    requires n == d * e && 2 <= d < 19 && 2 <= e
    ensures !IsSifted(n)
  {
    var p := if d % 2 == 0 then 2 else if d % 3 == 0 then 3 else if d % 5 == 0 then 5 else d;
    var f := d / p;
    assert p in [2, 3, 5, 7, 11, 13, 17] && d == p * f && 1 <= f;
    assert n == p * (f * e);
    QuotientUnique(n, p, f * e, 0);
    MultiplesApart(e, f, f - 1);
    Larger(p, f * e);
  }

  lemma {:induction false} Larger(p: nat, k: nat)
    requires 1 <= p && 2 <= k
    ensures p < p * k
  {
    MultiplesApart(p, k, 1);
  }

  /** `q` is the first sifted number after `p`. */
  predicate IsNextSifted(p: nat, q: nat) {
    p < q && IsSifted(q) && NoneSifted(p + 1, q)
  }

  predicate NoneSifted(n: nat, end: nat)
    decreases end - n
  {
    n < end ==> !IsSifted(n) && NoneSifted(n + 1, end)
  }

  /** `q` is the first prime after `p`. */
  predicate IsNextPrime(p: nat, q: nat) {
    p < q && IsPrime(q) && forall n :: p < n < q ==> !IsPrime(n)
  }

  lemma {:induction false} NextSiftedIsNextPrime(p: nat, q: nat)
    requires 2 <= p && q < 361 && IsNextSifted(p, q)
    ensures IsNextPrime(p, q)
  {
    hide IsSifted, IsPrime, NoneSifted;
    SiftedIsPrime(q);
    forall n | p < n < q ensures !IsPrime(n) {
      NotSiftedIn(p + 1, q, n);
      SiftedIsPrime(n);
    }
  }

  lemma {:induction false} NotSiftedIn(start: nat, end: nat, n: nat)
    requires start <= n < end && NoneSifted(start, end)
    ensures !IsSifted(n)
    decreases end - start
  {
    hide IsSifted;
    if start < n {
      NotSiftedIn(start + 1, end, n);
    }
  }

  lemma {:induction false} Gaps0A()
    ensures IsNextSifted(2, 3)
    ensures IsNextSifted(3, 5)
    ensures IsNextSifted(5, 7)
    ensures IsNextSifted(7, 11)
  {
  }

  lemma {:induction false} Gaps0B()
    ensures IsNextSifted(11, 13)
    ensures IsNextSifted(13, 17)
    ensures IsNextSifted(17, 19)
    ensures IsNextSifted(19, 23)
  {
  }

  lemma {:induction false} Gaps1A()
    ensures IsNextSifted(23, 29)
    ensures IsNextSifted(29, 31)
    ensures IsNextSifted(31, 37)
    ensures IsNextSifted(37, 41)
  {
  }

  lemma {:induction false} Gaps1B()
    ensures IsNextSifted(41, 43)
    ensures IsNextSifted(43, 47)
    ensures IsNextSifted(47, 53)
    ensures IsNextSifted(53, 59)
  {
  }

  lemma {:induction false} Gaps2A()
    ensures IsNextSifted(59, 61)
    ensures IsNextSifted(61, 67)
    ensures IsNextSifted(67, 71)
    ensures IsNextSifted(71, 73)
  {
  }

  lemma {:induction false} Gaps2B()
    ensures IsNextSifted(73, 79)
    ensures IsNextSifted(79, 83)
    ensures IsNextSifted(83, 89)
    ensures IsNextSifted(89, 97)
  {
  }

  lemma {:induction false} Gaps3A()
    ensures IsNextSifted(97, 101)
    ensures IsNextSifted(101, 103)
    ensures IsNextSifted(103, 107)
    ensures IsNextSifted(107, 109)
  {
  }

  lemma {:induction false} Gaps3B()
    ensures IsNextSifted(109, 113)
    ensures IsNextSifted(113, 127)
    ensures IsNextSifted(127, 131)
    ensures IsNextSifted(131, 137)
  {
  }

  lemma {:induction false} Gaps4A()
    ensures IsNextSifted(137, 139)
    ensures IsNextSifted(139, 149)
    ensures IsNextSifted(149, 151)
    ensures IsNextSifted(151, 157)
  {
  }

  lemma {:induction false} Gaps4B()
    ensures IsNextSifted(157, 163)
    ensures IsNextSifted(163, 167)
    ensures IsNextSifted(167, 173)
    ensures IsNextSifted(173, 179)
  {
  }

  lemma {:induction false} Gaps5A()
    ensures IsNextSifted(179, 181)
    ensures IsNextSifted(181, 191)
    ensures IsNextSifted(191, 193)
    ensures IsNextSifted(193, 197)
  {
  }

  lemma {:induction false} Gaps5B()
    ensures IsNextSifted(197, 199)
    ensures IsNextSifted(199, 211)
    ensures IsNextSifted(211, 223)
    ensures IsNextSifted(223, 227)
  {
  }

  lemma {:induction false} Gaps6A()
    ensures IsNextSifted(227, 229)
    ensures IsNextSifted(229, 233)
    ensures IsNextSifted(233, 239)
    ensures IsNextSifted(239, 241)
  {
  }

  lemma {:induction false} Gaps6B()
    ensures IsNextSifted(241, 251)
    ensures IsNextSifted(251, 257)
    ensures IsNextSifted(257, 263)
    ensures IsNextSifted(263, 269)
  {
  }

  lemma {:induction false} Gaps7A()
    ensures IsNextSifted(269, 271)
    ensures IsNextSifted(271, 277)
    ensures IsNextSifted(277, 281)
    ensures IsNextSifted(281, 283)
  {
  }

  lemma {:induction false} Gaps7B()
    ensures IsNextSifted(283, 293)
    ensures IsNextSifted(293, 307)
    ensures IsNextSifted(307, 311)
  {
  }

  lemma {:induction false} Row0(i: nat)
    requires i < 8
    ensures |P0| == |P1| == 8 && 2 <= P0[i] && IsNextSifted(P0[i], if i < 7 then P0[i + 1] else P1[0])
    ensures (if i < 7 then P0[i + 1] else P1[0]) < 361
  {
    hide IsNextSifted;
    Gaps0A();
    Gaps0B();
  }

  lemma {:induction false} Row1(i: nat)
    requires i < 8
    ensures |P1| == |P2| == 8 && 2 <= P1[i] && IsNextSifted(P1[i], if i < 7 then P1[i + 1] else P2[0])
    ensures (if i < 7 then P1[i + 1] else P2[0]) < 361
  {
    hide IsNextSifted;
    Gaps1A();
    Gaps1B();
  }

  lemma {:induction false} Row2(i: nat)
    requires i < 8
    ensures |P2| == |P3| == 8 && 2 <= P2[i] && IsNextSifted(P2[i], if i < 7 then P2[i + 1] else P3[0])
    ensures (if i < 7 then P2[i + 1] else P3[0]) < 361
  {
    hide IsNextSifted;
    Gaps2A();
    Gaps2B();
  }

  lemma {:induction false} Row3(i: nat)
    requires i < 8
    ensures |P3| == |P4| == 8 && 2 <= P3[i] && IsNextSifted(P3[i], if i < 7 then P3[i + 1] else P4[0])
    ensures (if i < 7 then P3[i + 1] else P4[0]) < 361
  {
    hide IsNextSifted;
    Gaps3A();
    Gaps3B();
  }

  lemma {:induction false} Row4(i: nat)
    requires i < 8
    ensures |P4| == |P5| == 8 && 2 <= P4[i] && IsNextSifted(P4[i], if i < 7 then P4[i + 1] else P5[0])
    ensures (if i < 7 then P4[i + 1] else P5[0]) < 361
  {
    hide IsNextSifted;
    Gaps4A();
    Gaps4B();
  }

  lemma {:induction false} Row5(i: nat)
    requires i < 8
    ensures |P5| == |P6| == 8 && 2 <= P5[i] && IsNextSifted(P5[i], if i < 7 then P5[i + 1] else P6[0])
    ensures (if i < 7 then P5[i + 1] else P6[0]) < 361
  {
    hide IsNextSifted;
    Gaps5A();
    Gaps5B();
  }

  lemma {:induction false} Row6(i: nat)
    requires i < 8
    ensures |P6| == |P7| == 8 && 2 <= P6[i] && IsNextSifted(P6[i], if i < 7 then P6[i + 1] else P7[0])
    ensures (if i < 7 then P6[i + 1] else P7[0]) < 361
  {
    hide IsNextSifted;
    Gaps6A();
    Gaps6B();
  }

  lemma {:induction false} Row7(i: nat)
    requires i < 7
    ensures |P7| == 8 && 2 <= P7[i] && P7[i + 1] < 361 && IsNextSifted(P7[i], P7[i + 1])
  {
    hide IsNextSifted;
    Gaps7A();
    Gaps7B();
  }

  /** The table holds the first 64 primes: it starts with 2, and each number is followed by the
      next prime. */
  lemma {:induction false} PrimesAreFirst(i: nat)
    requires i < 63
    ensures |PRIMES| == 64 && PRIMES[0] == 2 && IsPrime(2) && IsNextPrime(PRIMES[i], PRIMES[i + 1])
  {
    NextInTable(i);
    NextSiftedIsNextPrime(PRIMES[i], PRIMES[i + 1]);
  }

  lemma {:induction false} NextInTable(i: nat)
    requires i < 63
    ensures |PRIMES| == 64 && 2 <= PRIMES[i] && PRIMES[i + 1] < 361 && PRIMES[0] == 2
    ensures IsNextSifted(PRIMES[i], PRIMES[i + 1])
  {
    hide IsNextSifted, P0, P1, P2, P3, P4, P5, P6, P7;
    RowSizes();
    if i < 8 {
      Row0(i);
    } else if i < 16 {
      Row1(i - 8);
    } else if i < 24 {
      Row2(i - 16);
    } else if i < 32 {
      Row3(i - 24);
    } else if i < 40 {
      Row4(i - 32);
    } else if i < 48 {
      Row5(i - 40);
    } else if i < 56 {
      Row6(i - 48);
    } else {
      Row7(i - 56);
    }
  }

  lemma {:induction false} RowSizes()
    ensures |K0| == |P0| == 8
    ensures |K1| == |P1| == 8
    ensures |K2| == |P2| == 8
    ensures |K3| == |P3| == 8
    ensures |K4| == |P4| == 8
    ensures |K5| == |P5| == 8
    ensures |K6| == |P6| == 8
    ensures |K7| == |P7| == 8
    ensures P0[0] == 2
  {
  }

  // ---- the tables -------------------------------------------------------------------

  /** `c` is the whole part of the cube root of `p`, and `k` the first 32 bits of its fraction. */
  predicate IsCubeRoot(p: nat, k: nat, c: nat) {
    var r := c * 0x1_0000_0000 + k;
    k < 0x1_0000_0000 && r * r * r <= p * 0x1_0000_0000_0000_0000_0000_0000 < (r + 1) * (r + 1) * (r + 1)
  }

  /** The same for the square root. */
  predicate IsSquareRoot(p: nat, k: nat, c: nat) {
    var r := c * 0x1_0000_0000 + k;
    k < 0x1_0000_0000 && r * r <= p * 0x1_0000_0000_0000_0000 < (r + 1) * (r + 1)
  }

  lemma {:induction false} CubeRow0(i: nat) returns (c: nat)
    requires i < 8
    ensures |K0| == |P0| == 8 && IsCubeRoot(P0[i], K0[i] as int, c)
  {
    c := if i < 4 then 1 else 2;
  }

  lemma {:induction false} CubeRow1(i: nat) returns (c: nat)
    requires i < 8
    ensures |K1| == |P1| == 8 && IsCubeRoot(P1[i], K1[i] as int, c)
  {
    c := if i < 1 then 2 else 3;
  }

  lemma {:induction false} CubeRow2(i: nat) returns (c: nat)
    requires i < 8
    ensures |K2| == |P2| == 8 && IsCubeRoot(P2[i], K2[i] as int, c)
  {
    c := if i < 2 then 3 else 4;
  }

  lemma {:induction false} CubeRow3(i: nat) returns (c: nat)
    requires i < 8
    ensures |K3| == |P3| == 8 && IsCubeRoot(P3[i], K3[i] as int, c)
  {
    c := if i < 6 then 4 else 5;
  }

  lemma {:induction false} CubeRow4(i: nat) returns (c: nat)
    requires i < 8
    ensures |K4| == |P4| == 8 && IsCubeRoot(P4[i], K4[i] as int, c)
  {
    c := 5;
  }

  lemma {:induction false} CubeRow5(i: nat) returns (c: nat)
    requires i < 8
    ensures |K5| == |P5| == 8 && IsCubeRoot(P5[i], K5[i] as int, c)
  {
    c := if i < 7 then 5 else 6;
  }

  lemma {:induction false} CubeRow6(i: nat) returns (c: nat)
    requires i < 8
    ensures |K6| == |P6| == 8 && IsCubeRoot(P6[i], K6[i] as int, c)
  {
    c := 6;
  }

  lemma {:induction false} CubeRow7(i: nat) returns (c: nat)
    requires i < 8
    ensures |K7| == |P7| == 8 && IsCubeRoot(P7[i], K7[i] as int, c)
  {
    c := 6;
  }

  lemma {:induction false} SquareRow(i: nat) returns (c: nat)
    requires i < 8
    ensures |H0| == |P0| == 8 && IsSquareRoot(P0[i], H0[i] as int, c)
  {
    c := if i < 2 then 1 else if i < 4 then 2 else if i < 6 then 3 else 4;
  }

  /** Section 4.2.2: the round constants are the first 32 bits of the fractions of the cube
      roots of the first 64 primes. */
  lemma {:induction false} RoundConstants(i: nat) returns (c: nat)
    requires i < 64
    ensures |K| == |PRIMES| == 64 && IsCubeRoot(PRIMES[i], K[i] as int, c)
  {
    hide IsCubeRoot, P0, P1, P2, P3, P4, P5, P6, P7, K0, K1, K2, K3, K4, K5, K6, K7;
    RowSizes();
    if i < 8 {
      c := CubeRow0(i);
    } else if i < 16 {
      c := CubeRow1(i - 8);
    } else if i < 24 {
      c := CubeRow2(i - 16);
    } else if i < 32 {
      c := CubeRow3(i - 24);
    } else if i < 40 {
      c := CubeRow4(i - 32);
    } else if i < 48 {
      c := CubeRow5(i - 40);
    } else if i < 56 {
      c := CubeRow6(i - 48);
    } else {
      c := CubeRow7(i - 56);
    }
  }

  /** Section 5.3.3: the initial hash value holds those of the square roots of the first eight. */
  lemma {:induction false} InitialHashWords(i: nat) returns (c: nat)
    requires i < 8
    ensures |PRIMES| == 64 && IsSquareRoot(PRIMES[i], H0[i] as int, c)
  {
    hide IsSquareRoot, P0, P1, P2, P3, P4, P5, P6, P7, H0;
    RowSizes();
    c := SquareRow(i);
  }

  // ---- the functions of section 4.1.2 -----------------------------------------------

  /** `Ch` takes the bit of `y` where that of `x` is one, and the bit of `z` elsewhere. */
  lemma {:induction false} Choice(x: Word, y: Word, z: Word)
    ensures Ch(x, y, z) & x == y & x
    ensures Ch(x, y, z) & !x == z & !x
  {
  }

  /** `Maj` takes the bit on which `x` and `y` agree, and that of `z` where they differ. */
  lemma {:induction false} Majority(x: Word, y: Word, z: Word)
    ensures Maj(x, y, z) & !(x ^ y) == x & !(x ^ y)
    ensures Maj(x, y, z) & (x ^ y) == z & (x ^ y)
  {
  }
}
