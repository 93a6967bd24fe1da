/** Where the constants of SHA-256 come from (FIPS 180-4, sections 4.2.2 and 5.3.3): the first 32 bits of the
    fractional parts of the cube roots and square roots of the first primes. */
module Sha256Constants {
  import opened Sha256

  // ---- The first 64 primes --------------------------------------------------------------------------

  const P0: seq<nat> := [2, 3, 5, 7, 11, 13, 17, 19]
  const P1: seq<nat> := [23, 29, 31, 37, 41, 43, 47, 53]
  const P2: seq<nat> := [59, 61, 67, 71, 73, 79, 83, 89]
  const P3: seq<nat> := [97, 101, 103, 107, 109, 113, 127, 131]
  const P4: seq<nat> := [137, 139, 149, 151, 157, 163, 167, 173]
  const P5: seq<nat> := [179, 181, 191, 193, 197, 199, 211, 223]
  const P6: seq<nat> := [227, 229, 233, 239, 241, 251, 257, 263]
  const P7: seq<nat> := [269, 271, 277, 281, 283, 293, 307, 311]

  const PRIMES := P0 + P1 + P2 + P3 + P4 + P5 + P6 + P7

  ghost predicate IsPrime(n: nat) {
    n >= 2 && forall d :: 2 <= d < n ==> n % d != 0
  }

  predicate Misses(n: nat, p: nat)
    requires p > 0
  {
    n % p != 0 || n == p
  }

  /** No prime below 18 divides n, unless it is n. */
  predicate Sieved(n: nat) {
    && Misses(n, 2) && Misses(n, 3) && Misses(n, 5) && Misses(n, 7)
    && Misses(n, 11) && Misses(n, 13) && Misses(n, 17)
  }

  /** The smallest prime factor of a number below 18. */
  lemma SmallestFactor(d: nat) returns (p: nat, m: nat)
    requires 2 <= d < 18
    ensures d == m * p && 0 < p <= d && (p == 2 || p == 3 || p == 5 || p == 7 || p == 11 || p == 13 || p == 17)
  {
    if d % 2 == 0 {
      p, m := 2, d / 2;
    } else if d % 3 == 0 {
      p, m := 3, d / 3;
    } else {
      p, m := d, 1;
    }
  }

  /** A divisor below 18 has a prime factor the sieve looks for. */
  lemma SmallDivisor(n: nat, d: nat, e: nat)
    requires n == d * e && 2 <= d < 18 && d < n
    ensures !Sieved(n)
  {
    hide Misses;
    var p, m := SmallestFactor(d);
    Regroup(e, m, p);
    Divides(n, e * m, p);
    Hit(n, p);
  }

  lemma Regroup(e: nat, m: nat, p: nat)
    ensures m * p * e == e * m * p
  {}

  lemma Hit(n: nat, p: nat)
    requires p > 0 && n % p == 0 && n != p
    ensures !Misses(n, p)
  {}

  lemma Grows(d: int, b: int, e: nat)
    ensures d >= b ==> d * e >= b * e
  {
    if d >= b {
      assert (d - b) * e >= 0;
    }
  }

  lemma Divides(n: nat, d: nat, e: nat)
    requires n == d * e && e > 0
    ensures n % e == 0
  {
    var k := d - n / e;
    assert n == n / e * e + n % e;
    assert k * e == n % e;
    Grows(k, 1, e);
    Grows(-1, k, e);
  }

  lemma TwoFactors(n: nat, d: nat, e: nat)
    requires n == d * e && 18 <= d < n < 324
    ensures 2 <= e < 18
  {
    Grows(d, 18, e);
  }

  /** Below 324 the sieve finds every number that is not prime. */
  lemma SievedIsPrime(n: nat)
    requires 2 <= n < 324
    ensures Sieved(n) <==> IsPrime(n)
  {
    if Sieved(n) {
      forall d | 2 <= d < n
        ensures n % d != 0
      {
        if n % d == 0 { NotSieved(n, d); }
      }
    }
  }

  lemma NotSieved(n: nat, d: nat)
    requires 2 <= d < n < 324 && n % d == 0
    ensures !Sieved(n)
  {
    hide Sieved;
    var e := n / d;
    assert n == d * e;
    if d < 18 {
      SmallDivisor(n, d, e);
    } else {
      TwoFactors(n, d, e);
      SmallDivisor(n, e, d);
    }
  }

  /** n is 30 * a plus one of the eight residues without a factor 2, 3 or 5. */
  predicate OnWheel(n: nat, a: nat) {
    || n == 30 * a + 1 || n == 30 * a + 7 || n == 30 * a + 11 || n == 30 * a + 13
    || n == 30 * a + 17 || n == 30 * a + 19 || n == 30 * a + 23 || n == 30 * a + 29
  }

  lemma EvenRest(n: nat, a: nat, r: nat)
    requires n == 30 * a + r
    ensures n % 2 == r % 2
  {}

  lemma ThirdRest(n: nat, a: nat, r: nat)
    requires n == 30 * a + r
    ensures n % 3 == r % 3
  {}

  lemma FifthRest(n: nat, a: nat, r: nat)
    requires n == 30 * a + r
    ensures n % 5 == r % 5
  {}

  lemma Residue(a: nat, r: nat)
    requires r < 30 && r % 2 != 0 && r % 3 != 0 && r % 5 != 0
    ensures OnWheel(30 * a + r, a)
  {}

  predicate Listed(n: nat) {
    n in P0 || n in P1 || n in P2 || n in P3 || n in P4 || n in P5 || n in P6 || n in P7
  }

  lemma ListedBelow150(n: nat, a: nat)
    requires a < 5 && OnWheel(n, a) && n >= 2 && Sieved(n)
    ensures Listed(n)
  {
    if a == 0 {} else if a == 1 {} else if a == 2 {} else if a == 3 {} else {}
  }

  lemma ListedFrom150(n: nat, a: nat)
    requires 5 <= a && n < 313 && OnWheel(n, a) && Sieved(n)
    ensures Listed(n)
  {
    if a == 5 {} else if a == 6 {} else if a == 7 {} else if a == 8 {} else if a == 9 {} else {}
  }

  lemma SievedRow0()
    ensures forall n :: n in P0 ==> Sieved(n)
  {}

  lemma SievedRow1()
    ensures forall n :: n in P1 ==> Sieved(n)
  {}

  lemma SievedRow2()
    ensures forall n :: n in P2 ==> Sieved(n)
  {}

  lemma SievedRow3()
    ensures forall n :: n in P3 ==> Sieved(n)
  {}

  lemma SievedRow4()
    ensures forall n :: n in P4 ==> Sieved(n)
  {}

  lemma SievedRow5()
    ensures forall n :: n in P5 ==> Sieved(n)
  {}

  lemma SievedRow6()
    ensures forall n :: n in P6 ==> Sieved(n)
  {}

  lemma SievedRow7()
    ensures forall n :: n in P7 ==> Sieved(n)
  {}

  lemma Wheel(n: nat, a: nat)
    requires a == n / 30 && Sieved(n) && n > 5
    ensures OnWheel(n, a)
  {
    hide OnWheel;
    var r := n % 30;
    EvenRest(n, a, r);
    ThirdRest(n, a, r);
    FifthRest(n, a, r);
    Residue(a, r);
  }

  lemma SieveIsList(n: nat)
    requires 2 <= n < 313
    ensures Sieved(n) <==> Listed(n)
  {
    hide OnWheel, P0, P1, P2, P3, P4, P5, P6, P7;
    SievedRow0(); SievedRow1(); SievedRow2(); SievedRow3(); SievedRow4(); SievedRow5(); SievedRow6(); SievedRow7();
    hide Sieved;
    if n <= 5 {
      UpToFive(n);
    } else if Sieved(n) {
      Wheel(n, n / 30);
      if n < 150 { ListedBelow150(n, n / 30); } else { ListedFrom150(n, n / 30); }
    }
  }

  lemma UpToFive(n: nat)
    requires 2 <= n <= 5
    ensures Sieved(n) <==> Listed(n)
  {}

  lemma InRows(n: nat)
    ensures n in PRIMES <==> Listed(n)
  {}

  lemma FromTwo()
    ensures forall n :: Listed(n) ==> n >= 2
  {}

  lemma TooSmall(n: nat)
    requires n < 2
    ensures !IsPrime(n)
  {}

  /** PRIMES is the list of the first 64 primes. */
  lemma PrimesAreFirst()
    ensures |PRIMES| == 64 && forall i :: 0 < i < 64 ==> PRIMES[i - 1] < PRIMES[i]
    ensures forall n: nat :: n <= PRIMES[63] ==> (n in PRIMES <==> IsPrime(n))
  {
    hide IsPrime, Listed, Sieved;
    Increasing();
    FromTwo();
    forall n: nat | n <= PRIMES[63]
      ensures n in PRIMES <==> IsPrime(n)
    {
      InRows(n);
      if n < 2 {
        TooSmall(n);
      } else {
        SievedIsPrime(n);
        SieveIsList(n);
      }
    }
  }

  predicate Ascending(row: seq<nat>) {
    forall i :: 0 < i < |row| ==> row[i - 1] < row[i]
  }

  lemma Lengths()
    ensures |P0| == |P1| == |P2| == |P3| == |P4| == |P5| == |P6| == |P7| == 8
    ensures |K0| == |K1| == |K2| == |K3| == |K4| == |K5| == |K6| == |K7| == 8
  {}

  lemma RowsAscend()
    ensures Ascending(P0) && Ascending(P1) && Ascending(P2) && Ascending(P3)
    ensures Ascending(P4) && Ascending(P5) && Ascending(P6) && Ascending(P7)
  {}

  lemma Ends()
    ensures |P0| == |P1| == |P2| == |P3| == |P4| == |P5| == |P6| == |P7| == 8
    ensures P0[7] < P1[0] && P1[7] < P2[0] && P2[7] < P3[0] && P3[7] < P4[0]
    ensures P4[7] < P5[0] && P5[7] < P6[0] && P6[7] < P7[0] && P7[7] == 311
  {}

  lemma Increasing()
    ensures |PRIMES| == 64 && PRIMES[63] == 311 && Ascending(PRIMES)
  {
    hide P0, P1, P2, P3, P4, P5, P6, P7, Ascending;
    RowsAscend();
    Ends();
    AscendingPair(P0, P1);
    AscendingPair(P0 + P1, P2);
    AscendingPair(P0 + P1 + P2, P3);
    AscendingPair(P0 + P1 + P2 + P3, P4);
    AscendingPair(P0 + P1 + P2 + P3 + P4, P5);
    AscendingPair(P0 + P1 + P2 + P3 + P4 + P5, P6);
    AscendingPair(P0 + P1 + P2 + P3 + P4 + P5 + P6, P7);
  }

  lemma AscendingPair(a: seq<nat>, b: seq<nat>)
    requires Ascending(a) && Ascending(b) && a != [] && b != [] && a[|a| - 1] < b[0]
    ensures Ascending(a + b)
  {}

  // ---- The roots ----------------------------------------------------------------------------------------

  function Cube(n: nat): nat { n * n * n }

  function Square(n: nat): nat { n * n }

  /** With q the integer part of the cube root of p, q and k are its first bits: q * 2^32 + k is the
      integer part of 2^32 times the root. */
  ghost predicate CubeRootBits(p: nat, k: Word) {
    exists q: nat :: Cube(q) <= p < Cube(q + 1) &&
      Cube(q * 0x1_0000_0000 + k as nat) <= p * 0x1_0000_0000_0000_0000_0000_0000 < Cube(q * 0x1_0000_0000 + k as nat + 1)
  }

  ghost predicate SquareRootBits(p: nat, k: Word) {
    exists q: nat :: Square(q) <= p < Square(q + 1) &&
      Square(q * 0x1_0000_0000 + k as nat) <= p * 0x1_0000_0000_0000_0000 < Square(q * 0x1_0000_0000 + k as nat + 1)
  }

  lemma CubeRoot(p: nat, q: nat, k: Word)
    requires Cube(q) <= p < Cube(q + 1)
    requires Cube(q * 0x1_0000_0000 + k as nat) <= p * 0x1_0000_0000_0000_0000_0000_0000 < Cube(q * 0x1_0000_0000 + k as nat + 1)
    ensures CubeRootBits(p, k)
  {}

  lemma SquareRoot(p: nat, q: nat, k: Word)
    requires Square(q) <= p < Square(q + 1)
    requires Square(q * 0x1_0000_0000 + k as nat) <= p * 0x1_0000_0000_0000_0000 < Square(q * 0x1_0000_0000 + k as nat + 1)
    ensures SquareRootBits(p, k)
  {}

  lemma Row0()
    ensures forall i :: 0 <= i < 8 ==> CubeRootBits(P0[i], K0[i])
  {
    hide CubeRootBits;
    CubeRoot(2, 1, 0x428a2f98);
    CubeRoot(3, 1, 0x71374491);
    CubeRoot(5, 1, 0xb5c0fbcf);
    CubeRoot(7, 1, 0xe9b5dba5);
    CubeRoot(11, 2, 0x3956c25b);
    CubeRoot(13, 2, 0x59f111f1);
    CubeRoot(17, 2, 0x923f82a4);
    CubeRoot(19, 2, 0xab1c5ed5);
  }

  lemma Row1()
    ensures forall i :: 0 <= i < 8 ==> CubeRootBits(P1[i], K1[i])
  {
    hide CubeRootBits;
    CubeRoot(23, 2, 0xd807aa98);
    CubeRoot(29, 3, 0x12835b01);
    CubeRoot(31, 3, 0x243185be);
    CubeRoot(37, 3, 0x550c7dc3);
    CubeRoot(41, 3, 0x72be5d74);
    CubeRoot(43, 3, 0x80deb1fe);
    CubeRoot(47, 3, 0x9bdc06a7);
    CubeRoot(53, 3, 0xc19bf174);
  }

  lemma Row2()
    ensures forall i :: 0 <= i < 8 ==> CubeRootBits(P2[i], K2[i])
  {
    hide CubeRootBits;
    CubeRoot(59, 3, 0xe49b69c1);
    CubeRoot(61, 3, 0xefbe4786);
    CubeRoot(67, 4, 0x0fc19dc6);
    CubeRoot(71, 4, 0x240ca1cc);
    CubeRoot(73, 4, 0x2de92c6f);
    CubeRoot(79, 4, 0x4a7484aa);
    CubeRoot(83, 4, 0x5cb0a9dc);
    CubeRoot(89, 4, 0x76f988da);
  }

  lemma Row3()
    ensures forall i :: 0 <= i < 8 ==> CubeRootBits(P3[i], K3[i])
  {
    hide CubeRootBits;
    CubeRoot(97, 4, 0x983e5152);
    CubeRoot(101, 4, 0xa831c66d);
    CubeRoot(103, 4, 0xb00327c8);
    CubeRoot(107, 4, 0xbf597fc7);
    CubeRoot(109, 4, 0xc6e00bf3);
    CubeRoot(113, 4, 0xd5a79147);
    CubeRoot(127, 5, 0x06ca6351);
    CubeRoot(131, 5, 0x14292967);
  }

  lemma Row4()
    ensures forall i :: 0 <= i < 8 ==> CubeRootBits(P4[i], K4[i])
  {
    hide CubeRootBits;
    CubeRoot(137, 5, 0x27b70a85);
    CubeRoot(139, 5, 0x2e1b2138);
    CubeRoot(149, 5, 0x4d2c6dfc);
    CubeRoot(151, 5, 0x53380d13);
    CubeRoot(157, 5, 0x650a7354);
    CubeRoot(163, 5, 0x766a0abb);
    CubeRoot(167, 5, 0x81c2c92e);
    CubeRoot(173, 5, 0x92722c85);
  }

  lemma Row5()
    ensures forall i :: 0 <= i < 8 ==> CubeRootBits(P5[i], K5[i])
  {
    hide CubeRootBits;
    CubeRoot(179, 5, 0xa2bfe8a1);
    CubeRoot(181, 5, 0xa81a664b);
    CubeRoot(191, 5, 0xc24b8b70);
    CubeRoot(193, 5, 0xc76c51a3);
    CubeRoot(197, 5, 0xd192e819);
    CubeRoot(199, 5, 0xd6990624);
    CubeRoot(211, 5, 0xf40e3585);
    CubeRoot(223, 6, 0x106aa070);
  }

  lemma Row6()
    ensures forall i :: 0 <= i < 8 ==> CubeRootBits(P6[i], K6[i])
  {
    hide CubeRootBits;
    CubeRoot(227, 6, 0x19a4c116);
    CubeRoot(229, 6, 0x1e376c08);
    CubeRoot(233, 6, 0x2748774c);
    CubeRoot(239, 6, 0x34b0bcb5);
    CubeRoot(241, 6, 0x391c0cb3);
    CubeRoot(251, 6, 0x4ed8aa4a);
    CubeRoot(257, 6, 0x5b9cca4f);
    CubeRoot(263, 6, 0x682e6ff3);
  }

  lemma Row7()
    ensures forall i :: 0 <= i < 8 ==> CubeRootBits(P7[i], K7[i])
  {
    hide CubeRootBits;
    CubeRoot(269, 6, 0x748f82ee);
    CubeRoot(271, 6, 0x78a5636f);
    CubeRoot(277, 6, 0x84c87814);
    CubeRoot(281, 6, 0x8cc70208);
    CubeRoot(283, 6, 0x90befffa);
    CubeRoot(293, 6, 0xa4506ceb);
    CubeRoot(307, 6, 0xbef9a3f7);
    CubeRoot(311, 6, 0xc67178f2);
  }

  /** Round constant t comes from the cube root of the t-th prime. */
  lemma RoundConstants()
    ensures |PRIMES| == |K| == 64
    ensures forall t :: 0 <= t < 64 ==> CubeRootBits(PRIMES[t], K[t])
  {
    hide CubeRootBits, P0, P1, P2, P3, P4, P5, P6, P7, K0, K1, K2, K3, K4, K5, K6, K7;
    Lengths();
    forall t | 0 <= t < 64
      ensures CubeRootBits(PRIMES[t], K[t])
    {
      if t < 8 { Row0(); assert PRIMES[t] == P0[t] && K[t] == K0[t]; }
      else if t < 16 { Row1(); assert PRIMES[t] == P1[t - 8] && K[t] == K1[t - 8]; }
      else if t < 24 { Row2(); assert PRIMES[t] == P2[t - 16] && K[t] == K2[t - 16]; }
      else if t < 32 { Row3(); assert PRIMES[t] == P3[t - 24] && K[t] == K3[t - 24]; }
      else if t < 40 { Row4(); assert PRIMES[t] == P4[t - 32] && K[t] == K4[t - 32]; }
      else if t < 48 { Row5(); assert PRIMES[t] == P5[t - 40] && K[t] == K5[t - 40]; }
      else if t < 56 { Row6(); assert PRIMES[t] == P6[t - 48] && K[t] == K6[t - 48]; }
      else if t < 64 { Row7(); assert PRIMES[t] == P7[t - 56] && K[t] == K7[t - 56]; }
    }
  }

  /** The initial hash value comes from the square roots of the first eight primes. */
  lemma InitialWords()
    ensures |PRIMES| == 64 && forall i :: 0 <= i < 8 ==> SquareRootBits(PRIMES[i], Words(INITIAL)[i])
  {
    hide SquareRootBits;
    SquareRoot(2, 1, 0x6a09e667);
    SquareRoot(3, 1, 0xbb67ae85);
    SquareRoot(5, 2, 0x3c6ef372);
    SquareRoot(7, 2, 0xa54ff53a);
    SquareRoot(11, 3, 0x510e527f);
    SquareRoot(13, 3, 0x9b05688c);
    SquareRoot(17, 4, 0x1f83d9ab);
    SquareRoot(19, 4, 0x5be0cd19);
  }
}
