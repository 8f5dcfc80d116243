/** The constants of SHA-256, from the definitions FIPS 180-4 gives for them (sections 4.2.2 and 5.3.3):
    the first 32 bits of the fractional parts of the cube roots, and of the square roots, of the first
    primes. */
module Fips180Constants {
  import opened Words
  import opened Fips180

  const PRIMES_FIRST: seq<nat> := [
    2, 3, 5, 7, 11, 13, 17, 19, 23, 29, 31, 37, 41, 43, 47, 53,
    59, 61, 67, 71, 73, 79, 83, 89, 97, 101, 103, 107, 109, 113, 127, 131]

  const PRIMES_SECOND: seq<nat> := [
    137, 139, 149, 151, 157, 163, 167, 173, 179, 181, 191, 193, 197, 199, 211, 223,
    227, 229, 233, 239, 241, 251, 257, 263, 269, 271, 277, 281, 283, 293, 307, 311]

  const PRIMES: seq<nat> := PRIMES_FIRST + PRIMES_SECOND

  /** k is the first 32 bits of the fractional part of the cube root of p. */
  ghost predicate CubeRootFraction(p: nat, k: word) {
    exists x: nat :: IsCubeRoot(p, x) && k == x % 0x1_0000_0000
  }

  /** x is the cube root of p, scaled by 2^32 and rounded down. */
  ghost predicate IsCubeRoot(p: nat, x: nat) {
    x * x * x <= p * 0x1_0000_0000_0000_0000_0000_0000 < (x + 1) * (x + 1) * (x + 1)
  }

  ghost predicate SquareRootFraction(p: nat, k: word) {
    exists x: nat :: IsSquareRoot(p, x) && k == x % 0x1_0000_0000
  }

  ghost predicate IsSquareRoot(p: nat, x: nat) {
    x * x <= p * 0x1_0000_0000_0000_0000 < (x + 1) * (x + 1)
  }

  lemma Cube(p: nat, x: nat, k: word)
    requires IsCubeRoot(p, x) && k == x % 0x1_0000_0000
    ensures CubeRootFraction(p, k)
  {
  }

  lemma Square(p: nat, x: nat, k: word)
    requires IsSquareRoot(p, x) && k == x % 0x1_0000_0000
    ensures SquareRootFraction(p, k)
  {
  }

  lemma Cubes0()
    ensures forall t :: 0 <= t < 8 ==> CubeRootFraction(PRIMES_FIRST[t], K_FIRST[t])
  {
    Cube(2, 0x1428a2f98, 0x428a2f98);
    Cube(3, 0x171374491, 0x71374491);
    Cube(5, 0x1b5c0fbcf, 0xb5c0fbcf);
    Cube(7, 0x1e9b5dba5, 0xe9b5dba5);
    Cube(11, 0x23956c25b, 0x3956c25b);
    Cube(13, 0x259f111f1, 0x59f111f1);
    Cube(17, 0x2923f82a4, 0x923f82a4);
    Cube(19, 0x2ab1c5ed5, 0xab1c5ed5);
  }

  lemma Cubes1()
    ensures forall t :: 8 <= t < 16 ==> CubeRootFraction(PRIMES_FIRST[t], K_FIRST[t])
  {
    Cube(23, 0x2d807aa98, 0xd807aa98);
    Cube(29, 0x312835b01, 0x12835b01);
    Cube(31, 0x3243185be, 0x243185be);
    Cube(37, 0x3550c7dc3, 0x550c7dc3);
    Cube(41, 0x372be5d74, 0x72be5d74);
    Cube(43, 0x380deb1fe, 0x80deb1fe);
    Cube(47, 0x39bdc06a7, 0x9bdc06a7);
    Cube(53, 0x3c19bf174, 0xc19bf174);
  }

  lemma Cubes2()
    ensures forall t :: 16 <= t < 24 ==> CubeRootFraction(PRIMES_FIRST[t], K_FIRST[t])
  {
    Cube(59, 0x3e49b69c1, 0xe49b69c1);
    Cube(61, 0x3efbe4786, 0xefbe4786);
    Cube(67, 0x40fc19dc6, 0x0fc19dc6);
    Cube(71, 0x4240ca1cc, 0x240ca1cc);
    Cube(73, 0x42de92c6f, 0x2de92c6f);
    Cube(79, 0x44a7484aa, 0x4a7484aa);
    Cube(83, 0x45cb0a9dc, 0x5cb0a9dc);
    Cube(89, 0x476f988da, 0x76f988da);
  }

  lemma Cubes3()
    ensures forall t :: 24 <= t < 32 ==> CubeRootFraction(PRIMES_FIRST[t], K_FIRST[t])
  {
    Cube(97, 0x4983e5152, 0x983e5152);
    Cube(101, 0x4a831c66d, 0xa831c66d);
    Cube(103, 0x4b00327c8, 0xb00327c8);
    Cube(107, 0x4bf597fc7, 0xbf597fc7);
    Cube(109, 0x4c6e00bf3, 0xc6e00bf3);
    Cube(113, 0x4d5a79147, 0xd5a79147);
    Cube(127, 0x506ca6351, 0x06ca6351);
    Cube(131, 0x514292967, 0x14292967);
  }

  lemma Cubes4()
    ensures forall t :: 0 <= t < 8 ==> CubeRootFraction(PRIMES_SECOND[t], K_SECOND[t])
  {
    Cube(137, 0x527b70a85, 0x27b70a85);
    Cube(139, 0x52e1b2138, 0x2e1b2138);
    Cube(149, 0x54d2c6dfc, 0x4d2c6dfc);
    Cube(151, 0x553380d13, 0x53380d13);
    Cube(157, 0x5650a7354, 0x650a7354);
    Cube(163, 0x5766a0abb, 0x766a0abb);
    Cube(167, 0x581c2c92e, 0x81c2c92e);
    Cube(173, 0x592722c85, 0x92722c85);
  }

  lemma Cubes5()
    ensures forall t :: 8 <= t < 16 ==> CubeRootFraction(PRIMES_SECOND[t], K_SECOND[t])
  {
    Cube(179, 0x5a2bfe8a1, 0xa2bfe8a1);
    Cube(181, 0x5a81a664b, 0xa81a664b);
    Cube(191, 0x5c24b8b70, 0xc24b8b70);
    Cube(193, 0x5c76c51a3, 0xc76c51a3);
    Cube(197, 0x5d192e819, 0xd192e819);
    Cube(199, 0x5d6990624, 0xd6990624);
    Cube(211, 0x5f40e3585, 0xf40e3585);
    Cube(223, 0x6106aa070, 0x106aa070);
  }

  lemma Cubes6()
    ensures forall t :: 16 <= t < 24 ==> CubeRootFraction(PRIMES_SECOND[t], K_SECOND[t])
  {
    Cube(227, 0x619a4c116, 0x19a4c116);
    Cube(229, 0x61e376c08, 0x1e376c08);
    Cube(233, 0x62748774c, 0x2748774c);
    Cube(239, 0x634b0bcb5, 0x34b0bcb5);
    Cube(241, 0x6391c0cb3, 0x391c0cb3);
    Cube(251, 0x64ed8aa4a, 0x4ed8aa4a);
    Cube(257, 0x65b9cca4f, 0x5b9cca4f);
    Cube(263, 0x6682e6ff3, 0x682e6ff3);
  }

  lemma Cubes7()
    ensures forall t :: 24 <= t < 32 ==> CubeRootFraction(PRIMES_SECOND[t], K_SECOND[t])
  {
    Cube(269, 0x6748f82ee, 0x748f82ee);
    Cube(271, 0x678a5636f, 0x78a5636f);
    Cube(277, 0x684c87814, 0x84c87814);
    Cube(281, 0x68cc70208, 0x8cc70208);
    Cube(283, 0x690befffa, 0x90befffa);
    Cube(293, 0x6a4506ceb, 0xa4506ceb);
    Cube(307, 0x6bef9a3f7, 0xbef9a3f7);
    Cube(311, 0x6c67178f2, 0xc67178f2);
  }

  /** Every round constant is the one of its prime. */
  lemma RoundConstants(t: nat)
    requires t < 64
    ensures |K| == 64 && |PRIMES| == 64 && CubeRootFraction(PRIMES[t], K[t])
  {
    hide CubeRootFraction;
    Cubes0();
    Cubes1();
    Cubes2();
    Cubes3();
    Cubes4();
    Cubes5();
    Cubes6();
    Cubes7();
    if t < 32 {
      assert PRIMES[t] == PRIMES_FIRST[t] && K[t] == K_FIRST[t];
    } else {
      assert PRIMES[t] == PRIMES_SECOND[t - 32] && K[t] == K_SECOND[t - 32];
    }
  }

  /** And so is every word of the initial hash value. */
  lemma InitialHash()
    ensures SquareRootFraction(2, H0.a)
    ensures SquareRootFraction(3, H0.b)
    ensures SquareRootFraction(5, H0.c)
    ensures SquareRootFraction(7, H0.d)
    ensures SquareRootFraction(11, H0.e)
    ensures SquareRootFraction(13, H0.f)
    ensures SquareRootFraction(17, H0.g)
    ensures SquareRootFraction(19, H0.h)
  {
    Square(2, 0x16a09e667, 0x6a09e667);
    Square(3, 0x1bb67ae85, 0xbb67ae85);
    Square(5, 0x23c6ef372, 0x3c6ef372);
    Square(7, 0x2a54ff53a, 0xa54ff53a);
    Square(11, 0x3510e527f, 0x510e527f);
    Square(13, 0x39b05688c, 0x9b05688c);
    Square(17, 0x41f83d9ab, 0x1f83d9ab);
    Square(19, 0x45be0cd19, 0x5be0cd19);
  }

  // ---------------------------------------------------------------- the primes

  ghost predicate IsPrime(n: nat) {
    n >= 2 && forall d :: 2 <= d < n ==> n % d != 0
  }

  /** No small prime divides n. */
  predicate Sieved(n: nat) {
    n % 2 != 0 && n % 3 != 0 && n % 5 != 0 && n % 7 != 0 && n % 11 != 0 && n % 13 != 0 && n % 17 != 0
  }

  lemma SmallFactor(n: nat, m: nat, k: nat)
    requires 2 <= m <= 18 && n == m * k
    ensures !Sieved(n)
  {
    if m % 2 == 0 { Multiple(n, 2, m / 2 * k); }
    else if m % 3 == 0 { Multiple(n, 3, m / 3 * k); }
    else if m % 5 == 0 { Multiple(n, 5, m / 5 * k); }
    else { Multiple(n, m, k); }
  }

  lemma Multiple(n: nat, q: nat, k: nat)
    requires q > 0 && n == q * k
    ensures n % q == 0
  {
    ModUnique(n, q, k, 0);
  }

  /** Up to 19 squared, trial division by the primes up to 17 decides. */
  lemma SieveDecides(n: nat)
    requires 17 < n < 361
    ensures IsPrime(n) <==> Sieved(n)
  {
    if IsPrime(n) {
      assert n % 2 != 0 && n % 3 != 0 && n % 5 != 0 && n % 7 != 0;
      assert n % 11 != 0 && n % 13 != 0 && n % 17 != 0;
    }
    if Sieved(n) {
      forall d | 2 <= d < n ensures n % d != 0 {
        if n % d == 0 {
          var e := n / d;
          assert n == d * e;
          if d <= 18 {
            SmallFactor(n, d, e);
          } else {
            CoFactor(n, d, e);
            SmallFactor(n, e, d);
          }
        }
      }
    }
  }

  lemma CoFactor(n: nat, d: nat, e: nat)
    requires n < 361 && 19 <= d < n && n == d * e
    ensures 2 <= e <= 18
  {
  }

  lemma SmallPrimes(n: nat)
    requires n <= 18
    ensures IsPrime(n) <==> n in {2, 3, 5, 7, 11, 13, 17}
  {
    if n in {4, 6, 8, 10, 12, 14, 16, 18} { assert n % 2 == 0; }
    if n in {9, 15} { assert n % 3 == 0; }
  }

  lemma Sieved0(n: nat)
    requires 18 <= n < 48
    ensures Sieved(n) <==> n in {19, 23, 29, 31, 37, 41, 43, 47}
  {
  }

  lemma Sieved1(n: nat)
    requires 48 <= n < 78
    ensures Sieved(n) <==> n in {53, 59, 61, 67, 71, 73}
  {
  }

  lemma Sieved2(n: nat)
    requires 78 <= n < 108
    ensures Sieved(n) <==> n in {79, 83, 89, 97, 101, 103, 107}
  {
  }

  lemma Sieved3(n: nat)
    requires 108 <= n < 138
    ensures Sieved(n) <==> n in {109, 113, 127, 131, 137}
  {
  }

  lemma Sieved4(n: nat)
    requires 138 <= n < 168
    ensures Sieved(n) <==> n in {139, 149, 151, 157, 163, 167}
  {
  }

  lemma Sieved5(n: nat)
    requires 168 <= n < 198
    ensures Sieved(n) <==> n in {173, 179, 181, 191, 193, 197}
  {
  }

  lemma Sieved6(n: nat)
    requires 198 <= n < 228
    ensures Sieved(n) <==> n in {199, 211, 223, 227}
  {
  }

  lemma Sieved7(n: nat)
    requires 228 <= n < 258
    ensures Sieved(n) <==> n in {229, 233, 239, 241, 251, 257}
  {
  }

  lemma Sieved8(n: nat)
    requires 258 <= n < 288
    ensures Sieved(n) <==> n in {263, 269, 271, 277, 281, 283}
  {
  }

  lemma Sieved9(n: nat)
    requires 288 <= n < 312
    ensures Sieved(n) <==> n in {293, 307, 311}
  {
  }

  /** The table lists exactly the primes up to its last entry, in order. */
  lemma PrimesAreAll(n: nat)
    requires n <= 311
    ensures IsPrime(n) <==> n in PRIMES
  {
    InTable(n);
    if n <= 18 {
      SmallPrimes(n);
    } else {
      SieveDecides(n);
      hide Sieved, IsPrime;
      if n < 48 { Sieved0(n); }
      else if n < 78 { Sieved1(n); }
      else if n < 108 { Sieved2(n); }
      else if n < 138 { Sieved3(n); }
      else if n < 168 { Sieved4(n); }
      else if n < 198 { Sieved5(n); }
      else if n < 228 { Sieved6(n); }
      else if n < 258 { Sieved7(n); }
      else if n < 288 { Sieved8(n); }
      else { Sieved9(n); }
    }
  }

  lemma InTable(n: nat)
    ensures n in PRIMES <==> n in {
      2, 3, 5, 7, 11, 13, 17, 19, 23, 29, 31, 37, 41, 43, 47, 53,
      59, 61, 67, 71, 73, 79, 83, 89, 97, 101, 103, 107, 109, 113, 127, 131,
      137, 139, 149, 151, 157, 163, 167, 173, 179, 181, 191, 193, 197, 199, 211, 223,
      227, 229, 233, 239, 241, 251, 257, 263, 269, 271, 277, 281, 283, 293, 307, 311}
  {
    assert n in PRIMES <==> n in PRIMES_FIRST || n in PRIMES_SECOND;
  }

  lemma PrimesIncrease(t: nat, u: nat)
    requires t < u < 64
    ensures PRIMES[t] < PRIMES[u]
    decreases u
  {
    OneUp(u - 1);
    if t < u - 1 { PrimesIncrease(t, u - 1); }
  }

  lemma OneUp(t: nat)
    requires t < 63
    ensures PRIMES[t] < PRIMES[t + 1]
  {
    FirstUp();
    SecondUp();
    TwoHalves();
    hide *;
    var first, second := PRIMES_FIRST, PRIMES_SECOND;
    if t < 31 {
      assert PRIMES[t] == first[t] && PRIMES[t + 1] == first[t + 1];
    } else if t > 31 {
      assert PRIMES[t] == second[t - 32] && PRIMES[t + 1] == second[t - 31];
    }
  }

  lemma TwoHalves()
    ensures PRIMES == PRIMES_FIRST + PRIMES_SECOND && |PRIMES_FIRST| == 32 && |PRIMES_SECOND| == 32
    ensures PRIMES_FIRST[31] < PRIMES_SECOND[0]
  {
  }

  lemma FirstUp()
    ensures |PRIMES_FIRST| == 32 && forall t, u :: 0 <= t < 31 && u == t + 1 ==> PRIMES_FIRST[t] < PRIMES_FIRST[u]
  {
  }

  lemma SecondUp()
    ensures |PRIMES_SECOND| == 32 && forall t, u :: 0 <= t < 31 && u == t + 1 ==> PRIMES_SECOND[t] < PRIMES_SECOND[u]
  {
  }
}
