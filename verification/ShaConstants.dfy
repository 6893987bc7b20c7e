/** The constants of SHA-256, and the roots of the first primes they are taken from (sections 4.2.2 and
    5.3.3 of FIPS 180-4). */
module ShaConstants {
  import opened Words

  /** One for each round. */
  const ROUND_WORDS: seq<seq<U32>> := [
    [0x428a2f98, 0x71374491, 0xb5c0fbcf, 0xe9b5dba5, 0x3956c25b, 0x59f111f1, 0x923f82a4, 0xab1c5ed5],
    [0xd807aa98, 0x12835b01, 0x243185be, 0x550c7dc3, 0x72be5d74, 0x80deb1fe, 0x9bdc06a7, 0xc19bf174],
    [0xe49b69c1, 0xefbe4786, 0x0fc19dc6, 0x240ca1cc, 0x2de92c6f, 0x4a7484aa, 0x5cb0a9dc, 0x76f988da],
    [0x983e5152, 0xa831c66d, 0xb00327c8, 0xbf597fc7, 0xc6e00bf3, 0xd5a79147, 0x06ca6351, 0x14292967],
    [0x27b70a85, 0x2e1b2138, 0x4d2c6dfc, 0x53380d13, 0x650a7354, 0x766a0abb, 0x81c2c92e, 0x92722c85],
    [0xa2bfe8a1, 0xa81a664b, 0xc24b8b70, 0xc76c51a3, 0xd192e819, 0xd6990624, 0xf40e3585, 0x106aa070],
    [0x19a4c116, 0x1e376c08, 0x2748774c, 0x34b0bcb5, 0x391c0cb3, 0x4ed8aa4a, 0x5b9cca4f, 0x682e6ff3],
    [0x748f82ee, 0x78a5636f, 0x84c87814, 0x8cc70208, 0x90befffa, 0xa4506ceb, 0xbef9a3f7, 0xc67178f2]]

  /** The hash value to start from. */
  const START_WORDS: seq<U32> := [
    0x6a09e667, 0xbb67ae85, 0x3c6ef372, 0xa54ff53a, 0x510e527f, 0x9b05688c, 0x1f83d9ab, 0x5be0cd19]

  /** The first 64 primes. */
  const PRIMES: seq<seq<nat>> := [
    [2, 3, 5, 7, 11, 13, 17, 19],
    [23, 29, 31, 37, 41, 43, 47, 53],
    [59, 61, 67, 71, 73, 79, 83, 89],
    [97, 101, 103, 107, 109, 113, 127, 131],
    [137, 139, 149, 151, 157, 163, 167, 173],
    [179, 181, 191, 193, 197, 199, 211, 223],
    [227, 229, 233, 239, 241, 251, 257, 263],
    [269, 271, 277, 281, 283, 293, 307, 311]]

  /** `c` is the first 32 bits of the fractional part of the cube root of `p`, whose whole part is `w`. */
  predicate CubeRoot(p: nat, w: nat, c: U32) {
    var n := w * 0x1_0000_0000 + c;
    n * n * n <= p * 0x1_0000_0000 * 0x1_0000_0000 * 0x1_0000_0000 < (n + 1) * (n + 1) * (n + 1)
  }

  predicate SquareRoot(p: nat, w: nat, c: U32) {
    var n := w * 0x1_0000_0000 + c;
    n * n <= p * 0x1_0000_0000 * 0x1_0000_0000 < (n + 1) * (n + 1)
  }

  ghost predicate CubeFraction(p: nat, c: U32) {
    exists w: nat :: CubeRoot(p, w, c)
  }

  ghost predicate SquareFraction(p: nat, c: U32) {
    exists w: nat :: SquareRoot(p, w, c)
  }

  ghost predicate CubeFractions(ps: seq<nat>, cs: seq<U32>) {
    |ps| == |cs| == 8 && forall k :: 0 <= k < 8 ==> CubeFraction(ps[k], cs[k])
  }

  /** The starting words are fractions of the square roots of the first eight primes. */
  lemma StartsAreRoots()
    ensures |START_WORDS| == 8 && forall k :: 0 <= k < 8 ==> SquareFraction(PRIMES[0][k], START_WORDS[k])
  {
    assert SquareRoot(2, 1, 0x6a09e667) && SquareRoot(3, 1, 0xbb67ae85);
    assert SquareRoot(5, 2, 0x3c6ef372) && SquareRoot(7, 2, 0xa54ff53a);
    assert SquareRoot(11, 3, 0x510e527f) && SquareRoot(13, 3, 0x9b05688c);
    assert SquareRoot(17, 4, 0x1f83d9ab) && SquareRoot(19, 4, 0x5be0cd19);
  }

  lemma Row0()
    ensures CubeFractions(PRIMES[0], ROUND_WORDS[0])
  {
    assert CubeRoot(2, 1, 0x428a2f98) && CubeRoot(3, 1, 0x71374491);
    assert CubeRoot(5, 1, 0xb5c0fbcf) && CubeRoot(7, 1, 0xe9b5dba5);
    assert CubeRoot(11, 2, 0x3956c25b) && CubeRoot(13, 2, 0x59f111f1);
    assert CubeRoot(17, 2, 0x923f82a4) && CubeRoot(19, 2, 0xab1c5ed5);
  }

  lemma Row1()
    ensures CubeFractions(PRIMES[1], ROUND_WORDS[1])
  {
    assert CubeRoot(23, 2, 0xd807aa98) && CubeRoot(29, 3, 0x12835b01);
    assert CubeRoot(31, 3, 0x243185be) && CubeRoot(37, 3, 0x550c7dc3);
    assert CubeRoot(41, 3, 0x72be5d74) && CubeRoot(43, 3, 0x80deb1fe);
    assert CubeRoot(47, 3, 0x9bdc06a7) && CubeRoot(53, 3, 0xc19bf174);
  }

  lemma Row2()
    ensures CubeFractions(PRIMES[2], ROUND_WORDS[2])
  {
    assert CubeRoot(59, 3, 0xe49b69c1) && CubeRoot(61, 3, 0xefbe4786);
    assert CubeRoot(67, 4, 0x0fc19dc6) && CubeRoot(71, 4, 0x240ca1cc);
    assert CubeRoot(73, 4, 0x2de92c6f) && CubeRoot(79, 4, 0x4a7484aa);
    assert CubeRoot(83, 4, 0x5cb0a9dc) && CubeRoot(89, 4, 0x76f988da);
  }

  lemma Row3()
    ensures CubeFractions(PRIMES[3], ROUND_WORDS[3])
  {
    assert CubeRoot(97, 4, 0x983e5152) && CubeRoot(101, 4, 0xa831c66d);
    assert CubeRoot(103, 4, 0xb00327c8) && CubeRoot(107, 4, 0xbf597fc7);
    assert CubeRoot(109, 4, 0xc6e00bf3) && CubeRoot(113, 4, 0xd5a79147);
    assert CubeRoot(127, 5, 0x06ca6351) && CubeRoot(131, 5, 0x14292967);
  }

  lemma Row4()
    ensures CubeFractions(PRIMES[4], ROUND_WORDS[4])
  {
    assert CubeRoot(137, 5, 0x27b70a85) && CubeRoot(139, 5, 0x2e1b2138);
    assert CubeRoot(149, 5, 0x4d2c6dfc) && CubeRoot(151, 5, 0x53380d13);
    assert CubeRoot(157, 5, 0x650a7354) && CubeRoot(163, 5, 0x766a0abb);
    assert CubeRoot(167, 5, 0x81c2c92e) && CubeRoot(173, 5, 0x92722c85);
  }

  lemma Row5()
    ensures CubeFractions(PRIMES[5], ROUND_WORDS[5])
  {
    assert CubeRoot(179, 5, 0xa2bfe8a1) && CubeRoot(181, 5, 0xa81a664b);
    assert CubeRoot(191, 5, 0xc24b8b70) && CubeRoot(193, 5, 0xc76c51a3);
    assert CubeRoot(197, 5, 0xd192e819) && CubeRoot(199, 5, 0xd6990624);
    assert CubeRoot(211, 5, 0xf40e3585) && CubeRoot(223, 6, 0x106aa070);
  }

  lemma Row6()
    ensures CubeFractions(PRIMES[6], ROUND_WORDS[6])
  {
    assert CubeRoot(227, 6, 0x19a4c116) && CubeRoot(229, 6, 0x1e376c08);
    assert CubeRoot(233, 6, 0x2748774c) && CubeRoot(239, 6, 0x34b0bcb5);
    assert CubeRoot(241, 6, 0x391c0cb3) && CubeRoot(251, 6, 0x4ed8aa4a);
    assert CubeRoot(257, 6, 0x5b9cca4f) && CubeRoot(263, 6, 0x682e6ff3);
  }

  lemma Row7()
    ensures CubeFractions(PRIMES[7], ROUND_WORDS[7])
  {
    assert CubeRoot(269, 6, 0x748f82ee) && CubeRoot(271, 6, 0x78a5636f);
    assert CubeRoot(277, 6, 0x84c87814) && CubeRoot(281, 6, 0x8cc70208);
    assert CubeRoot(283, 6, 0x90befffa) && CubeRoot(293, 6, 0xa4506ceb);
    assert CubeRoot(307, 6, 0xbef9a3f7) && CubeRoot(311, 6, 0xc67178f2);
  }

  /** The round words are fractions of the cube roots of the first 64 primes, in order. */
  lemma RoundsAreRoots()
    ensures |ROUND_WORDS| == |PRIMES| == 8 && forall r :: 0 <= r < 8 ==> CubeFractions(PRIMES[r], ROUND_WORDS[r])
  {
    Row0();
    Row1();
    Row2();
    Row3();
    Row4();
    Row5();
    Row6();
    Row7();
  }
}
