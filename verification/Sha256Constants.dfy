/** Where the constants of SHA-256 come from, and what its two choosing functions choose: sections 4.1.2, 4.2.2 and 5.3.3 of FIPS 180-4. */
module Sha256Constants {
  import opened Sha256

  /** The first 64 primes, in rows of eight. */
  function PrimeRow(row: nat): (r: seq<nat>)
    requires row < 8
    ensures |r| == 8
  {
    match row
    case 0 => [2, 3, 5, 7, 11, 13, 17, 19]
    case 1 => [23, 29, 31, 37, 41, 43, 47, 53]
    case 2 => [59, 61, 67, 71, 73, 79, 83, 89]
    case 3 => [97, 101, 103, 107, 109, 113, 127, 131]
    case 4 => [137, 139, 149, 151, 157, 163, 167, 173]
    case 5 => [179, 181, 191, 193, 197, 199, 211, 223]
    case 6 => [227, 229, 233, 239, 241, 251, 257, 263]
    case 7 => [269, 271, 277, 281, 283, 293, 307, 311]
  }

  /** The whole part of the cube root of a number below 343. */
  function WholeCubeRoot(p: nat): nat {
    if p < 8 then 1 else if p < 27 then 2 else if p < 64 then 3 else if p < 125 then 4 else if p < 216 then 5 else 6
  }

  /** The whole part of the square root of a number below 25. */
  function WholeSquareRoot(p: nat): nat {
    if p < 4 then 1 else if p < 9 then 2 else if p < 16 then 3 else 4
  }

  /** The number f is the first 32 bits of the fractional part of the cube root of p. */
  predicate CubeRoot(p: nat, f: int) {
    var x := WholeCubeRoot(p) * 0x1_0000_0000 + f;
    x * x * x <= p * 0x1_0000_0000_0000_0000_0000_0000 < (x + 1) * (x + 1) * (x + 1)
  }

  /** The same for the square root. */
  predicate SquareRoot(p: nat, f: int) {
    var x := WholeSquareRoot(p) * 0x1_0000_0000 + f;
    x * x <= p * 0x1_0000_0000_0000_0000 < (x + 1) * (x + 1)
  }

  /** The initial hash value is taken from the square roots of the first eight primes. */
  lemma InitialIsSquareRoots()
    ensures SquareRoot(2, INITIAL.a as int) && SquareRoot(3, INITIAL.b as int) && SquareRoot(5, INITIAL.c as int)
    ensures SquareRoot(7, INITIAL.d as int) && SquareRoot(11, INITIAL.e as int) && SquareRoot(13, INITIAL.f as int)
    ensures SquareRoot(17, INITIAL.g as int) && SquareRoot(19, INITIAL.h as int)
  {
    assert INITIAL.a as int == 0x6a09e667 && INITIAL.b as int == 0xbb67ae85 && INITIAL.c as int == 0x3c6ef372;
    assert INITIAL.d as int == 0xa54ff53a && INITIAL.e as int == 0x510e527f && INITIAL.f as int == 0x9b05688c;
    assert INITIAL.g as int == 0x1f83d9ab && INITIAL.h as int == 0x5be0cd19;
  }

  /** The t-th round constant is taken from the cube root of the t-th prime. */
  lemma ConstantsAreCubeRoots(t: nat)
    requires t < 64
    ensures CubeRoot(PrimeRow(t / 8)[t % 8], RoundConstant(t) as int)
  {
    match t / 8
    case 0 => Row0(t % 8);
    case 1 => Row1(t % 8);
    case 2 => Row2(t % 8);
    case 3 => Row3(t % 8);
    case 4 => Row4(t % 8);
    case 5 => Row5(t % 8);
    case 6 => Row6(t % 8);
    case 7 => Row7(t % 8);
  }

  lemma Row0(i: nat)
    requires i < 8
    ensures CubeRoot(PrimeRow(0)[i], ConstantRow(0)[i] as int)
  {
    var k, p := ConstantRow(0), PrimeRow(0);
    assert k[0] as int == 0x428a2f98 && p[0] == 2;
    assert k[1] as int == 0x71374491 && p[1] == 3;
    assert k[2] as int == 0xb5c0fbcf && p[2] == 5;
    assert k[3] as int == 0xe9b5dba5 && p[3] == 7;
    assert k[4] as int == 0x3956c25b && p[4] == 11;
    assert k[5] as int == 0x59f111f1 && p[5] == 13;
    assert k[6] as int == 0x923f82a4 && p[6] == 17;
    assert k[7] as int == 0xab1c5ed5 && p[7] == 19;
  }

  lemma Row1(i: nat)
    requires i < 8
    ensures CubeRoot(PrimeRow(1)[i], ConstantRow(1)[i] as int)
  {
    var k, p := ConstantRow(1), PrimeRow(1);
    assert k[0] as int == 0xd807aa98 && p[0] == 23;
    assert k[1] as int == 0x12835b01 && p[1] == 29;
    assert k[2] as int == 0x243185be && p[2] == 31;
    assert k[3] as int == 0x550c7dc3 && p[3] == 37;
    assert k[4] as int == 0x72be5d74 && p[4] == 41;
    assert k[5] as int == 0x80deb1fe && p[5] == 43;
    assert k[6] as int == 0x9bdc06a7 && p[6] == 47;
    assert k[7] as int == 0xc19bf174 && p[7] == 53;
  }

  lemma Row2(i: nat)
    requires i < 8
    ensures CubeRoot(PrimeRow(2)[i], ConstantRow(2)[i] as int)
  {
    var k, p := ConstantRow(2), PrimeRow(2);
    assert k[0] as int == 0xe49b69c1 && p[0] == 59;
    assert k[1] as int == 0xefbe4786 && p[1] == 61;
    assert k[2] as int == 0x0fc19dc6 && p[2] == 67;
    assert k[3] as int == 0x240ca1cc && p[3] == 71;
    assert k[4] as int == 0x2de92c6f && p[4] == 73;
    assert k[5] as int == 0x4a7484aa && p[5] == 79;
    assert k[6] as int == 0x5cb0a9dc && p[6] == 83;
    assert k[7] as int == 0x76f988da && p[7] == 89;
  }

  lemma Row3(i: nat)
    requires i < 8
    ensures CubeRoot(PrimeRow(3)[i], ConstantRow(3)[i] as int)
  {
    var k, p := ConstantRow(3), PrimeRow(3);
    assert k[0] as int == 0x983e5152 && p[0] == 97;
    assert k[1] as int == 0xa831c66d && p[1] == 101;
    assert k[2] as int == 0xb00327c8 && p[2] == 103;
    assert k[3] as int == 0xbf597fc7 && p[3] == 107;
    assert k[4] as int == 0xc6e00bf3 && p[4] == 109;
    assert k[5] as int == 0xd5a79147 && p[5] == 113;
    assert k[6] as int == 0x06ca6351 && p[6] == 127;
    assert k[7] as int == 0x14292967 && p[7] == 131;
  }

  lemma Row4(i: nat)
    requires i < 8
    ensures CubeRoot(PrimeRow(4)[i], ConstantRow(4)[i] as int)
  {
    var k, p := ConstantRow(4), PrimeRow(4);
    assert k[0] as int == 0x27b70a85 && p[0] == 137;
    assert k[1] as int == 0x2e1b2138 && p[1] == 139;
    assert k[2] as int == 0x4d2c6dfc && p[2] == 149;
    assert k[3] as int == 0x53380d13 && p[3] == 151;
    assert k[4] as int == 0x650a7354 && p[4] == 157;
    assert k[5] as int == 0x766a0abb && p[5] == 163;
    assert k[6] as int == 0x81c2c92e && p[6] == 167;
    assert k[7] as int == 0x92722c85 && p[7] == 173;
  }

  lemma Row5(i: nat)
    requires i < 8
    ensures CubeRoot(PrimeRow(5)[i], ConstantRow(5)[i] as int)
  {
    var k, p := ConstantRow(5), PrimeRow(5);
    assert k[0] as int == 0xa2bfe8a1 && p[0] == 179;
    assert k[1] as int == 0xa81a664b && p[1] == 181;
    assert k[2] as int == 0xc24b8b70 && p[2] == 191;
    assert k[3] as int == 0xc76c51a3 && p[3] == 193;
    assert k[4] as int == 0xd192e819 && p[4] == 197;
    assert k[5] as int == 0xd6990624 && p[5] == 199;
    assert k[6] as int == 0xf40e3585 && p[6] == 211;
    assert k[7] as int == 0x106aa070 && p[7] == 223;
  }

  lemma Row6(i: nat)
    requires i < 8
    ensures CubeRoot(PrimeRow(6)[i], ConstantRow(6)[i] as int)
  {
    var k, p := ConstantRow(6), PrimeRow(6);
    assert k[0] as int == 0x19a4c116 && p[0] == 227;
    assert k[1] as int == 0x1e376c08 && p[1] == 229;
    assert k[2] as int == 0x2748774c && p[2] == 233;
    assert k[3] as int == 0x34b0bcb5 && p[3] == 239;
    assert k[4] as int == 0x391c0cb3 && p[4] == 241;
    assert k[5] as int == 0x4ed8aa4a && p[5] == 251;
    assert k[6] as int == 0x5b9cca4f && p[6] == 257;
    assert k[7] as int == 0x682e6ff3 && p[7] == 263;
  }

  lemma Row7(i: nat)
    requires i < 8
    ensures CubeRoot(PrimeRow(7)[i], ConstantRow(7)[i] as int)
  {
    var k, p := ConstantRow(7), PrimeRow(7);
    assert k[0] as int == 0x748f82ee && p[0] == 269;
    assert k[1] as int == 0x78a5636f && p[1] == 271;
    assert k[2] as int == 0x84c87814 && p[2] == 277;
    assert k[3] as int == 0x8cc70208 && p[3] == 281;
    assert k[4] as int == 0x90befffa && p[4] == 283;
    assert k[5] as int == 0xa4506ceb && p[5] == 293;
    assert k[6] as int == 0xbef9a3f7 && p[6] == 307;
    assert k[7] as int == 0xc67178f2 && p[7] == 311;
  }

  /** Ch takes each bit from y where x has a one, and from z where it has a zero. */
  lemma ChChooses(x: bv32, y: bv32, z: bv32)
    ensures Ch(x, y, z) & x == y & x && Ch(x, y, z) & !x == z & !x
  {
  }

  /** Bit i of a word; indices wrap around at 32. */
  function Bit(x: bv32, i: bv5): bv32 {
    (x >> i) & 1
  }

  /** Each bit of a sum function is the sum of three bits of the word, that many places further up. */
  lemma SumsAddBits(x: bv32, i: bv5)
    ensures Bit(BigSigma0(x), i) == Bit(x, i + 2) ^ Bit(x, i + 13) ^ Bit(x, i + 22)
    ensures Bit(BigSigma1(x), i) == Bit(x, i + 6) ^ Bit(x, i + 11) ^ Bit(x, i + 25)
  {
    BigSigma0Bits(x, i);
    BigSigma1Bits(x, i);
  }

  /** In the schedule's functions the third bit comes from a shift, which fills up with zeros. */
  lemma ScheduleAddsBits(x: bv32, i: bv5)
    ensures Bit(SmallSigma0(x), i) == Bit(x, i + 7) ^ Bit(x, i + 18) ^ (if i < 29 then Bit(x, i + 3) else 0)
    ensures Bit(SmallSigma1(x), i) == Bit(x, i + 17) ^ Bit(x, i + 19) ^ (if i < 22 then Bit(x, i + 10) else 0)
  {
    SmallSigma0Bits(x, i);
    SmallSigma1Bits(x, i);
  }

  lemma BigSigma0Bits(x: bv32, i: bv5)
    ensures Bit(BigSigma0(x), i) == Bit(x, i + 2) ^ Bit(x, i + 13) ^ Bit(x, i + 22)
  {
    if i < 16 { if i < 8 { } else { } } else { if i < 24 { } else { } }
  }

  lemma BigSigma1Bits(x: bv32, i: bv5)
    ensures Bit(BigSigma1(x), i) == Bit(x, i + 6) ^ Bit(x, i + 11) ^ Bit(x, i + 25)
  {
    if i < 16 { if i < 8 { } else { } } else { if i < 24 { } else { } }
  }

  lemma SmallSigma0Bits(x: bv32, i: bv5)
    ensures Bit(SmallSigma0(x), i) == Bit(x, i + 7) ^ Bit(x, i + 18) ^ (if i < 29 then Bit(x, i + 3) else 0)
  {
    if i < 16 { if i < 8 { } else { } } else { if i < 24 { } else { } }
  }

  lemma SmallSigma1Bits(x: bv32, i: bv5)
    ensures Bit(SmallSigma1(x), i) == Bit(x, i + 17) ^ Bit(x, i + 19) ^ (if i < 22 then Bit(x, i + 10) else 0)
  {
    if i < 16 { if i < 8 { } else { } } else { if i < 24 { } else { } }
  }

  /** Maj gives each bit the value that at least two of the three have. */
  lemma MajDecides(x: bv32, y: bv32, z: bv32)
    ensures Maj(x, y, z) == (x & y) | (z & (x | y))
  {
  }
}
