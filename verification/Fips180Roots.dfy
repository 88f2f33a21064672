/** The constants of SHA-256 as sections 4.2.2 and 5.3.3 of FIPS 180-4 derive them from the first primes. */
module Fips180Roots {
  import opened Words
  import opened Fips180

  /** The first 64 primes. */
  const PRIMES: seq<nat> :=
    [2, 3, 5, 7, 11, 13, 17, 19] +
    [23, 29, 31, 37, 41, 43, 47, 53] +
    [59, 61, 67, 71, 73, 79, 83, 89] +
    [97, 101, 103, 107, 109, 113, 127, 131] +
    [137, 139, 149, 151, 157, 163, 167, 173] +
    [179, 181, 191, 193, 197, 199, 211, 223] +
    [227, 229, 233, 239, 241, 251, 257, 263] +
    [269, 271, 277, 281, 283, 293, 307, 311]

  /** `k` is the fraction of the cube root of `p`, to 32 bits: `n` is that root times 2^32, rounded down. */
  ghost predicate IsCubeFraction(k: bv32, p: nat) {
    exists n: nat :: IsCubeRoot(n, p) && k as nat == n % TWO32
  }

  ghost predicate IsCubeRoot(n: nat, p: nat) {
    n * n * n <= p * 0x1_0000_0000_0000_0000_0000_0000 < (n + 1) * (n + 1) * (n + 1)
  }

  /** The same for square roots. */
  ghost predicate IsSquareFraction(k: bv32, p: nat) {
    exists n: nat :: IsSquareRoot(n, p) && k as nat == n % TWO32
  }

  ghost predicate IsSquareRoot(n: nat, p: nat) {
    n * n <= p * 0x1_0000_0000_0000_0000 < (n + 1) * (n + 1)
  }

  lemma Cube(k: bv32, p: nat, n: nat)
    requires IsCubeRoot(n, p) && k as nat == n % TWO32
    ensures IsCubeFraction(k, p)
  {
  }

  lemma Square(k: bv32, p: nat, n: nat)
    requires IsSquareRoot(n, p) && k as nat == n % TWO32
    ensures IsSquareFraction(k, p)
  {
  }

  ghost predicate AreCubeFractions(from: nat, to: nat)
    requires from <= to <= 64
  {
    forall i :: from <= i < to ==> IsCubeFraction(K[i], PRIMES[i])
  }

  /** The round constants are the fractions of the cube roots of the first 64 primes. */
  lemma RoundConstantsAreRoots()
    ensures AreCubeFractions(0, 64)
  {
    hide IsCubeFraction;
    Cubes0(); Cubes8(); Cubes16(); Cubes24(); Cubes32(); Cubes40(); Cubes48(); Cubes56();
  }

  /** The initial value is the fractions of the square roots of the first eight. */
  lemma InitialValueIsRoots()
    ensures forall i :: 0 <= i < 8 ==> IsSquareFraction(IV[i], PRIMES[i])
  {
    Row0();
    hide K, PRIMES, IsSquareFraction;
    Square(0x6a09e667, 2, 6074000999);
    Square(0xbb67ae85, 3, 7439101573);
    Square(0x3c6ef372, 5, 9603838834);
    Square(0xa54ff53a, 7, 11363415354);
    Square(0x510e527f, 11, 14244795007);
    Square(0x9b05688c, 13, 15485724812);
    Square(0x1f83d9ab, 17, 17708603819);
    Square(0x5be0cd19, 19, 18721328409);
  }

  lemma Row0()
    ensures K[0] == 0x428a2f98 && K[1] == 0x71374491 && K[2] == 0xb5c0fbcf && K[3] == 0xe9b5dba5
    ensures PRIMES[0] == 2 && PRIMES[1] == 3 && PRIMES[2] == 5 && PRIMES[3] == 7
    ensures K[4] == 0x3956c25b && K[5] == 0x59f111f1 && K[6] == 0x923f82a4 && K[7] == 0xab1c5ed5
    ensures PRIMES[4] == 11 && PRIMES[5] == 13 && PRIMES[6] == 17 && PRIMES[7] == 19
  {
  }

  lemma Cubes0()
    ensures AreCubeFractions(0, 8)
  {
    hide K, PRIMES, IsCubeFraction;
    Row0();
    Cube(0x428a2f98, 2, 5411319704);
    Cube(0x71374491, 3, 6194414737);
    Cube(0xb5c0fbcf, 5, 7344290767);
    Cube(0xe9b5dba5, 7, 8215976869);
    Cube(0x3956c25b, 11, 9551921755);
    Cube(0x59f111f1, 13, 10098905585);
    Cube(0x923f82a4, 17, 11043570340);
    Cube(0xab1c5ed5, 19, 11460697813);
  }

  lemma Row8()
    ensures K[8] == 0xd807aa98 && K[9] == 0x12835b01 && K[10] == 0x243185be && K[11] == 0x550c7dc3
    ensures PRIMES[8] == 23 && PRIMES[9] == 29 && PRIMES[10] == 31 && PRIMES[11] == 37
    ensures K[12] == 0x72be5d74 && K[13] == 0x80deb1fe && K[14] == 0x9bdc06a7 && K[15] == 0xc19bf174
    ensures PRIMES[12] == 41 && PRIMES[13] == 43 && PRIMES[14] == 47 && PRIMES[15] == 53
  {
  }

  lemma Cubes8()
    ensures AreCubeFractions(8, 16)
  {
    hide K, PRIMES, IsCubeFraction;
    Row8();
    Cube(0xd807aa98, 23, 12214315672);
    Cube(0x12835b01, 29, 13195500289);
    Cube(0x243185be, 31, 13492127166);
    Cube(0x550c7dc3, 37, 14311783875);
    Cube(0x72be5d74, 41, 14809980276);
    Cube(0x80deb1fe, 43, 15046980094);
    Cube(0x9bdc06a7, 47, 15499789991);
    Cube(0xc19bf174, 53, 16133124468);
  }

  lemma Row16()
    ensures K[16] == 0xe49b69c1 && K[17] == 0xefbe4786 && K[18] == 0x0fc19dc6 && K[19] == 0x240ca1cc
    ensures PRIMES[16] == 59 && PRIMES[17] == 61 && PRIMES[18] == 67 && PRIMES[19] == 71
    ensures K[20] == 0x2de92c6f && K[21] == 0x4a7484aa && K[22] == 0x5cb0a9dc && K[23] == 0x76f988da
    ensures PRIMES[20] == 73 && PRIMES[21] == 79 && PRIMES[22] == 83 && PRIMES[23] == 89
  {
  }

  lemma Cubes16()
    ensures AreCubeFractions(16, 24)
  {
    hide K, PRIMES, IsCubeFraction;
    Row16();
    Cube(0xe49b69c1, 59, 16720292289);
    Cube(0xefbe4786, 61, 16907126662);
    Cube(0x0fc19dc6, 67, 17444216262);
    Cube(0x240ca1cc, 71, 17784676812);
    Cube(0x2de92c6f, 73, 17950125167);
    Cube(0x4a7484aa, 79, 18429019306);
    Cube(0x5cb0a9dc, 83, 18734950876);
    Cube(0x76f988da, 89, 19175934170);
  }

  lemma Row24()
    ensures K[24] == 0x983e5152 && K[25] == 0xa831c66d && K[26] == 0xb00327c8 && K[27] == 0xbf597fc7
    ensures PRIMES[24] == 97 && PRIMES[25] == 101 && PRIMES[26] == 103 && PRIMES[27] == 107
    ensures K[28] == 0xc6e00bf3 && K[29] == 0xd5a79147 && K[30] == 0x06ca6351 && K[31] == 0x14292967
    ensures PRIMES[28] == 109 && PRIMES[29] == 113 && PRIMES[30] == 127 && PRIMES[31] == 131
  {
  }

  lemma Cubes24()
    ensures AreCubeFractions(24, 32)
  {
    hide K, PRIMES, IsCubeFraction;
    Row24();
    Cube(0x983e5152, 97, 19734090066);
    Cube(0xa831c66d, 101, 20001703533);
    Cube(0xb00327c8, 103, 20132865992);
    Cube(0xbf597fc7, 107, 20390182855);
    Cube(0xc6e00bf3, 109, 20516441075);
    Cube(0xd5a79147, 113, 20764397895);
    Cube(0x06ca6351, 127, 21588763473);
    Cube(0x14292967, 131, 21813078375);
  }

  lemma Row32()
    ensures K[32] == 0x27b70a85 && K[33] == 0x2e1b2138 && K[34] == 0x4d2c6dfc && K[35] == 0x53380d13
    ensures PRIMES[32] == 137 && PRIMES[33] == 139 && PRIMES[34] == 149 && PRIMES[35] == 151
    ensures K[36] == 0x650a7354 && K[37] == 0x766a0abb && K[38] == 0x81c2c92e && K[39] == 0x92722c85
    ensures PRIMES[36] == 157 && PRIMES[37] == 163 && PRIMES[38] == 167 && PRIMES[39] == 173
  {
  }

  lemma Cubes32()
    ensures AreCubeFractions(32, 40)
  {
    hide K, PRIMES, IsCubeFraction;
    Row32();
    Cube(0x27b70a85, 137, 22141143685);
    Cube(0x2e1b2138, 139, 22248366392);
    Cube(0x4d2c6dfc, 149, 22769593852);
    Cube(0x53380d13, 151, 22871018771);
    Cube(0x650a7354, 157, 23170020180);
    Cube(0x766a0abb, 163, 23461497531);
    Cube(0x81c2c92e, 167, 23651862830);
    Cube(0x92722c85, 173, 23931792517);
  }

  lemma Row40()
    ensures K[40] == 0xa2bfe8a1 && K[41] == 0xa81a664b && K[42] == 0xc24b8b70 && K[43] == 0xc76c51a3
    ensures PRIMES[40] == 179 && PRIMES[41] == 181 && PRIMES[42] == 191 && PRIMES[43] == 193
    ensures K[44] == 0xd192e819 && K[45] == 0xd6990624 && K[46] == 0xf40e3585 && K[47] == 0x106aa070
    ensures PRIMES[44] == 197 && PRIMES[45] == 199 && PRIMES[46] == 211 && PRIMES[47] == 223
  {
  }

  lemma Cubes40()
    ensures AreCubeFractions(40, 48)
  {
    hide K, PRIMES, IsCubeFraction;
    Row40();
    Cube(0xa2bfe8a1, 179, 24205322401);
    Cube(0xa81a664b, 181, 24295138891);
    Cube(0xc24b8b70, 191, 24734567280);
    Cube(0xc76c51a3, 193, 24820601251);
    Cube(0xd192e819, 197, 24990902297);
    Cube(0xd6990624, 199, 25075189284);
    Cube(0xf40e3585, 211, 25569408389);
    Cube(0x106aa070, 223, 26045227120);
  }

  lemma Row48()
    ensures K[48] == 0x19a4c116 && K[49] == 0x1e376c08 && K[50] == 0x2748774c && K[51] == 0x34b0bcb5
    ensures PRIMES[48] == 227 && PRIMES[49] == 229 && PRIMES[50] == 233 && PRIMES[51] == 239
    ensures K[52] == 0x391c0cb3 && K[53] == 0x4ed8aa4a && K[54] == 0x5b9cca4f && K[55] == 0x682e6ff3
    ensures PRIMES[52] == 241 && PRIMES[53] == 251 && PRIMES[54] == 257 && PRIMES[55] == 263
  {
  }

  lemma Cubes48()
    ensures AreCubeFractions(48, 56)
  {
    hide K, PRIMES, IsCubeFraction;
    Row48();
    Cube(0x19a4c116, 227, 26200031510);
    Cube(0x1e376c08, 229, 26276752392);
    Cube(0x2748774c, 233, 26428864332);
    Cube(0x34b0bcb5, 239, 26653801653);
    Cube(0x391c0cb3, 241, 26727943347);
    Cube(0x4ed8aa4a, 251, 27092625994);
    Cube(0x5b9cca4f, 257, 27306805839);
    Cube(0x682e6ff3, 263, 27517677555);
  }

  lemma Row56()
    ensures K[56] == 0x748f82ee && K[57] == 0x78a5636f && K[58] == 0x84c87814 && K[59] == 0x8cc70208
    ensures PRIMES[56] == 269 && PRIMES[57] == 271 && PRIMES[58] == 277 && PRIMES[59] == 281
    ensures K[60] == 0x90befffa && K[61] == 0xa4506ceb && K[62] == 0xbef9a3f7 && K[63] == 0xc67178f2
    ensures PRIMES[60] == 283 && PRIMES[61] == 293 && PRIMES[62] == 307 && PRIMES[63] == 311
  {
  }

  lemma Cubes56()
    ensures AreCubeFractions(56, 64)
  {
    hide K, PRIMES, IsCubeFraction;
    Row56();
    Cube(0x748f82ee, 269, 27725365998);
    Cube(0x78a5636f, 271, 27793908591);
    Cube(0x84c87814, 277, 27997534228);
    Cube(0x8cc70208, 281, 28131656200);
    Cube(0x90befffa, 283, 28198240250);
    Cube(0xa4506ceb, 293, 28526537963);
    Cube(0xbef9a3f7, 307, 28973835255);
    Cube(0xc67178f2, 311, 29099129074);
  }
}
