/**
 * The constants of SHA-2 (crypto/sha2.c; sections 4.2 and 5.3 of FIPS 180-4): the round constants are the first bits of
 * the fractions of the cube roots of the first primes, and the starting values those of square roots.
 */
module Sha2Constants {
  import opened Sha2Transform
  import opened Sha2Instances

  const S32: nat := 0x1_0000_0000
  const S64: nat := 0x1_0000_0000_0000_0000

  // The first primes, in rows of eight.
  const PrimesRow0: seq<nat> := [2, 3, 5, 7, 11, 13, 17, 19]
  const PrimesRow1: seq<nat> := [23, 29, 31, 37, 41, 43, 47, 53]
  const PrimesRow2: seq<nat> := [59, 61, 67, 71, 73, 79, 83, 89]
  const PrimesRow3: seq<nat> := [97, 101, 103, 107, 109, 113, 127, 131]
  const PrimesRow4: seq<nat> := [137, 139, 149, 151, 157, 163, 167, 173]
  const PrimesRow5: seq<nat> := [179, 181, 191, 193, 197, 199, 211, 223]
  const PrimesRow6: seq<nat> := [227, 229, 233, 239, 241, 251, 257, 263]
  const PrimesRow7: seq<nat> := [269, 271, 277, 281, 283, 293, 307, 311]
  const PrimesRow8: seq<nat> := [313, 317, 331, 337, 347, 349, 353, 359]
  const PrimesRow9: seq<nat> := [367, 373, 379, 383, 389, 397, 401, 409]

  function Prime(t: nat): nat {
    if t < 8 then PrimesRow0[t]
    else if t < 16 then PrimesRow1[t - 8]
    else if t < 24 then PrimesRow2[t - 16]
    else if t < 32 then PrimesRow3[t - 24]
    else if t < 40 then PrimesRow4[t - 32]
    else if t < 48 then PrimesRow5[t - 40]
    else if t < 56 then PrimesRow6[t - 48]
    else if t < 64 then PrimesRow7[t - 56]
    else if t < 72 then PrimesRow8[t - 64]
    else if t < 80 then PrimesRow9[t - 72]
    else 0
  }

  // ----- Roots in units of 1 / s -----

  predicate IsCubeRoot(p: nat, s: nat, n: nat) {
    n * n * n <= p * (s * s * s) < (n + 1) * (n + 1) * (n + 1)
  }

  predicate IsSquareRoot(p: nat, s: nat, n: nat) {
    n * n <= p * (s * s) < (n + 1) * (n + 1)
  }

  /** The cube root of `p` is `c` and the fraction `w`, to the precision of `1 / s`. */
  predicate CubeParts(p: nat, s: nat, c: nat, w: nat) {
    w < s && IsCubeRoot(p, s, c * s + w)
  }

  predicate SquareParts(p: nat, s: nat, c: nat, w: nat) {
    w < s && IsSquareRoot(p, s, c * s + w)
  }

  ghost predicate CubeFraction(p: nat, s: nat, w: nat) {
    exists c: nat :: CubeParts(p, s, c, w)
  }

  ghost predicate SquareFraction(p: nat, s: nat, w: nat) {
    exists c: nat :: SquareParts(p, s, c, w)
  }

  // ----- The round constants of SHA-512 -----

  ghost predicate Known512(t: nat)
    requires t < 80
  {
    CubeFraction(Prime(t), S64, K512At(t) as nat)
  }

  lemma Word512(t: nat, w: nat, p: nat, c: nat)
    requires t < 80 && K512At(t) as nat == w && Prime(t) == p && CubeParts(p, 0x1_0000_0000_0000_0000, c, w)
    ensures Known512(t)
  {
    assert CubeParts(Prime(t), S64, c, K512At(t) as nat);
  }

  lemma Row0()
    ensures forall t: nat :: 0 <= t < 4 ==> Known512(t)
  {
    Word512(0, 0x428a2f98d728ae22, 2, 1);
    Word512(1, 0x7137449123ef65cd, 3, 1);
    Word512(2, 0xb5c0fbcfec4d3b2f, 5, 1);
    Word512(3, 0xe9b5dba58189dbbc, 7, 1);
  }

  lemma Row1()
    ensures forall t: nat :: 4 <= t < 8 ==> Known512(t)
  {
    Word512(4, 0x3956c25bf348b538, 11, 2);
    Word512(5, 0x59f111f1b605d019, 13, 2);
    Word512(6, 0x923f82a4af194f9b, 17, 2);
    Word512(7, 0xab1c5ed5da6d8118, 19, 2);
  }

  lemma Row2()
    ensures forall t: nat :: 8 <= t < 12 ==> Known512(t)
  {
    Word512(8, 0xd807aa98a3030242, 23, 2);
    Word512(9, 0x12835b0145706fbe, 29, 3);
    Word512(10, 0x243185be4ee4b28c, 31, 3);
    Word512(11, 0x550c7dc3d5ffb4e2, 37, 3);
  }

  lemma Row3()
    ensures forall t: nat :: 12 <= t < 16 ==> Known512(t)
  {
    Word512(12, 0x72be5d74f27b896f, 41, 3);
    Word512(13, 0x80deb1fe3b1696b1, 43, 3);
    Word512(14, 0x9bdc06a725c71235, 47, 3);
    Word512(15, 0xc19bf174cf692694, 53, 3);
  }

  lemma Row4()
    ensures forall t: nat :: 16 <= t < 20 ==> Known512(t)
  {
    Word512(16, 0xe49b69c19ef14ad2, 59, 3);
    Word512(17, 0xefbe4786384f25e3, 61, 3);
    Word512(18, 0x0fc19dc68b8cd5b5, 67, 4);
    Word512(19, 0x240ca1cc77ac9c65, 71, 4);
  }

  lemma Row5()
    ensures forall t: nat :: 20 <= t < 24 ==> Known512(t)
  {
    Word512(20, 0x2de92c6f592b0275, 73, 4);
    Word512(21, 0x4a7484aa6ea6e483, 79, 4);
    Word512(22, 0x5cb0a9dcbd41fbd4, 83, 4);
    Word512(23, 0x76f988da831153b5, 89, 4);
  }

  lemma Row6()
    ensures forall t: nat :: 24 <= t < 28 ==> Known512(t)
  {
    Word512(24, 0x983e5152ee66dfab, 97, 4);
    Word512(25, 0xa831c66d2db43210, 101, 4);
    Word512(26, 0xb00327c898fb213f, 103, 4);
    Word512(27, 0xbf597fc7beef0ee4, 107, 4);
  }

  lemma Row7()
    ensures forall t: nat :: 28 <= t < 32 ==> Known512(t)
  {
    Word512(28, 0xc6e00bf33da88fc2, 109, 4);
    Word512(29, 0xd5a79147930aa725, 113, 4);
    Word512(30, 0x06ca6351e003826f, 127, 5);
    Word512(31, 0x142929670a0e6e70, 131, 5);
  }

  lemma Row8()
    ensures forall t: nat :: 32 <= t < 36 ==> Known512(t)
  {
    Word512(32, 0x27b70a8546d22ffc, 137, 5);
    Word512(33, 0x2e1b21385c26c926, 139, 5);
    Word512(34, 0x4d2c6dfc5ac42aed, 149, 5);
    Word512(35, 0x53380d139d95b3df, 151, 5);
  }

  lemma Row9()
    ensures forall t: nat :: 36 <= t < 40 ==> Known512(t)
  {
    Word512(36, 0x650a73548baf63de, 157, 5);
    Word512(37, 0x766a0abb3c77b2a8, 163, 5);
    Word512(38, 0x81c2c92e47edaee6, 167, 5);
    Word512(39, 0x92722c851482353b, 173, 5);
  }

  lemma Row10()
    ensures forall t: nat :: 40 <= t < 44 ==> Known512(t)
  {
    Word512(40, 0xa2bfe8a14cf10364, 179, 5);
    Word512(41, 0xa81a664bbc423001, 181, 5);
    Word512(42, 0xc24b8b70d0f89791, 191, 5);
    Word512(43, 0xc76c51a30654be30, 193, 5);
  }

  lemma Row11()
    ensures forall t: nat :: 44 <= t < 48 ==> Known512(t)
  {
    Word512(44, 0xd192e819d6ef5218, 197, 5);
    Word512(45, 0xd69906245565a910, 199, 5);
    Word512(46, 0xf40e35855771202a, 211, 5);
    Word512(47, 0x106aa07032bbd1b8, 223, 6);
  }

  lemma Row12()
    ensures forall t: nat :: 48 <= t < 52 ==> Known512(t)
  {
    Word512(48, 0x19a4c116b8d2d0c8, 227, 6);
    Word512(49, 0x1e376c085141ab53, 229, 6);
    Word512(50, 0x2748774cdf8eeb99, 233, 6);
    Word512(51, 0x34b0bcb5e19b48a8, 239, 6);
  }

  lemma Row13()
    ensures forall t: nat :: 52 <= t < 56 ==> Known512(t)
  {
    Word512(52, 0x391c0cb3c5c95a63, 241, 6);
    Word512(53, 0x4ed8aa4ae3418acb, 251, 6);
    Word512(54, 0x5b9cca4f7763e373, 257, 6);
    Word512(55, 0x682e6ff3d6b2b8a3, 263, 6);
  }

  lemma Row14()
    ensures forall t: nat :: 56 <= t < 60 ==> Known512(t)
  {
    Word512(56, 0x748f82ee5defb2fc, 269, 6);
    Word512(57, 0x78a5636f43172f60, 271, 6);
    Word512(58, 0x84c87814a1f0ab72, 277, 6);
    Word512(59, 0x8cc702081a6439ec, 281, 6);
  }

  lemma Row15()
    ensures forall t: nat :: 60 <= t < 64 ==> Known512(t)
  {
    Word512(60, 0x90befffa23631e28, 283, 6);
    Word512(61, 0xa4506cebde82bde9, 293, 6);
    Word512(62, 0xbef9a3f7b2c67915, 307, 6);
    Word512(63, 0xc67178f2e372532b, 311, 6);
  }

  lemma Row16()
    ensures forall t: nat :: 64 <= t < 68 ==> Known512(t)
  {
    Word512(64, 0xca273eceea26619c, 313, 6);
    Word512(65, 0xd186b8c721c0c207, 317, 6);
    Word512(66, 0xeada7dd6cde0eb1e, 331, 6);
    Word512(67, 0xf57d4f7fee6ed178, 337, 6);
  }

  lemma Row17()
    ensures forall t: nat :: 68 <= t < 72 ==> Known512(t)
  {
    Word512(68, 0x06f067aa72176fba, 347, 7);
    Word512(69, 0x0a637dc5a2c898a6, 349, 7);
    Word512(70, 0x113f9804bef90dae, 353, 7);
    Word512(71, 0x1b710b35131c471b, 359, 7);
  }

  lemma Row18()
    ensures forall t: nat :: 72 <= t < 76 ==> Known512(t)
  {
    Word512(72, 0x28db77f523047d84, 367, 7);
    Word512(73, 0x32caab7b40c72493, 373, 7);
    Word512(74, 0x3c9ebe0a15c9bebc, 379, 7);
    Word512(75, 0x431d67c49c100d4c, 383, 7);
  }

  lemma Row19()
    ensures forall t: nat :: 76 <= t < 80 ==> Known512(t)
  {
    Word512(76, 0x4cc5d4becb3e42b6, 389, 7);
    Word512(77, 0x597f299cfc657e2a, 397, 7);
    Word512(78, 0x5fcb6fab3ad6faec, 401, 7);
    Word512(79, 0x6c44198c4a475817, 409, 7);
  }

  /** Round constant `t` of SHA-512 is the fraction of the cube root of prime `t`, in 64 bits. */
  lemma K512Roots(t: nat)
    requires t < 80
    ensures Known512(t)
  {
    Row0(); Row1(); Row2(); Row3(); Row4();
    Row5(); Row6(); Row7(); Row8(); Row9();
    Row10(); Row11(); Row12(); Row13(); Row14();
    Row15(); Row16(); Row17(); Row18(); Row19();
  }

  // ----- Those of SHA-256: the same, cut off after 32 bits -----

  predicate Cuts(t: nat)
    requires t < 64
  {
    K256At(t) as nat * 0x1_0000_0000 <= K512At(t) as nat < (K256At(t) as nat + 1) * 0x1_0000_0000
  }

  lemma Cut0()
    ensures forall t: nat :: 0 <= t < 8 ==> Cuts(t)
  {
    assert Cuts(0) && Cuts(1) && Cuts(2) && Cuts(3);
    assert Cuts(4) && Cuts(5) && Cuts(6) && Cuts(7);
  }

  lemma Cut1()
    ensures forall t: nat :: 8 <= t < 16 ==> Cuts(t)
  {
    assert Cuts(8) && Cuts(9) && Cuts(10) && Cuts(11);
    assert Cuts(12) && Cuts(13) && Cuts(14) && Cuts(15);
  }

  lemma Cut2()
    ensures forall t: nat :: 16 <= t < 24 ==> Cuts(t)
  {
    assert Cuts(16) && Cuts(17) && Cuts(18) && Cuts(19);
    assert Cuts(20) && Cuts(21) && Cuts(22) && Cuts(23);
  }

  lemma Cut3()
    ensures forall t: nat :: 24 <= t < 32 ==> Cuts(t)
  {
    assert Cuts(24) && Cuts(25) && Cuts(26) && Cuts(27);
    assert Cuts(28) && Cuts(29) && Cuts(30) && Cuts(31);
  }

  lemma Cut4()
    ensures forall t: nat :: 32 <= t < 40 ==> Cuts(t)
  {
    assert Cuts(32) && Cuts(33) && Cuts(34) && Cuts(35);
    assert Cuts(36) && Cuts(37) && Cuts(38) && Cuts(39);
  }

  lemma Cut5()
    ensures forall t: nat :: 40 <= t < 48 ==> Cuts(t)
  {
    assert Cuts(40) && Cuts(41) && Cuts(42) && Cuts(43);
    assert Cuts(44) && Cuts(45) && Cuts(46) && Cuts(47);
  }

  lemma Cut6()
    ensures forall t: nat :: 48 <= t < 56 ==> Cuts(t)
  {
    assert Cuts(48) && Cuts(49) && Cuts(50) && Cuts(51);
    assert Cuts(52) && Cuts(53) && Cuts(54) && Cuts(55);
  }

  lemma Cut7()
    ensures forall t: nat :: 56 <= t < 64 ==> Cuts(t)
  {
    assert Cuts(56) && Cuts(57) && Cuts(58) && Cuts(59);
    assert Cuts(60) && Cuts(61) && Cuts(62) && Cuts(63);
  }

  lemma AllCut(t: nat)
    requires t < 64
    ensures Cuts(t)
  {
    Cut0();
    Cut1();
    Cut2();
    Cut3();
    Cut4();
    Cut5();
    Cut6();
    Cut7();
  }

  lemma ProductsRise(a: nat, b: nat, c: nat, d: nat)
    requires a <= b && c <= d
    ensures a * c <= b * d
  {
    assert b * d == a * c + (b - a) * c + b * (d - c);
  }

  lemma CubesRise(a: nat, b: nat)
    requires a <= b
    ensures a * a * a <= b * b * b
  {
    ProductsRise(a, b, a, b);
    ProductsRise(a * a, b * b, a, b);
  }

  lemma CubeOfProduct(m: nat, s: nat)
    ensures (m * s) * (m * s) * (m * s) == (m * m * m) * (s * s * s)
  {
    assert (m * s) * (m * s) == (m * m) * (s * s);
    assert (m * m) * (s * s) * (m * s) == (m * m * m) * (s * s * s);
  }

  lemma Cancels(a: nat, b: nat, k: nat)
    requires k > 0
    ensures a * k <= b * k <==> a <= b
  {
    if a <= b {
      ProductsRise(a, b, k, k);
    } else {
      ProductsRise(b + 1, a, k, k);
      assert (b + 1) * k == b * k + k;
    }
  }

  lemma Scaled(p: nat, s: nat)
    ensures p * ((s * s) * (s * s) * (s * s)) == (p * (s * s * s)) * (s * s * s)
  {
    var k := s * s * s;
    CubeOfProduct(s, s);
    assert p * (k * k) == (p * k) * k;
  }

  lemma Shrinks(m: nat, s: nat, n: nat, x: nat, k: nat)
    requires k == s * s * s > 0 && m * s <= n && n * n * n <= x * k
    ensures m * m * m <= x
  {
    CubesRise(m * s, n);
    CubeOfProduct(m, s);
    Cancels(m * m * m, x, k);
  }

  lemma Grows(m: nat, s: nat, n: nat, r: nat, x: nat, k: nat)
    requires k == s * s * s > 0 && n == m * s + r && r < s && x * k < (n + 1) * (n + 1) * (n + 1)
    ensures x < (m + 1) * (m + 1) * (m + 1)
  {
    CubesRise(n + 1, (m + 1) * s);
    CubeOfProduct(m + 1, s);
    Cancels((m + 1) * (m + 1) * (m + 1), x, k);
  }

  /** Fewer digits of a root are the root in coarser units. */
  lemma Coarser(p: nat, s: nat, n: nat, m: nat, r: nat)
    requires s > 0 && IsCubeRoot(p, s * s, n) && n == m * s + r && r < s
    ensures IsCubeRoot(p, s, m)
  {
    var k, x := s * s * s, p * (s * s * s);
    Scaled(p, s);
    Shrinks(m, s, n, x, k);
    Grows(m, s, n, r, x, k);
  }

  /** Round constant `t` of SHA-256 is the fraction of the cube root of prime `t`, in 32 bits. */
  lemma K256Roots(t: nat)
    requires t < 64
    ensures CubeFraction(Prime(t), S32, K256At(t) as nat)
  {
    var p, w, u := Prime(t), K512At(t) as nat, K256At(t) as nat;
    K512Roots(t);
    AllCut(t);
    var c: nat :| CubeParts(p, S64, c, w);
    Coarser(p, S32, c * S64 + w, c * S32 + u, w - u * S32);
    assert CubeParts(p, S32, c, u);
  }

  // ----- The starting values -----

  ghost predicate Roots32(i: nat, a: u32, b: u32, c: u32, d: u32) {
    && SquareFraction(Prime(i), S32, a as nat) && SquareFraction(Prime(i + 1), S32, b as nat)
    && SquareFraction(Prime(i + 2), S32, c as nat) && SquareFraction(Prime(i + 3), S32, d as nat)
  }

  ghost predicate StartsAt32(r: Regs<u32>, i: nat) {
    Roots32(i, r.a, r.b, r.c, r.d) && Roots32(i + 4, r.e, r.f, r.g, r.h)
  }

  ghost predicate Roots64(i: nat, a: u64, b: u64, c: u64, d: u64) {
    && SquareFraction(Prime(i), S64, a as nat) && SquareFraction(Prime(i + 1), S64, b as nat)
    && SquareFraction(Prime(i + 2), S64, c as nat) && SquareFraction(Prime(i + 3), S64, d as nat)
  }

  ghost predicate StartsAt64(r: Regs<u64>, i: nat) {
    Roots64(i, r.a, r.b, r.c, r.d) && Roots64(i + 4, r.e, r.f, r.g, r.h)
  }

  lemma Square32(p: nat, c: nat, w: nat)
    requires SquareParts(p, 0x1_0000_0000, c, w)
    ensures SquareFraction(p, S32, w)
  {
    assert SquareParts(p, S32, c, w);
  }

  lemma Square64(p: nat, c: nat, w: nat)
    requires SquareParts(p, 0x1_0000_0000_0000_0000, c, w)
    ensures SquareFraction(p, S64, w)
  {
    assert SquareParts(p, S64, c, w);
  }

  lemma Sha256StartHalf0()
    ensures var r := Sha256Alg().init; Roots32(0, r.a, r.b, r.c, r.d)
  {
    Square32(2, 1, 0x6a09e667);
    Square32(3, 1, 0xbb67ae85);
    Square32(5, 2, 0x3c6ef372);
    Square32(7, 2, 0xa54ff53a);
  }

  lemma Sha256StartHalf1()
    ensures var r := Sha256Alg().init; Roots32(4, r.e, r.f, r.g, r.h)
  {
    Square32(11, 3, 0x510e527f);
    Square32(13, 3, 0x9b05688c);
    Square32(17, 4, 0x1f83d9ab);
    Square32(19, 4, 0x5be0cd19);
  }

  /** SHA-256 starts from the square roots of the first eight primes. */
  lemma Sha256Start()
    ensures StartsAt32(Sha256Alg().init, 0)
  {
    Sha256StartHalf0();
    Sha256StartHalf1();
  }

  lemma Sha512StartHalf0()
    ensures var r := Sha512Alg().init; Roots64(0, r.a, r.b, r.c, r.d)
  {
    Square64(2, 1, 0x6a09e667f3bcc908);
    Square64(3, 1, 0xbb67ae8584caa73b);
    Square64(5, 2, 0x3c6ef372fe94f82b);
    Square64(7, 2, 0xa54ff53a5f1d36f1);
  }

  lemma Sha512StartHalf1()
    ensures var r := Sha512Alg().init; Roots64(4, r.e, r.f, r.g, r.h)
  {
    Square64(11, 3, 0x510e527fade682d1);
    Square64(13, 3, 0x9b05688c2b3e6c1f);
    Square64(17, 4, 0x1f83d9abfb41bd6b);
    Square64(19, 4, 0x5be0cd19137e2179);
  }

  /** SHA-512 starts from the square roots of the first eight primes. */
  lemma Sha512Start()
    ensures StartsAt64(Sha512Alg().init, 0)
  {
    Sha512StartHalf0();
    Sha512StartHalf1();
  }

  lemma Sha384StartHalf0()
    ensures var r := Sha384Alg().init; Roots64(8, r.a, r.b, r.c, r.d)
  {
    Square64(23, 4, 0xcbbb9d5dc1059ed8);
    Square64(29, 5, 0x629a292a367cd507);
    Square64(31, 5, 0x9159015a3070dd17);
    Square64(37, 6, 0x152fecd8f70e5939);
  }

  lemma Sha384StartHalf1()
    ensures var r := Sha384Alg().init; Roots64(12, r.e, r.f, r.g, r.h)
  {
    Square64(41, 6, 0x67332667ffc00b31);
    Square64(43, 6, 0x8eb44a8768581511);
    Square64(47, 6, 0xdb0c2e0d64f98fa7);
    Square64(53, 7, 0x47b5481dbefa4fa4);
  }

  /** SHA-384 starts from the square roots of the next eight. */
  lemma Sha384Start()
    ensures StartsAt64(Sha384Alg().init, 8)
  {
    Sha384StartHalf0();
    Sha384StartHalf1();
  }
}
