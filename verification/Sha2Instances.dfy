/** SHA-256, SHA-384 and SHA-512 as instances of the generic transform and stream (crypto/sha2.c). */
module Sha2Instances {
  import opened Bytes
  import opened Division
  import opened Endian
  import opened Sha2Transform
  import opened Sha2Stream

  newtype u32 = x: int | 0 <= x < 0x1_0000_0000
  newtype u64 = x: int | 0 <= x < 0x1_0000_0000_0000_0000

  // ----- SHA-256: 32-bit words, 64 rounds -----

  // The table, in rows of eight.
  const K256Row0: seq<u32> :=
    [0x428a2f98, 0x71374491, 0xb5c0fbcf, 0xe9b5dba5, 0x3956c25b, 0x59f111f1, 0x923f82a4, 0xab1c5ed5]
  const K256Row1: seq<u32> :=
    [0xd807aa98, 0x12835b01, 0x243185be, 0x550c7dc3, 0x72be5d74, 0x80deb1fe, 0x9bdc06a7, 0xc19bf174]
  const K256Row2: seq<u32> :=
    [0xe49b69c1, 0xefbe4786, 0x0fc19dc6, 0x240ca1cc, 0x2de92c6f, 0x4a7484aa, 0x5cb0a9dc, 0x76f988da]
  const K256Row3: seq<u32> :=
    [0x983e5152, 0xa831c66d, 0xb00327c8, 0xbf597fc7, 0xc6e00bf3, 0xd5a79147, 0x06ca6351, 0x14292967]
  const K256Row4: seq<u32> :=
    [0x27b70a85, 0x2e1b2138, 0x4d2c6dfc, 0x53380d13, 0x650a7354, 0x766a0abb, 0x81c2c92e, 0x92722c85]
  const K256Row5: seq<u32> :=
    [0xa2bfe8a1, 0xa81a664b, 0xc24b8b70, 0xc76c51a3, 0xd192e819, 0xd6990624, 0xf40e3585, 0x106aa070]
  const K256Row6: seq<u32> :=
    [0x19a4c116, 0x1e376c08, 0x2748774c, 0x34b0bcb5, 0x391c0cb3, 0x4ed8aa4a, 0x5b9cca4f, 0x682e6ff3]
  const K256Row7: seq<u32> :=
    [0x748f82ee, 0x78a5636f, 0x84c87814, 0x8cc70208, 0x90befffa, 0xa4506ceb, 0xbef9a3f7, 0xc67178f2]

  function Add32(x: u32, y: u32): u32 { ((x as int + y as int) % 0x1_0000_0000) as u32 }
  function ChBits32(x: bv32, y: bv32, z: bv32): bv32 { (x & y) ^ (!x & z) }
  function MajBits32(x: bv32, y: bv32, z: bv32): bv32 { (x & y) ^ (x & z) ^ (y & z) }
  function BigSigma0Bits32(w: bv32): bv32 { w.RotateRight(2) ^ w.RotateRight(13) ^ w.RotateRight(22) }
  function BigSigma1Bits32(w: bv32): bv32 { w.RotateRight(6) ^ w.RotateRight(11) ^ w.RotateRight(25) }
  function SmallSigma0Bits32(w: bv32): bv32 { w.RotateRight(7) ^ w.RotateRight(18) ^ (w >> 3) }
  function SmallSigma1Bits32(w: bv32): bv32 { w.RotateRight(17) ^ w.RotateRight(19) ^ (w >> 10) }

  function Ch32(x: u32, y: u32, z: u32): u32 { ChBits32(x as bv32, y as bv32, z as bv32) as u32 }
  function Maj32(x: u32, y: u32, z: u32): u32 { MajBits32(x as bv32, y as bv32, z as bv32) as u32 }
  function BigSigma0x32(x: u32): u32 { BigSigma0Bits32(x as bv32) as u32 }
  function BigSigma1x32(x: u32): u32 { BigSigma1Bits32(x as bv32) as u32 }
  function SmallSigma0x32(x: u32): u32 { SmallSigma0Bits32(x as bv32) as u32 }
  function SmallSigma1x32(x: u32): u32 { SmallSigma1Bits32(x as bv32) as u32 }

  function K256At(t: nat): u32 {
    if t < 8 then K256Row0[t]
    else if t < 16 then K256Row1[t - 8]
    else if t < 24 then K256Row2[t - 16]
    else if t < 32 then K256Row3[t - 24]
    else if t < 40 then K256Row4[t - 32]
    else if t < 48 then K256Row5[t - 40]
    else if t < 56 then K256Row6[t - 48]
    else if t < 64 then K256Row7[t - 56]
    else 0
  }

  /** Word `j` of a block, big-endian. */
  function Load32(d: seq<byte>, j: nat): u32 {
    if 4 * j + 4 <= |d| then
      (((d[4 * j] as int * 256 + d[4 * j + 1] as int) * 256 + d[4 * j + 2] as int) * 256 + d[4 * j + 3] as int) as u32
    else 0
  }

  /** The octets of the word, high octet first, are those of the block. */
  lemma Load32Octets(d: seq<byte>, j: nat)
    requires 4 * j + 4 <= |d|
    ensures Writes(Load32(d, j) as nat, d[4 * j..4 * j + 4])
  {
    WritesMore(0, [], d, j, Load32(d, j) as nat);
    assert [] + d[4 * j..4 * j + 4] == d[4 * j..4 * j + 4];
  }

  lemma WritesMore(n: nat, s: seq<byte>, d: seq<byte>, j: nat, m: nat)
    requires 4 * j + 4 <= |d| && Writes(n, s) && m == n * 0x1_0000_0000 + Load32(d, j) as nat
    ensures Writes(m, s + d[4 * j..4 * j + 4])
  {
    WritesFour(n, s, d[4 * j], d[4 * j + 1], d[4 * j + 2], d[4 * j + 3], m);
    assert d[4 * j..4 * j + 4] == [d[4 * j], d[4 * j + 1], d[4 * j + 2], d[4 * j + 3]];
  }

  function Sha256Ops(): Ops<u32> {
    Ops(64, Add32, Load32, K256At, BigSigma0x32, BigSigma1x32, SmallSigma0x32, SmallSigma1x32, Ch32, Maj32)
  }

  lemma Sha256OpsValid()
    ensures ValidOps(Sha256Ops())
  {
    var o := Sha256Ops();
    forall x: u32, y: u32, z: u32 | Sum(o, x, y, z)
      ensures o.add(x, y) == o.add(y, x) && o.add(o.add(x, y), z) == o.add(x, o.add(y, z))
    {
      AddLaws32(x, y, z);
    }
  }

  lemma AddLaws32(x: u32, y: u32, z: u32)
    ensures Add32(x, y) == Add32(y, x) && Add32(Add32(x, y), z) == Add32(x, Add32(y, z))
  {
    var a, b, c := x as int, y as int, z as int;
    ModAdd32(a + b, c);
    ModAdd32(b + c, a);
  }

  lemma ModAdd32(a: nat, b: nat)
    ensures (a % 0x1_0000_0000 + b) % 0x1_0000_0000 == (a + b) % 0x1_0000_0000
  {
  }

  function Sha256Alg(): (a: Alg<Regs<u32>>)
    ensures ValidAlg(a)
  {
    Alg(64, 8, Regs(0x6a09e667, 0xbb67ae85, 0x3c6ef372, 0xa54ff53a, 0x510e527f, 0x9b05688c, 0x1f83d9ab, 0x5be0cd19),
        Regs(0, 0, 0, 0, 0, 0, 0, 0), (s, b) => Compress(Sha256Ops(), s, b))
  }

  // ----- SHA-384 and SHA-512: 64-bit words, 80 rounds -----

  // The table, in rows of eight.
  const K512Row0: seq<u64> :=
    [ 0x428a2f98d728ae22, 0x7137449123ef65cd, 0xb5c0fbcfec4d3b2f, 0xe9b5dba58189dbbc,
      0x3956c25bf348b538, 0x59f111f1b605d019, 0x923f82a4af194f9b, 0xab1c5ed5da6d8118 ]
  const K512Row1: seq<u64> :=
    [ 0xd807aa98a3030242, 0x12835b0145706fbe, 0x243185be4ee4b28c, 0x550c7dc3d5ffb4e2,
      0x72be5d74f27b896f, 0x80deb1fe3b1696b1, 0x9bdc06a725c71235, 0xc19bf174cf692694 ]
  const K512Row2: seq<u64> :=
    [ 0xe49b69c19ef14ad2, 0xefbe4786384f25e3, 0x0fc19dc68b8cd5b5, 0x240ca1cc77ac9c65,
      0x2de92c6f592b0275, 0x4a7484aa6ea6e483, 0x5cb0a9dcbd41fbd4, 0x76f988da831153b5 ]
  const K512Row3: seq<u64> :=
    [ 0x983e5152ee66dfab, 0xa831c66d2db43210, 0xb00327c898fb213f, 0xbf597fc7beef0ee4,
      0xc6e00bf33da88fc2, 0xd5a79147930aa725, 0x06ca6351e003826f, 0x142929670a0e6e70 ]
  const K512Row4: seq<u64> :=
    [ 0x27b70a8546d22ffc, 0x2e1b21385c26c926, 0x4d2c6dfc5ac42aed, 0x53380d139d95b3df,
      0x650a73548baf63de, 0x766a0abb3c77b2a8, 0x81c2c92e47edaee6, 0x92722c851482353b ]
  const K512Row5: seq<u64> :=
    [ 0xa2bfe8a14cf10364, 0xa81a664bbc423001, 0xc24b8b70d0f89791, 0xc76c51a30654be30,
      0xd192e819d6ef5218, 0xd69906245565a910, 0xf40e35855771202a, 0x106aa07032bbd1b8 ]
  const K512Row6: seq<u64> :=
    [ 0x19a4c116b8d2d0c8, 0x1e376c085141ab53, 0x2748774cdf8eeb99, 0x34b0bcb5e19b48a8,
      0x391c0cb3c5c95a63, 0x4ed8aa4ae3418acb, 0x5b9cca4f7763e373, 0x682e6ff3d6b2b8a3 ]
  const K512Row7: seq<u64> :=
    [ 0x748f82ee5defb2fc, 0x78a5636f43172f60, 0x84c87814a1f0ab72, 0x8cc702081a6439ec,
      0x90befffa23631e28, 0xa4506cebde82bde9, 0xbef9a3f7b2c67915, 0xc67178f2e372532b ]
  const K512Row8: seq<u64> :=
    [ 0xca273eceea26619c, 0xd186b8c721c0c207, 0xeada7dd6cde0eb1e, 0xf57d4f7fee6ed178,
      0x06f067aa72176fba, 0x0a637dc5a2c898a6, 0x113f9804bef90dae, 0x1b710b35131c471b ]
  const K512Row9: seq<u64> :=
    [ 0x28db77f523047d84, 0x32caab7b40c72493, 0x3c9ebe0a15c9bebc, 0x431d67c49c100d4c,
      0x4cc5d4becb3e42b6, 0x597f299cfc657e2a, 0x5fcb6fab3ad6faec, 0x6c44198c4a475817 ]

  function Add64(x: u64, y: u64): u64 { ((x as int + y as int) % 0x1_0000_0000_0000_0000) as u64 }
  function ChBits64(x: bv64, y: bv64, z: bv64): bv64 { (x & y) ^ (!x & z) }
  function MajBits64(x: bv64, y: bv64, z: bv64): bv64 { (x & y) ^ (x & z) ^ (y & z) }
  function BigSigma0Bits64(w: bv64): bv64 { w.RotateRight(28) ^ w.RotateRight(34) ^ w.RotateRight(39) }
  function BigSigma1Bits64(w: bv64): bv64 { w.RotateRight(14) ^ w.RotateRight(18) ^ w.RotateRight(41) }
  function SmallSigma0Bits64(w: bv64): bv64 { w.RotateRight(1) ^ w.RotateRight(8) ^ (w >> 7) }
  function SmallSigma1Bits64(w: bv64): bv64 { w.RotateRight(19) ^ w.RotateRight(61) ^ (w >> 6) }

  function Ch64(x: u64, y: u64, z: u64): u64 { ChBits64(x as bv64, y as bv64, z as bv64) as u64 }
  function Maj64(x: u64, y: u64, z: u64): u64 { MajBits64(x as bv64, y as bv64, z as bv64) as u64 }
  function BigSigma0x64(x: u64): u64 { BigSigma0Bits64(x as bv64) as u64 }
  function BigSigma1x64(x: u64): u64 { BigSigma1Bits64(x as bv64) as u64 }
  function SmallSigma0x64(x: u64): u64 { SmallSigma0Bits64(x as bv64) as u64 }
  function SmallSigma1x64(x: u64): u64 { SmallSigma1Bits64(x as bv64) as u64 }

  function K512At(t: nat): u64 {
    if t < 8 then K512Row0[t]
    else if t < 16 then K512Row1[t - 8]
    else if t < 24 then K512Row2[t - 16]
    else if t < 32 then K512Row3[t - 24]
    else if t < 40 then K512Row4[t - 32]
    else if t < 48 then K512Row5[t - 40]
    else if t < 56 then K512Row6[t - 48]
    else if t < 64 then K512Row7[t - 56]
    else if t < 72 then K512Row8[t - 64]
    else if t < 80 then K512Row9[t - 72]
    else 0
  }

  function Load64(d: seq<byte>, j: nat): u64 {
    (Load32(d, 2 * j) as int * 0x1_0000_0000 + Load32(d, 2 * j + 1) as int) as u64
  }

  lemma Load64Octets(d: seq<byte>, j: nat)
    requires 8 * j + 8 <= |d|
    ensures Writes(Load64(d, j) as nat, d[8 * j..8 * j + 8])
  {
    Load32Octets(d, 2 * j);
    WritesMore(Load32(d, 2 * j) as nat, d[8 * j..8 * j + 4], d, 2 * j + 1, Load64(d, j) as nat);
    SliceJoin(d, 8 * j, 8 * j + 4, 8 * j + 8);
  }

  function Sha512Ops(): Ops<u64> {
    Ops(80, Add64, Load64, K512At, BigSigma0x64, BigSigma1x64, SmallSigma0x64, SmallSigma1x64, Ch64, Maj64)
  }

  lemma Sha512OpsValid()
    ensures ValidOps(Sha512Ops())
  {
    var o := Sha512Ops();
    forall x: u64, y: u64, z: u64 | Sum(o, x, y, z)
      ensures o.add(x, y) == o.add(y, x) && o.add(o.add(x, y), z) == o.add(x, o.add(y, z))
    {
      AddLaws64(x, y, z);
    }
  }

  lemma AddLaws64(x: u64, y: u64, z: u64)
    ensures Add64(x, y) == Add64(y, x) && Add64(Add64(x, y), z) == Add64(x, Add64(y, z))
  {
    var a, b, c := x as int, y as int, z as int;
    ModAdd64(a + b, c);
    ModAdd64(b + c, a);
  }

  lemma ModAdd64(a: nat, b: nat)
    ensures (a % 0x1_0000_0000_0000_0000 + b) % 0x1_0000_0000_0000_0000 == (a + b) % 0x1_0000_0000_0000_0000
  {
  }

  function Sha512Alg(): (a: Alg<Regs<u64>>)
    ensures ValidAlg(a)
  {
    Alg(128, 16,
        Regs(0x6a09e667f3bcc908, 0xbb67ae8584caa73b, 0x3c6ef372fe94f82b, 0xa54ff53a5f1d36f1,
             0x510e527fade682d1, 0x9b05688c2b3e6c1f, 0x1f83d9abfb41bd6b, 0x5be0cd19137e2179),
        Regs(0, 0, 0, 0, 0, 0, 0, 0), (s, b) => Compress(Sha512Ops(), s, b))
  }

  function Sha384Alg(): (a: Alg<Regs<u64>>)
    ensures ValidAlg(a)
  {
    Sha512Alg().(init :=
      Regs(0xcbbb9d5dc1059ed8, 0x629a292a367cd507, 0x9159015a3070dd17, 0x152fecd8f70e5939,
           0x67332667ffc00b31, 0x8eb44a8768581511, 0xdb0c2e0d64f98fa7, 0x47b5481dbefa4fa4))
  }

  // ----- The algorithms end to end -----

  /** The words of a result, each big-endian in `len` octets. */
  function Octets(words: seq<nat>, len: nat): seq<byte> {
    if words == [] then [] else Octets(words[..|words| - 1], len) + BigEndian(words[|words| - 1], len)
  }

  lemma {:induction false} OctetsLength(words: seq<nat>, len: nat)
    ensures |Octets(words, len)| == Times(len, |words|)
  {
    if words == [] {
    } else {
      OctetsLength(words[..|words| - 1], len);
    }
  }

  /** Every word has its place. */
  lemma {:induction false} OctetsAt(words: seq<nat>, len: nat, i: nat)
    requires i < |words|
    ensures Times(len, i) + len <= |Octets(words, len)|
    ensures Octets(words, len)[Times(len, i)..Times(len, i) + len] == BigEndian(words[i], len)
  {
    var n: nat := |words| - 1;
    var before, at := Octets(words[..n], len), Times(len, i);
    OctetsLength(words[..n], len);
    JoinedAt(before, BigEndian(words[n], len));
    if i < n {
      OctetsAt(words[..n], len, i);
      SliceOfTake(Octets(words, len), |before|, at, at + len);
    }
  }

  lemma JoinedAt(a: seq<byte>, b: seq<byte>)
    ensures (a + b)[..|a|] == a && (a + b)[|a|..|a| + |b|] == b
  {
  }

  /** The end of `SHA256Final`, `SHA384Final` and `SHA512Final`: the first `n` words of the state. */
  method Serialise(words: seq<nat>, n: nat, len: nat) returns (digest: seq<byte>)
    requires n <= |words|
    ensures digest == Octets(words[..n], len)
  {
    digest := [];
    for i := 0 to n
      invariant digest == Octets(words[..i], len)
    {
      digest := digest + BigEndian(words[i], len);
      assert words[..i + 1][..i] == words[..i];
    }
  }

  function Words32(r: Regs<u32>): seq<nat> {
    [r.a as nat, r.b as nat, r.c as nat, r.d as nat, r.e as nat, r.f as nat, r.g as nat, r.h as nat]
  }

  function Words64(r: Regs<u64>): seq<nat> {
    [r.a as nat, r.b as nat, r.c as nat, r.d as nat, r.e as nat, r.f as nat, r.g as nat, r.h as nat]
  }

  /** SHA-256 of a message cut up anyhow. */
  method Sha256Digest(chunks: seq<seq<byte>>) returns (digest: seq<byte>)
    ensures digest == Octets(Words32(Hash(Sha256Alg(), Concat(chunks))), 4) && |digest| == 32
  {
    var r := DigestChunks(Sha256Alg(), chunks);
    digest := Serialise(Words32(r), 8, 4);
    assert Words32(r)[..8] == Words32(r);
    OctetsLength(Words32(r), 4);
    TimesIsProduct(4, 8);
  }

  method Sha512Digest(chunks: seq<seq<byte>>) returns (digest: seq<byte>)
    ensures digest == Octets(Words64(Hash(Sha512Alg(), Concat(chunks))), 8) && |digest| == 64
  {
    var r := DigestChunks(Sha512Alg(), chunks);
    digest := Serialise(Words64(r), 8, 8);
    assert Words64(r)[..8] == Words64(r);
    OctetsLength(Words64(r), 8);
    TimesIsProduct(8, 8);
  }

  /** SHA-384 is cut off after six words. */
  method Sha384Digest(chunks: seq<seq<byte>>) returns (digest: seq<byte>)
    ensures digest == Octets(Words64(Hash(Sha384Alg(), Concat(chunks)))[..6], 8) && |digest| == 48
  {
    var r := DigestChunks(Sha384Alg(), chunks);
    digest := Serialise(Words64(r), 6, 8);
    OctetsLength(Words64(r)[..6], 8);
    TimesIsProduct(8, 6);
  }

  /** The compression function the stream folds is what either transform computes. */
  method Sha256Block(state: array<u32>, data: seq<byte>, unrolled: bool)
    requires state.Length == 8
    modifies state
    ensures Load(state[..]) == Sha256Alg().compress(old(Load(state[..])), data)
  {
    Sha256OpsValid();
    if unrolled {
      TransformUnrolled(Sha256Ops(), state, data);
    } else {
      TransformRolled(Sha256Ops(), state, data);
    }
  }

  method Sha512Block(state: array<u64>, data: seq<byte>, unrolled: bool)
    requires state.Length == 8
    modifies state
    ensures Load(state[..]) == Sha512Alg().compress(old(Load(state[..])), data)
  {
    Sha512OpsValid();
    if unrolled {
      TransformUnrolled(Sha512Ops(), state, data);
    } else {
      TransformRolled(Sha512Ops(), state, data);
    }
  }
}
