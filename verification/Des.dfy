/**
 * DES and triple DES as crypto/ecb_enc.c and crypto/ecb3_enc.c arrange them: the Feistel
 * rounds work on rotated halves, and triple DES pays for one initial and one final
 * permutation only. Words are a parameter here, so is the round function (S-boxes and key
 * schedule); DesWords supplies the 32-bit word operations.
 */
module Des {
  import opened Bytes
  import opened Xforms

  datatype Pair<W> = Pair(x: W, y: W)

  datatype Ops<!W, !K> = Ops(
    xor: (W, W) -> W,
    round: (K, nat, W) -> W,
    rotl: W -> W, rotr: W -> W,
    ip: Pair<W> -> Pair<W>, fp: Pair<W> -> Pair<W>,
    load: seq<byte> -> W, store: W -> seq<byte>)

  predicate XorLaw<W(==), K>(o: Ops<W, K>, x: W, y: W) {
    o.xor(o.xor(x, y), y) == x
  }

  predicate WordLaw<W(==), K>(o: Ops<W, K>, w: W) {
    o.rotl(o.rotr(w)) == w && o.rotr(o.rotl(w)) == w && |o.store(w)| == 4 && o.load(o.store(w)) == w
  }

  predicate PairLaw<W(==), K>(o: Ops<W, K>, p: Pair<W>) {
    o.fp(o.ip(p)) == p && o.ip(o.fp(p)) == p
  }

  predicate BytesLaw<W, K>(o: Ops<W, K>, b: seq<byte>) {
    |b| == 4 ==> o.store(o.load(b)) == b
  }

  ghost predicate ValidOps<W(!new), K>(o: Ops<W, K>) {
    && (forall x, y :: XorLaw(o, x, y))
    && (forall w :: WordLaw(o, w))
    && (forall p :: PairLaw(o, p))
    && (forall b :: BytesLaw(o, b))
  }

  function Swap<W>(p: Pair<W>): Pair<W> {
    Pair(p.y, p.x)
  }

  /** `D_ENCRYPT` with round key `i`, changing the left or the right word. */
  function Half<W, K>(o: Ops<W, K>, k: K, i: nat, left: bool, p: Pair<W>): Pair<W> {
    if left then Pair(o.xor(p.x, o.round(k, i, p.y)), p.y)
    else Pair(p.x, o.xor(p.y, o.round(k, i, p.x)))
  }

  predicate Odd(n: nat) {
    n > 0 && !Odd(n - 1)
  }

  lemma {:induction false} OddMinus(total: nat, n: nat)
    requires n <= total && !Odd(total)
    ensures Odd(total - n) == Odd(n)
  {
    if n == 0 {
    } else {
      OddMinus(total, n - 1);
    }
  }

  /** Odd rounds change the left word. */
  function EncRounds<W, K>(o: Ops<W, K>, k: K, p: Pair<W>, n: nat): Pair<W> {
    if n == 0 then p else Half(o, k, n - 1, Odd(n), EncRounds(o, k, p, n - 1))
  }

  /** The first `n` of `total` rounds, the round keys taken from the last one down. */
  function DecRounds<W, K>(o: Ops<W, K>, k: K, p: Pair<W>, total: nat, n: nat): Pair<W>
    requires n <= total
  {
    if n == 0 then p else Half(o, k, total - n, Odd(n), DecRounds(o, k, p, total, n - 1))
  }

  /** A half round on exchanged words, with the side exchanged, takes itself back. */
  lemma HalfTwice<W(!new), K>(o: Ops<W, K>, k: K, i: nat, left: bool, p: Pair<W>)
    requires ValidOps(o)
    ensures Half(o, k, i, !left, Swap(Half(o, k, i, left, p))) == Swap(p)
  {
    assert XorLaw(o, p.x, o.round(k, i, p.y)) && XorLaw(o, p.y, o.round(k, i, p.x));
  }

  lemma {:induction false} DecUndoesEnc<W(!new), K>(o: Ops<W, K>, k: K, p: Pair<W>, total: nat, n: nat)
    requires ValidOps(o) && n <= total && !Odd(total)
    ensures DecRounds(o, k, Swap(EncRounds(o, k, p, total)), total, n) == Swap(EncRounds(o, k, p, total - n))
  {
    if n == 0 {
    } else {
      DecUndoesEnc(o, k, p, total, n - 1);
      OddMinus(total, n);
      var m := total - n;
      HalfTwice(o, k, m, Odd(m + 1), EncRounds(o, k, p, m));
    }
  }

  lemma {:induction false} EncUndoesDec<W(!new), K>(o: Ops<W, K>, k: K, p: Pair<W>, total: nat, n: nat)
    requires ValidOps(o) && n <= total && !Odd(total)
    ensures EncRounds(o, k, Swap(DecRounds(o, k, p, total, total)), n) == Swap(DecRounds(o, k, p, total, total - n))
  {
    if n == 0 {
    } else {
      EncUndoesDec(o, k, p, total, n - 1);
      OddMinus(total, n);
      var m := total - n;
      HalfTwice(o, k, n - 1, Odd(m + 1), DecRounds(o, k, p, total, m));
    }
  }

  /** The textbook network: round `i` exchanges the words and adds the round function with key `i` to one. */
  function Feistel<W, K>(o: Ops<W, K>, k: K, p: Pair<W>, n: nat): Pair<W> {
    if n == 0 then p
    else
      var q := Feistel(o, k, p, n - 1);
      Pair(q.y, o.xor(q.x, o.round(k, n - 1, q.y)))
  }

  /** Rounds that take turns at the words save the exchange: after an even number the words are in their places. */
  lemma {:induction false} EncIsFeistel<W, K>(o: Ops<W, K>, k: K, p: Pair<W>, n: nat)
    ensures Feistel(o, k, p, n) == if Odd(n) then Swap(EncRounds(o, k, p, n)) else EncRounds(o, k, p, n)
  {
    if n == 0 {
    } else {
      EncIsFeistel(o, k, p, n - 1);
    }
  }

  function Rounds<W, K>(o: Ops<W, K>, k: K, encrypt: bool, p: Pair<W>): Pair<W> {
    if encrypt then EncRounds(o, k, p, 16) else DecRounds(o, k, p, 16, 16)
  }

  lemma SixteenIsEven()
    ensures !Odd(16)
  {
    assert !Odd(4) && !Odd(8) && !Odd(12);
  }

  lemma RoundsInverse<W(!new), K>(o: Ops<W, K>, k: K, encrypt: bool, p: Pair<W>)
    requires ValidOps(o)
    ensures Rounds(o, k, !encrypt, Swap(Rounds(o, k, encrypt, p))) == Swap(p)
  {
    SixteenIsEven();
    if encrypt {
      DecUndoesEnc(o, k, p, 16, 16);
    } else {
      EncUndoesDec(o, k, p, 16, 16);
    }
  }

  /** `des_encrypt2`: rotate and exchange, sixteen rounds, rotate back. */
  function Core<W, K>(o: Ops<W, K>, k: K, encrypt: bool, p: Pair<W>): Pair<W> {
    var e := Rounds(o, k, encrypt, Pair(o.rotl(p.y), o.rotl(p.x)));
    Pair(o.rotr(e.x), o.rotr(e.y))
  }

  lemma CoreInverse<W(!new), K>(o: Ops<W, K>, k: K, encrypt: bool, p: Pair<W>)
    requires ValidOps(o)
    ensures Core(o, k, !encrypt, Core(o, k, encrypt, p)) == p
  {
    var q := Pair(o.rotl(p.y), o.rotl(p.x));
    var e := Rounds(o, k, encrypt, q);
    assert WordLaw(o, e.x) && WordLaw(o, e.y) && WordLaw(o, p.x) && WordLaw(o, p.y);
    RoundsInverse(o, k, encrypt, q);
    assert Swap(e) == Pair(e.y, e.x);
  }

  /** `des_encrypt` */
  function Single<W, K>(o: Ops<W, K>, k: K, encrypt: bool, p: Pair<W>): Pair<W> {
    o.fp(Core(o, k, encrypt, o.ip(p)))
  }

  /** For every key schedule and block, decryption inverts encryption, and the reverse. */
  lemma SingleInverse<W(!new), K>(o: Ops<W, K>, k: K, encrypt: bool, p: Pair<W>)
    requires ValidOps(o)
    ensures Single(o, k, !encrypt, Single(o, k, encrypt, p)) == p
  {
    assert PairLaw(o, p) && PairLaw(o, Core(o, k, encrypt, o.ip(p)));
    CoreInverse(o, k, encrypt, o.ip(p));
  }

  /** `des_ecb3_encrypt` on words: one initial and one final permutation around three cores. */
  function Triple<W, K>(o: Ops<W, K>, k1: K, k2: K, k3: K, encrypt: bool, p: Pair<W>): Pair<W> {
    o.fp(Core(o, k3, encrypt, Core(o, k2, !encrypt, Core(o, k1, encrypt, o.ip(p)))))
  }

  /** The merged form is three full DES operations, encrypt-decrypt-encrypt. */
  lemma TripleIsEde<W(!new), K>(o: Ops<W, K>, k1: K, k2: K, k3: K, encrypt: bool, p: Pair<W>)
    requires ValidOps(o)
    ensures Triple(o, k1, k2, k3, encrypt, p)
      == Single(o, k3, encrypt, Single(o, k2, !encrypt, Single(o, k1, encrypt, p)))
  {
    var c1 := Core(o, k1, encrypt, o.ip(p));
    var c2 := Core(o, k2, !encrypt, c1);
    assert PairLaw(o, c1) && PairLaw(o, c2);
  }

  /** With the key order reversed, triple DES is undone. */
  lemma TripleInverse<W(!new), K>(o: Ops<W, K>, k1: K, k2: K, k3: K, encrypt: bool, p: Pair<W>)
    requires ValidOps(o)
    ensures Triple(o, k3, k2, k1, !encrypt, Triple(o, k1, k2, k3, encrypt, p)) == p
  {
    var a := o.ip(p);
    var b := Core(o, k1, encrypt, a);
    var c := Core(o, k2, !encrypt, b);
    var d := Core(o, k3, encrypt, c);
    assert PairLaw(o, p) && PairLaw(o, d);
    CoreInverse(o, k1, encrypt, a);
    CoreInverse(o, k2, !encrypt, b);
    CoreInverse(o, k3, encrypt, c);
  }

  // ----- Octets -----

  function LoadBlock<W, K>(o: Ops<W, K>, b: seq<byte>): Pair<W>
    requires |b| == 8
  {
    Pair(o.load(b[..4]), o.load(b[4..]))
  }

  function StoreBlock<W, K>(o: Ops<W, K>, p: Pair<W>): seq<byte> {
    o.store(p.x) + o.store(p.y)
  }

  lemma BlockRoundTrip<W(!new), K>(o: Ops<W, K>, p: Pair<W>, b: seq<byte>)
    requires ValidOps(o) && |b| == 8
    ensures |StoreBlock(o, p)| == 8 && LoadBlock(o, StoreBlock(o, p)) == p
    ensures StoreBlock(o, LoadBlock(o, b)) == b
  {
    assert WordLaw(o, p.x) && WordLaw(o, p.y);
    var s := o.store(p.x) + o.store(p.y);
    assert s[..4] == o.store(p.x) && s[4..] == o.store(p.y);
    assert BytesLaw(o, b[..4]) && BytesLaw(o, b[4..]);
    assert b == b[..4] + b[4..];
  }

  /** The three key schedules of a 3DES session. */
  datatype Keys<K> = Keys(k1: K, k2: K, k3: K)

  /** `des3_encrypt` */
  function Des3Encrypt<W, K>(o: Ops<W, K>, ks: Keys<K>, b: seq<byte>): seq<byte> {
    if |b| == 8 then StoreBlock(o, Triple(o, ks.k1, ks.k2, ks.k3, true, LoadBlock(o, b))) else b
  }

  /** `des3_decrypt` */
  function Des3Decrypt<W, K>(o: Ops<W, K>, ks: Keys<K>, b: seq<byte>): seq<byte> {
    if |b| == 8 then StoreBlock(o, Triple(o, ks.k3, ks.k2, ks.k1, false, LoadBlock(o, b))) else b
  }

  lemma Des3Inverse<W(!new), K>(o: Ops<W, K>, ks: Keys<K>, b: seq<byte>)
    requires ValidOps(o) && |b| == 8
    ensures |Des3Encrypt(o, ks, b)| == 8 && Des3Decrypt(o, ks, Des3Encrypt(o, ks, b)) == b
    ensures |Des3Decrypt(o, ks, b)| == 8 && Des3Encrypt(o, ks, Des3Decrypt(o, ks, b)) == b
  {
    var p := LoadBlock(o, b);
    TripleInverse(o, ks.k1, ks.k2, ks.k3, true, p);
    TripleInverse(o, ks.k3, ks.k2, ks.k1, false, p);
    BlockRoundTrip(o, Triple(o, ks.k1, ks.k2, ks.k3, true, p), b);
    BlockRoundTrip(o, Triple(o, ks.k3, ks.k2, ks.k1, false, p), b);
  }

  /** In octets: encrypt with the first key, decrypt with the second, encrypt with the third; and back. */
  lemma Des3IsEde<W(!new), K>(o: Ops<W, K>, ks: Keys<K>, b: seq<byte>)
    requires ValidOps(o) && |b| == 8
    ensures Des3Encrypt(o, ks, b)
      == StoreBlock(o, Single(o, ks.k3, true, Single(o, ks.k2, false, Single(o, ks.k1, true, LoadBlock(o, b)))))
    ensures Des3Decrypt(o, ks, b)
      == StoreBlock(o, Single(o, ks.k1, false, Single(o, ks.k2, true, Single(o, ks.k3, false, LoadBlock(o, b)))))
  {
    TripleIsEde(o, ks.k1, ks.k2, ks.k3, true, LoadBlock(o, b));
    TripleIsEde(o, ks.k3, ks.k2, ks.k1, false, LoadBlock(o, b));
  }

  function Des3Cipher<W, K>(o: Ops<W, K>, ks: Keys<K>): Cipher {
    Cipher(8, b => Des3Encrypt(o, ks, b), b => Des3Decrypt(o, ks, b))
  }

  /** Triple DES is a block permutation, so everything proved of CBC holds with it. */
  lemma Des3IsPermutation<W(!new), K>(o: Ops<W, K>, ks: Keys<K>)
    requires ValidOps(o)
    ensures IsPermutation(Des3Cipher(o, ks))
  {
    forall b: seq<byte> | |b| == 8
      ensures |Des3Encrypt(o, ks, b)| == 8 && Des3Decrypt(o, ks, Des3Encrypt(o, ks, b)) == b
      ensures |Des3Decrypt(o, ks, b)| == 8 && Des3Encrypt(o, ks, Des3Decrypt(o, ks, b)) == b
    {
      Des3Inverse(o, ks, b);
    }
  }

  // ----- The code -----

  /** The round loops: two half rounds a turn, key words taken four at a time. */
  method RunRounds<W, K>(o: Ops<W, K>, k: K, encrypt: bool, l0: W, r0: W) returns (l: W, r: W)
    ensures Pair(l, r) == Rounds(o, k, encrypt, Pair(l0, r0))
  {
    if encrypt {
      l, r := EncryptLoop(o, k, l0, r0, 32);
    } else {
      SixteenIsEven();
      l, r := DecryptLoop(o, k, l0, r0, 30, 16);
    }
  }

  method EncryptLoop<W, K>(o: Ops<W, K>, k: K, l0: W, r0: W, end: nat) returns (l: W, r: W)
    requires end % 4 == 0
    ensures Pair(l, r) == EncRounds(o, k, Pair(l0, r0), end / 2)
  {
    l, r := l0, r0;
    var i: nat := 0;
    while i < end
      invariant i <= end && i % 4 == 0 && !Odd(i / 2)
      invariant Pair(l, r) == EncRounds(o, k, Pair(l0, r0), i / 2)
    {
      l, r := EncryptTurn(o, k, l, r, i / 2, Pair(l0, r0));
      i := i + 4;
    }
  }

  method EncryptTurn<W, K>(o: Ops<W, K>, k: K, l0: W, r0: W, n: nat, ghost p: Pair<W>) returns (l: W, r: W)
    requires !Odd(n) && Pair(l0, r0) == EncRounds(o, k, p, n)
    ensures !Odd(n + 2) && Pair(l, r) == EncRounds(o, k, p, n + 2)
  {
    l := o.xor(l0, o.round(k, n, r0));
    assert Odd(n + 1) && Pair(l, r0) == EncRounds(o, k, p, n + 1);
    r := o.xor(r0, o.round(k, n + 1, l));
  }

  method DecryptLoop<W, K>(o: Ops<W, K>, k: K, l0: W, r0: W, first: nat, ghost total: nat) returns (l: W, r: W)
    requires first + 2 == 2 * total && !Odd(total)
    ensures Pair(l, r) == DecRounds(o, k, Pair(l0, r0), total, total)
  {
    l, r := l0, r0;
    ghost var n: nat := 0;
    var i: int := first;
    while i > 0
      invariant n <= total && i + 2 == 2 * (total - n) && !Odd(n)
      invariant Pair(l, r) == DecRounds(o, k, Pair(l0, r0), total, n)
    {
      l, r := DecryptTurn(o, k, l, r, i / 2, total, n, Pair(l0, r0));
      n := n + 2;
      i := i - 4;
    }
    OddMinus(total, n);
    assert Odd(1) && total - n != 1;
  }

  method DecryptTurn<W, K>(o: Ops<W, K>, k: K, l0: W, r0: W, i: nat, ghost total: nat, ghost n: nat, ghost p: Pair<W>)
    returns (l: W, r: W)
    requires 0 < i && i + n + 1 == total && !Odd(n) && Pair(l0, r0) == DecRounds(o, k, p, total, n)
    ensures !Odd(n + 2) && Pair(l, r) == DecRounds(o, k, p, total, n + 2)
  {
    l := o.xor(l0, o.round(k, i, r0));
    assert Odd(n + 1) && Pair(l, r0) == DecRounds(o, k, p, total, n + 1);
    r := o.xor(r0, o.round(k, i - 1, l));
  }

  method DesEncrypt2<W, K>(o: Ops<W, K>, data: array<W>, k: K, encrypt: bool)
    requires data.Length == 2
    modifies data
    ensures Pair(data[0], data[1]) == Core(o, k, encrypt, old(Pair(data[0], data[1])))
  {
    var u, r := data[0], data[1];
    var l := o.rotl(r);
    r := o.rotl(u);
    l, r := RunRounds(o, k, encrypt, l, r);
    data[0], data[1] := o.rotr(l), o.rotr(r);
  }

  method DesEncrypt<W, K>(o: Ops<W, K>, data: array<W>, k: K, encrypt: bool)
    requires data.Length == 2
    modifies data
    ensures Pair(data[0], data[1]) == Single(o, k, encrypt, old(Pair(data[0], data[1])))
  {
    var p := o.ip(Pair(data[0], data[1]));
    var l, r := RunRounds(o, k, encrypt, o.rotl(p.y), o.rotl(p.x));
    var q := o.fp(Pair(o.rotr(l), o.rotr(r)));
    data[0], data[1] := q.x, q.y;
  }

  /** `des_ecb3_encrypt` with input and output the same block */
  method DesEcb3Encrypt<W(!new, 0), K>(o: Ops<W, K>, blk: array<byte>, k1: K, k2: K, k3: K, encrypt: bool)
    requires ValidOps(o) && blk.Length == 8
    modifies blk
    ensures blk[..] == StoreBlock(o, Triple(o, k1, k2, k3, encrypt, LoadBlock(o, old(blk[..]))))
  {
    ghost var b := blk[..];
    assert b[..4] == blk[..4] && b[4..] == blk[4..];
    var p := o.ip(Pair(o.load(blk[..4]), o.load(blk[4..])));
    var ll := new W[2];
    ll[0], ll[1] := p.x, p.y;
    DesEncrypt2(o, ll, k1, encrypt);
    DesEncrypt2(o, ll, k2, !encrypt);
    DesEncrypt2(o, ll, k3, encrypt);
    var q := o.fp(Pair(ll[0], ll[1]));
    BlockRoundTrip(o, q, b);
    var out := o.store(q.x) + o.store(q.y);
    forall i | 0 <= i < 8 {
      blk[i] := out[i];
    }
  }
}

/** The 32-bit words of DES (crypto/des_locl.h). */
module DesWords {
  import opened Bytes
  import opened Des
  import opened Xforms

  /** `PERM_OP(a, b, t, n, m)`: exchanges the bits of `b` under `m` with bits of `a`, `n` higher. */
  function PermOp(a: bv32, b: bv32, n: bv32, m: bv32): Pair<bv32>
    requires n <= 32
  {
    var t := ((a >> n) ^ b) & m;
    Pair(a ^ (t << n), b ^ t)
  }

  function Perm4(p: Pair<bv32>): Pair<bv32> { Swap(PermOp(p.y, p.x, 4, 0x0f0f_0f0f)) }
  function Perm16(p: Pair<bv32>): Pair<bv32> { PermOp(p.x, p.y, 16, 0x0000_ffff) }
  function Perm2(p: Pair<bv32>): Pair<bv32> { Swap(PermOp(p.y, p.x, 2, 0x3333_3333)) }
  function Perm8(p: Pair<bv32>): Pair<bv32> { PermOp(p.x, p.y, 8, 0x00ff_00ff) }
  function Perm1(p: Pair<bv32>): Pair<bv32> { Swap(PermOp(p.y, p.x, 1, 0x5555_5555)) }

  lemma Perm4Twice(p: Pair<bv32>)
    ensures Perm4(Perm4(p)) == p
  {
  }

  lemma Perm16Twice(p: Pair<bv32>)
    ensures Perm16(Perm16(p)) == p
  {
  }

  lemma Perm2Twice(p: Pair<bv32>)
    ensures Perm2(Perm2(p)) == p
  {
  }

  lemma Perm8Twice(p: Pair<bv32>)
    ensures Perm8(Perm8(p)) == p
  {
  }

  lemma Perm1Twice(p: Pair<bv32>)
    ensures Perm1(Perm1(p)) == p
  {
  }

  /** `c2l` */
  function LoadWord(b: seq<byte>): bv32 {
    if |b| == 4 then
      (b[0] as bv32) | (b[1] as bv32 << 8) | (b[2] as bv32 << 16) | (b[3] as bv32 << 24)
    else 0
  }

  /** `l2c` */
  function StoreWord(w: bv32): seq<byte> {
    [(w & 0xff) as byte, ((w >> 8) & 0xff) as byte, ((w >> 16) & 0xff) as byte, ((w >> 24) & 0xff) as byte]
  }

  /** The first octet is the lowest. */
  lemma LoadWordLow(a: byte, b: byte, c: byte, d: byte)
    ensures var w := LoadWord([a, b, c, d]);
      && w & 0xff == a as bv32 && (w >> 8) & 0xff == b as bv32 && (w >> 16) & 0xff == c as bv32 && w >> 24 == d as bv32
  {
  }

  lemma LoadStore(w: bv32)
    ensures LoadWord(StoreWord(w)) == w
  {
  }

  lemma StoreLoad(b: seq<byte>)
    requires |b| == 4
    ensures StoreWord(LoadWord(b)) == b
  {
  }

  function Ip(p: Pair<bv32>): Pair<bv32> {
    Perm1(Perm8(Perm2(Perm16(Perm4(p)))))
  }

  function Fp(p: Pair<bv32>): Pair<bv32> {
    Perm4(Perm16(Perm2(Perm8(Perm1(p)))))
  }

  /** Bit `k` of a word. */
  function Bit(w: bv32, k: bv32): bool
    requires k < 32
  {
    (w >> k) & 1 == 1
  }

  /**
   * Bit `col` of octet `row` of the block `x`, `y` goes into `u` or `v`: the columns of the block, as a matrix
   * with an octet to a row, become octets, odd columns those of `u`, even ones those of `v`.
   */
  predicate MovesBit(x: bv32, y: bv32, u: bv32, v: bv32, row: bv32, col: bv32)
    requires row < 8 && col < 8
  {
    Bit(if col & 1 == 1 then u else v, 8 * ((7 - col) >> 1) + (7 - row))
      == Bit(if row < 4 then x else y, 8 * (row & 3) + col)
  }

  /** The words after each of the five exchanges of `IP`. */
  lemma Wires(x: bv32, y: bv32, x1: bv32, y1: bv32, x2: bv32, y2: bv32, x3: bv32, y3: bv32,
              x4: bv32, y4: bv32, x5: bv32, y5: bv32, row: bv32, col: bv32)
    requires y1 == y ^ ((((y >> 4) ^ x) & 0x0f0f_0f0f) << 4) && x1 == x ^ (((y >> 4) ^ x) & 0x0f0f_0f0f)
    requires x2 == x1 ^ ((((x1 >> 16) ^ y1) & 0x0000_ffff) << 16) && y2 == y1 ^ (((x1 >> 16) ^ y1) & 0x0000_ffff)
    requires y3 == y2 ^ ((((y2 >> 2) ^ x2) & 0x3333_3333) << 2) && x3 == x2 ^ (((y2 >> 2) ^ x2) & 0x3333_3333)
    requires x4 == x3 ^ ((((x3 >> 8) ^ y3) & 0x00ff_00ff) << 8) && y4 == y3 ^ (((x3 >> 8) ^ y3) & 0x00ff_00ff)
    requires y5 == y4 ^ ((((y4 >> 1) ^ x4) & 0x5555_5555) << 1) && x5 == x4 ^ (((y4 >> 1) ^ x4) & 0x5555_5555)
    requires row < 8 && col < 8
    ensures MovesBit(x, y, x5, y5, row, col)
  {
  }

  lemma Perm4Is(p: Pair<bv32>)
    ensures Perm4(p).y == p.y ^ ((((p.y >> 4) ^ p.x) & 0x0f0f_0f0f) << 4)
    ensures Perm4(p).x == p.x ^ (((p.y >> 4) ^ p.x) & 0x0f0f_0f0f)
  {
  }

  lemma Perm16Is(p: Pair<bv32>)
    ensures Perm16(p).x == p.x ^ ((((p.x >> 16) ^ p.y) & 0x0000_ffff) << 16)
    ensures Perm16(p).y == p.y ^ (((p.x >> 16) ^ p.y) & 0x0000_ffff)
  {
  }

  lemma Perm2Is(p: Pair<bv32>)
    ensures Perm2(p).y == p.y ^ ((((p.y >> 2) ^ p.x) & 0x3333_3333) << 2)
    ensures Perm2(p).x == p.x ^ (((p.y >> 2) ^ p.x) & 0x3333_3333)
  {
  }

  lemma Perm8Is(p: Pair<bv32>)
    ensures Perm8(p).x == p.x ^ ((((p.x >> 8) ^ p.y) & 0x00ff_00ff) << 8)
    ensures Perm8(p).y == p.y ^ (((p.x >> 8) ^ p.y) & 0x00ff_00ff)
  {
  }

  lemma Perm1Is(p: Pair<bv32>)
    ensures Perm1(p).y == p.y ^ ((((p.y >> 1) ^ p.x) & 0x5555_5555) << 1)
    ensures Perm1(p).x == p.x ^ (((p.y >> 1) ^ p.x) & 0x5555_5555)
  {
  }

  lemma IpMovesBit(p: Pair<bv32>, row: bv32, col: bv32)
    requires row < 8 && col < 8
    ensures MovesBit(p.x, p.y, Ip(p).x, Ip(p).y, row, col)
  {
    var a := Perm4(p);
    var b := Perm16(a);
    var c := Perm2(b);
    var d := Perm8(c);
    var e := Perm1(d);
    Perm4Is(p);
    Perm16Is(a);
    Perm2Is(b);
    Perm8Is(c);
    Perm1Is(d);
    Wires(p.x, p.y, a.x, a.y, b.x, b.y, c.x, c.y, d.x, d.y, e.x, e.y, row, col);
  }

  /** Where `IP` takes every bit of the block. */
  lemma IpMovesColumns(p: Pair<bv32>)
    ensures forall row: bv32, col: bv32 :: row < 8 && col < 8 ==>
      MovesBit(p.x, p.y, Ip(p).x, Ip(p).y, row, col)
  {
    forall row: bv32, col: bv32 | row < 8 && col < 8
      ensures MovesBit(p.x, p.y, Ip(p).x, Ip(p).y, row, col)
    {
      IpMovesBit(p, row, col);
    }
  }

  ghost predicate Involution(s: Pair<bv32> -> Pair<bv32>) {
    forall p :: s(s(p)) == p
  }

  /** Involutions taken back in the opposite order. */
  lemma Unwind(a: Pair<bv32> -> Pair<bv32>, b: Pair<bv32> -> Pair<bv32>, c: Pair<bv32> -> Pair<bv32>,
               d: Pair<bv32> -> Pair<bv32>, e: Pair<bv32> -> Pair<bv32>, p: Pair<bv32>)
    requires Involution(a) && Involution(b) && Involution(c) && Involution(d) && Involution(e)
    ensures a(b(c(d(e(e(d(c(b(a(p)))))))))) == p
    ensures e(d(c(b(a(a(b(c(d(e(p)))))))))) == p
  {
  }

  lemma Steps()
    ensures Involution(Perm4) && Involution(Perm16) && Involution(Perm2)
    ensures Involution(Perm8) && Involution(Perm1)
  {
    forall p ensures Perm4(Perm4(p)) == p { Perm4Twice(p); }
    forall p ensures Perm16(Perm16(p)) == p { Perm16Twice(p); }
    forall p ensures Perm2(Perm2(p)) == p { Perm2Twice(p); }
    forall p ensures Perm8(Perm8(p)) == p { Perm8Twice(p); }
    forall p ensures Perm1(Perm1(p)) == p { Perm1Twice(p); }
  }

  /** Initial and final permutation are inverse to each other. */
  lemma IpFp(p: Pair<bv32>)
    ensures Fp(Ip(p)) == p && Ip(Fp(p)) == p
  {
    Steps();
    Unwind(Perm4, Perm16, Perm2, Perm8, Perm1, p);
  }

  function Xor32(x: bv32, y: bv32): bv32 { x ^ y }

  function Rotl(x: bv32): bv32 { (x << 1) | (x >> 31) }

  function Rotr(x: bv32): bv32 { (x >> 1) | (x << 31) }

  function DesOps<K>(round: (K, nat, bv32) -> bv32): Ops<bv32, K> {
    Ops(Xor32, round, Rotl, Rotr, Ip, Fp, LoadWord, StoreWord)
  }

  lemma XorBack(x: bv32, y: bv32)
    ensures Xor32(Xor32(x, y), y) == x
  {
  }

  lemma RotateBack(x: bv32)
    ensures Rotl(Rotr(x)) == x && Rotr(Rotl(x)) == x
  {
  }

  /** The word operations meet the laws, whatever the round function. */
  lemma DesOpsValid<K>(round: (K, nat, bv32) -> bv32)
    ensures ValidOps(DesOps(round))
  {
    var o := DesOps(round);
    forall x, y ensures XorLaw(o, x, y) { XorBack(x, y); }
    forall w ensures WordLaw(o, w) { RotateBack(w); LoadStore(w); }
    forall p ensures PairLaw(o, p) { IpFp(p); }
    forall b ensures BytesLaw(o, b) { if |b| == 4 { StoreLoad(b); } }
  }

  /** 3DES-CBC meets all that is asked of a transform of the crypto framework. */
  lemma Des3CbcValid<K>(round: (K, nat, bv32) -> bv32, ks: Keys<K>)
    ensures IsPermutation(Des3Cipher(DesOps(round), ks))
  {
    DesOpsValid(round);
    Des3IsPermutation(DesOps(round), ks);
  }
}
