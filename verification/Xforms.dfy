/** The xforms of crypto/xform.c that `swcr_encdec` chains in CBC, and AES-CTR and AES-XTS. */
module Xforms {
  import opened Bytes
  import opened Modes

  /** A block permutation with its inverse; keys and tables are folded into the two functions. */
  datatype Cipher = Cipher(blocksize: nat, enc: seq<byte> -> seq<byte>, dec: seq<byte> -> seq<byte>)

  ghost predicate IsPermutation(c: Cipher) {
    && 0 < c.blocksize <= EALG_MAX_BLOCK_LEN
    && (forall b :: |b| == c.blocksize ==> |c.enc(b)| == c.blocksize)
    && (forall b :: |b| == c.blocksize ==> |c.dec(b)| == c.blocksize)
    && (forall b {:trigger c.dec(c.enc(b))} :: |b| == c.blocksize ==> c.dec(c.enc(b)) == b)
    && (forall b {:trigger c.enc(c.dec(b))} :: |b| == c.blocksize ==> c.enc(c.dec(b)) == b)
  }

  // ----- CBC -----

  function CbcXform(c: Cipher): Xform<()> {
    Xform(c.blocksize, c.blocksize, (k, b) => (k, c.enc(b)), (k, b) => (k, c.dec(b)), None)
  }

  lemma CbcXformValid(c: Cipher)
    requires IsPermutation(c)
    ensures ValidXform(CbcXform(c)) && Inverts(CbcXform(c)) && KeyStateRecovers(CbcXform(c))
  {
  }

  // ----- AES-CTR -----

  const AESCTR_NONCESIZE := 4
  const AESCTR_IVSIZE := 8
  const AESCTR_BLOCKSIZE := 16

  /** The 16-octet AES block; the key is folded into the functions that take one. */
  type Block = b: seq<byte> | |b| == 16 witness seq(16, _ => 0)

  /** `++ac_block[i]`, carrying down to the first counter octet. */
  function Bump(c: Block, i: nat): (r: Block)
    requires 12 <= i < 16
    ensures r[..12] == c[..12] && r[i + 1..] == c[i + 1..]
    decreases i
  {
    var d: Block := c[i := c[i] + 1];
    if d[i] != 0 || i == 12 then d else Bump(d, i - 1)
  }

  function Value(b: byte): (n: nat)
    ensures n < 256
  {
    b as nat
  }

  lemma ValueInc(b: byte)
    ensures Value(b + 1) == if Value(b) == 255 then 0 else Value(b) + 1
    ensures b + 1 == 0 <==> Value(b) == 255
  {
  }

  /** The counter field, big-endian. */
  function Counter(c: Block): nat {
    ((Value(c[12]) * 256 + Value(c[13])) * 256 + Value(c[14])) * 256 + Value(c[15])
  }

  /** Octets `j + 1..i` all wrap, so the carry reaches octet `j`. */
  predicate Carries(c: Block, j: nat, i: nat)
    requires j <= i < 16
    decreases i
  {
    j == i || (c[i] + 1 == 0 && Carries(c, j, i - 1))
  }

  lemma {:induction false} CarriesLocal(c: Block, d: Block, j: nat, i: nat)
    requires j <= i < 16 && c[..i + 1] == d[..i + 1]
    ensures Carries(c, j, i) == Carries(d, j, i)
    decreases i
  {
    assert c[i] == c[..i + 1][i] && d[i] == d[..i + 1][i];
    if j < i {
      assert c[..i] == c[..i + 1][..i] && d[..i] == d[..i + 1][..i];
      CarriesLocal(c, d, j, i - 1);
    }
  }

  lemma {:induction false} BumpAt(c: Block, i: nat, j: nat)
    requires 12 <= j <= i < 16
    ensures Bump(c, i)[j] == if Carries(c, j, i) then c[j] + 1 else c[j]
    decreases i
  {
    if j < i && c[i] + 1 == 0 {
      var d: Block := c[i := 0];
      BumpAt(d, i - 1, j);
      CarriesLocal(c, d, j, i - 1);
    }
  }

  function Up(n: nat): nat {
    if n == 255 then 0 else n + 1
  }

  /** Each octet of the counter field goes up when all behind it wrap. */
  lemma BumpValues(c: Block, r: Block)
    requires r == Bump(c, 15)
    ensures Value(r[15]) == Up(Value(c[15]))
    ensures Value(r[14]) == if Value(c[15]) == 255 then Up(Value(c[14])) else Value(c[14])
    ensures Value(r[13]) == if Value(c[15]) == 255 && Value(c[14]) == 255 then Up(Value(c[13])) else Value(c[13])
    ensures Value(r[12]) == if Value(c[15]) == 255 && Value(c[14]) == 255 && Value(c[13]) == 255
                            then Up(Value(c[12])) else Value(c[12])
  {
    BumpValue(c, r, 15);
    BumpValue(c, r, 14);
    BumpValue(c, r, 13);
    BumpValue(c, r, 12);
    CarriesValues(c);
  }

  lemma BumpValue(c: Block, r: Block, j: nat)
    requires r == Bump(c, 15) && 12 <= j < 16
    ensures Value(r[j]) == if Carries(c, j, 15) then Up(Value(c[j])) else Value(c[j])
  {
    BumpAt(c, 15, j);
    ValueInc(c[j]);
  }

  lemma CarriesValues(c: Block)
    ensures Carries(c, 15, 15)
    ensures Carries(c, 14, 15) <==> Value(c[15]) == 255
    ensures Carries(c, 13, 15) <==> Value(c[15]) == 255 && Value(c[14]) == 255
    ensures Carries(c, 12, 15) <==> Value(c[15]) == 255 && Value(c[14]) == 255 && Value(c[13]) == 255
  {
    ValueInc(c[15]);
    ValueInc(c[14]);
    ValueInc(c[13]);
    assert Carries(c, 14, 14) && Carries(c, 13, 13) && Carries(c, 12, 12);
    assert Carries(c, 13, 14) <==> Value(c[14]) == 255;
    assert Carries(c, 12, 13) <==> Value(c[13]) == 255;
    assert Carries(c, 12, 14) <==> Value(c[14]) == 255 && Value(c[13]) == 255;
  }

  const TWO32: nat := 0x1_0000_0000

  /** The octet-wise carry is addition modulo 2^32, and it leaves nonce and IV alone. */
  lemma BumpCounts(c: Block)
    ensures Counter(Bump(c, 15)) == (Counter(c) + 1) % TWO32
    ensures Bump(c, 15)[..12] == c[..12]
  {
    var r := Bump(c, 15);
    BumpValues(c, r);
    CountUp(Value(c[12]), Value(c[13]), Value(c[14]), Value(c[15]),
            Value(r[12]), Value(r[13]), Value(r[14]), Value(r[15]));
  }

  lemma CountUp(b0: nat, b1: nat, b2: nat, b3: nat, r0: nat, r1: nat, r2: nat, r3: nat)
    requires b0 < 256 && b1 < 256 && b2 < 256 && b3 < 256
    requires r3 == Up(b3) && r2 == (if b3 == 255 then Up(b2) else b2)
    requires r1 == if b3 == 255 && b2 == 255 then Up(b1) else b1
    requires r0 == if b3 == 255 && b2 == 255 && b1 == 255 then Up(b0) else b0
    ensures ((r0 * 256 + r1) * 256 + r2) * 256 + r3 == (((b0 * 256 + b1) * 256 + b2) * 256 + b3 + 1) % TWO32
  {
  }

  /** `aes_ctr_crypt` on one block: bump the counter, then mask the data with its encryption. */
  function CtrCrypt(aes: Block -> Block, c: Block, b: seq<byte>): (Block, seq<byte>) {
    var d := Bump(c, 15);
    (d, if |b| == 16 then Xor(b, aes(d)) else b)
  }

  /** `aes_ctr_reinit`: keep the nonce, take the IV, reset the counter. */
  function CtrReinit(c: Block, iv: seq<byte>): Block {
    if |iv| == AESCTR_IVSIZE then c[..AESCTR_NONCESIZE] + iv + [0, 0, 0, 0] else c
  }

  function CtrXform(aes: Block -> Block): Xform<Block> {
    Xform(AESCTR_BLOCKSIZE, AESCTR_IVSIZE,
          (c, b) => CtrCrypt(aes, c, b), (c, b) => CtrCrypt(aes, c, b), Some((c, iv) => CtrReinit(c, iv)))
  }

  /** The counter loop and the masking loop of `aes_ctr_crypt`, in place. */
  method AesCtrCrypt(aes: Block -> Block, acBlock: array<byte>, data: array<byte>, at: nat)
    requires acBlock.Length == AESCTR_BLOCKSIZE && at + AESCTR_BLOCKSIZE <= data.Length && acBlock != data
    modifies acBlock, data
    ensures var (c, o) := CtrCrypt(aes, old(acBlock[..]), old(data[at..at + AESCTR_BLOCKSIZE]));
            acBlock[..] == c && data[at..at + AESCTR_BLOCKSIZE] == o
    ensures data[..at] == old(data[..at])
    ensures data[at + AESCTR_BLOCKSIZE..] == old(data[at + AESCTR_BLOCKSIZE..])
  {
    var i := 15;
    ghost var goal := Bump(acBlock[..], 15);
    var carry := true;
    while carry && i >= 12
      invariant 11 <= i < 16
      invariant carry && i >= 12 ==> Bump(acBlock[..], i) == goal
      invariant !carry || i < 12 ==> acBlock[..] == goal
      invariant data[..] == old(data[..])
      decreases i, carry
    {
      ghost var c: Block := acBlock[..];
      acBlock[i] := acBlock[i] + 1;
      assert acBlock[..] == c[i := c[i] + 1];
      if acBlock[i] != 0 {
        carry := false;
      } else {
        i := i - 1;
      }
    }
    var keystream := new byte[AESCTR_BLOCKSIZE];
    CopyInto(keystream, 0, aes(acBlock[..]));
    assert keystream[0..AESCTR_BLOCKSIZE] == aes(goal);
    XorInto(data, at, keystream, 0, AESCTR_BLOCKSIZE);
  }

  lemma CtrXformValid(aes: Block -> Block)
    ensures ValidXform(CtrXform(aes)) && Inverts(CtrXform(aes)) && KeyStateRecovers(CtrXform(aes))
  {
    var xf := CtrXform(aes);
    forall c: Block, b: seq<byte> | |b| == 16
      ensures CtrCrypt(aes, c, CtrCrypt(aes, c, b).1) == (CtrCrypt(aes, c, b).0, b)
    {
      XorCancels(b, aes(Bump(c, 15)));
    }
    forall c: Block, b: seq<byte>, iv: seq<byte> | |iv| == AESCTR_IVSIZE
      ensures CtrReinit(CtrCrypt(aes, c, b).0, iv) == CtrReinit(c, iv)
    {
      assert Bump(c, 15)[..4] == Bump(c, 15)[..12][..4];
      assert c[..4] == c[..12][..4];
    }
    forall c: Block, iv: seq<byte>, iv': seq<byte> | |iv| == AESCTR_IVSIZE && |iv'| == AESCTR_IVSIZE
      ensures CtrReinit(CtrReinit(c, iv'), iv) == CtrReinit(c, iv)
    {
      assert CtrReinit(c, iv')[..4] == c[..4];
    }
  }

  ghost predicate IsCtr(xf: Xform<Block>, aes: Block -> Block) {
    && xf.blocksize == 16 && xf.reinit.Some?
    && (forall c, b :: |b| == 16 ==> xf.encrypt(c, b) == CtrCrypt(aes, c, b))
    && (forall c, b :: |b| == 16 ==> xf.decrypt(c, b) == CtrCrypt(aes, c, b))
  }

  lemma CtrXformIsCtr(aes: Block -> Block)
    ensures IsCtr(CtrXform(aes), aes)
  {
  }

  /** The state a block is crypted in depends on its number only. */
  lemma CtrState(xf: Xform<Block>, aes: Block -> Block, enc: bool, s: Chain<Block>, data: seq<byte>, p: nat)
    requires ValidXform(xf) && IsCtr(xf, aes) && Whole(|data|, 16) && p + 16 <= |data| && Whole(p, 16)
    ensures var c, b := CtrBlock(s.ctx, BlockCount(p, 16)), data[p..p + 16];
            Run(xf, enc, s, data).1[p..p + 16] == (if enc then xf.encrypt(c, b) else xf.decrypt(c, b)).1
  {
    var next := (c: Block) => Bump(c, 15);
    OwnStateBlock(xf, enc, s, data, p, next);
    CtrIterates(s.ctx, BlockCount(p, 16), next);
  }

  /** The block at `p` is masked with the encryption of the counter block that many steps on, and one more. */
  lemma CtrMasksBlock(xf: Xform<Block>, aes: Block -> Block, enc: bool, s: Chain<Block>, data: seq<byte>, p: nat)
    requires ValidXform(xf) && IsCtr(xf, aes) && Whole(|data|, 16) && p + 16 <= |data| && Whole(p, 16)
    ensures Run(xf, enc, s, data).1[p..p + 16]
      == Xor(data[p..p + 16], aes(CtrBlock(s.ctx, BlockCount(p, 16) + 1)))
  {
    CtrState(xf, aes, enc, s, data, p);
    CtrOne(xf, aes, enc, CtrBlock(s.ctx, BlockCount(p, 16)), data[p..p + 16]);
  }

  /** And so for the CTR xform itself. */
  lemma AesCtrRun(aes: Block -> Block, enc: bool, s: Chain<Block>, data: seq<byte>, p: nat)
    requires Whole(|data|, 16) && p + 16 <= |data| && Whole(p, 16)
    ensures var xf := CtrXform(aes);
      && ValidXform(xf)
      && Run(xf, enc, s, data).1[p..p + 16]
           == Xor(data[p..p + 16], aes(CtrBlock(s.ctx, BlockCount(p, 16) + 1)))
  {
    CtrXformValid(aes);
    CtrXformIsCtr(aes);
    CtrMasksBlock(CtrXform(aes), aes, enc, s, data, p);
  }

  lemma CtrOne(xf: Xform<Block>, aes: Block -> Block, enc: bool, c: Block, b: seq<byte>)
    requires IsCtr(xf, aes) && |b| == 16
    ensures (if enc then xf.encrypt(c, b) else xf.decrypt(c, b)).1 == Xor(b, aes(Bump(c, 15)))
  {
  }

  /** The counter block after `n` blocks of a request. */
  function CtrBlock(c: Block, n: nat): Block {
    if n == 0 then c else Bump(CtrBlock(c, n - 1), 15)
  }

  lemma {:induction false} CtrIterates(c: Block, n: nat, next: Block -> Block)
    requires forall x :: next(x) == Bump(x, 15)
    ensures Iterate(next, c, n) == CtrBlock(c, n)
  {
    if n == 0 {
    } else {
      CtrIterates(c, n - 1, next);
    }
  }

  /** The counter field of `c` holds `k`, modulo 2^32. */
  predicate Numbered(c: Block, k: nat) {
    Counter(c) == k % TWO32
  }

  lemma BumpNumbered(c: Block, k: nat)
    requires Numbered(c, k)
    ensures Numbered(Bump(c, 15), k + 1) && Bump(c, 15)[..12] == c[..12]
  {
    BumpCounts(c);
    ModStep(k);
  }

  lemma ModStep(k: nat)
    ensures (k % TWO32 + 1) % TWO32 == (k + 1) % TWO32
  {
  }

  /** The counter of step `n` is the starting counter plus `n`; nonce and IV never change. */
  lemma {:induction false} CtrBlockCounts(c: Block, k: nat, n: nat)
    requires Numbered(c, k)
    ensures CtrBlock(c, n)[..12] == c[..12] && Numbered(CtrBlock(c, n), k + n)
  {
    if n == 0 {
    } else {
      CtrBlockCounts(c, k, n - 1);
      BumpNumbered(CtrBlock(c, n - 1), k + (n - 1));
    }
  }

  lemma ModApart(a: nat, i: nat, j: nat)
    requires i < j < i + TWO32
    ensures (a + i) % TWO32 != (a + j) % TWO32
  {
  }

  lemma CounterFits(c: Block)
    ensures Counter(c) < TWO32
  {
  }

  /** Up to 2^32 blocks, no counter block comes twice. */
  lemma CtrBlocksDiffer(c: Block, i: nat, j: nat)
    requires i < j < i + TWO32
    ensures CtrBlock(c, i) != CtrBlock(c, j)
  {
    var k := Counter(c);
    CounterFits(c);
    CtrBlockCounts(c, k, i);
    CtrBlockCounts(c, k, j);
    ModApart(k, i, j);
  }

  /** So no mask is used twice in a run of that many blocks, the cipher being a permutation. */
  lemma CtrMasksDiffer(aes: Block -> Block, dec: Block -> Block, c: Block, i: nat, j: nat)
    requires (forall b :: dec(aes(b)) == b) && i < j < i + TWO32
    ensures aes(CtrBlock(c, i)) != aes(CtrBlock(c, j))
  {
    CtrBlocksDiffer(c, i, j);
    assert dec(aes(CtrBlock(c, i))) == CtrBlock(c, i) && dec(aes(CtrBlock(c, j))) == CtrBlock(c, j);
  }

  // ----- AES-XTS -----

  const AES_XTS_IVSIZE := 8
  const AES_XTS_ALPHA: byte := 0x87

  function CarryOut(x: byte): byte {
    if x & 0x80 != 0 then 1 else 0
  }

  function DoubleOctet(t: Block, i: int): byte {
    if 0 < i < 16 then (t[i] << 1) | CarryOut(t[i - 1])
    else (t[0] << 1) ^ (if t[15] & 0x80 != 0 then AES_XTS_ALPHA else 0)
  }

  /** The tweak after its update: shifted left one bit, octet by octet, and reduced. */
  function Double(t: Block): Block {
    seq(16, i => DoubleOctet(t, i))
  }

  function BitOf(b: byte, k: nat): bool
    requires k < 8
  {
    match k
    case 0 => b & 0x01 != 0
    case 1 => b & 0x02 != 0
    case 2 => b & 0x04 != 0
    case 3 => b & 0x08 != 0
    case 4 => b & 0x10 != 0
    case 5 => b & 0x20 != 0
    case 6 => b & 0x40 != 0
    case _ => b & 0x80 != 0
  }

  /** Coefficient `n` of the tweak read as a polynomial over GF(2), least significant octet first. */
  function Coefficient(t: Block, n: nat): bool
    requires n < 128
  {
    BitOf(t[n / 8], n % 8)
  }

  lemma OctetShifts(x: byte, y: byte, k: nat)
    requires k < 8
    ensures BitOf((x << 1) | CarryOut(y), k) == if k == 0 then BitOf(y, 7) else BitOf(x, k - 1)
    ensures BitOf(x << 1, k) == (k > 0 && BitOf(x, k - 1))
    ensures BitOf((x << 1) ^ AES_XTS_ALPHA, k) == ((k > 0 && BitOf(x, k - 1)) != (k == 0 || k == 1 || k == 2 || k == 7))
  {
  }

  /** The octet loop multiplies the tweak by x modulo x^128 + x^7 + x^2 + x + 1. */
  lemma DoubleTimesX(t: Block, n: nat)
    requires n < 128
    ensures Coefficient(Double(t), n)
      == ((n > 0 && Coefficient(t, n - 1)) != (Coefficient(t, 127) && (n == 0 || n == 1 || n == 2 || n == 7)))
  {
    DoubleBit(t, n / 8, n % 8);
  }

  lemma DoubleBit(t: Block, i: nat, k: nat)
    requires i < 16 && k < 8
    ensures BitOf(Double(t)[i], k)
      == ((if k > 0 then BitOf(t[i], k - 1) else i > 0 && BitOf(t[i - 1], 7))
          != (i == 0 && BitOf(t[15], 7) && (k == 0 || k == 1 || k == 2 || k == 7)))
  {
    OctetShifts(t[i], if i > 0 then t[i - 1] else 0, k);
    OctetLow(t[0]);
  }

  /** `aes_xts_crypt` on one block: mask with the tweak, run the cipher, unmask, double the tweak. */
  function XtsCrypt(aes: Block -> Block, t: Block, b: seq<byte>): (Block, seq<byte>) {
    (Double(t), if |b| == 16 then Xor(aes(Xor(b, t)), t) else b)
  }

  /** `aes_xts_reinit`: the tweak is the encryption of the IV padded with zeros. */
  function XtsReinit(aes2: Block -> Block, t: Block, iv: seq<byte>): Block {
    if |iv| == AES_XTS_IVSIZE then aes2(iv + [0, 0, 0, 0, 0, 0, 0, 0]) else t
  }

  function XtsXform(enc1: Block -> Block, dec1: Block -> Block, enc2: Block -> Block): Xform<Block> {
    Xform(16, AES_XTS_IVSIZE,
          (t, b) => XtsCrypt(enc1, t, b), (t, b) => XtsCrypt(dec1, t, b), Some((t, iv) => XtsReinit(enc2, t, iv)))
  }

  lemma XtsXformValid(enc1: Block -> Block, dec1: Block -> Block, enc2: Block -> Block)
    requires forall b :: dec1(enc1(b)) == b
    ensures var xf := XtsXform(enc1, dec1, enc2); ValidXform(xf) && Inverts(xf) && KeyStateRecovers(xf)
  {
    forall t: Block, b: seq<byte> | |b| == 16
      ensures XtsCrypt(dec1, t, XtsCrypt(enc1, t, b).1) == (XtsCrypt(enc1, t, b).0, b)
    {
      var e := enc1(Xor(b, t));
      XorCancels(e, t);
      XorCancels(b, t);
    }
  }

  ghost predicate IsXts(xf: Xform<Block>, enc1: Block -> Block, dec1: Block -> Block) {
    && xf.blocksize == 16 && xf.reinit.Some?
    && (forall t, b :: |b| == 16 ==> xf.encrypt(t, b) == XtsCrypt(enc1, t, b))
    && (forall t, b :: |b| == 16 ==> xf.decrypt(t, b) == XtsCrypt(dec1, t, b))
  }

  lemma XtsXformIsXts(enc1: Block -> Block, dec1: Block -> Block, enc2: Block -> Block)
    ensures IsXts(XtsXform(enc1, dec1, enc2), enc1, dec1)
  {
  }

  /** The block at `p` is enciphered under the tweak doubled once for every block before it. */
  lemma XtsTweaksBlock(xf: Xform<Block>, enc1: Block -> Block, dec1: Block -> Block,
                       enc: bool, s: Chain<Block>, data: seq<byte>, p: nat)
    requires ValidXform(xf) && IsXts(xf, enc1, dec1) && Whole(|data|, 16) && p + 16 <= |data| && Whole(p, 16)
    ensures var c: Block -> Block := if enc then enc1 else dec1;
            var t := Tweak(s.ctx, BlockCount(p, 16));
            Run(xf, enc, s, data).1[p..p + 16] == Xor(c(Xor(data[p..p + 16], t)), t)
  {
    var next := (t: Block) => Double(t);
    OwnStateBlock(xf, enc, s, data, p, next);
    TweakIterates(s.ctx, BlockCount(p, 16), next);
  }

  /** And so for the XTS xform itself. */
  lemma AesXtsRun(enc1: Block -> Block, dec1: Block -> Block, enc2: Block -> Block,
                  enc: bool, s: Chain<Block>, data: seq<byte>, p: nat)
    requires forall b :: dec1(enc1(b)) == b
    requires Whole(|data|, 16) && p + 16 <= |data| && Whole(p, 16)
    ensures ValidXform(XtsXform(enc1, dec1, enc2))
    ensures var c: Block -> Block := if enc then enc1 else dec1;
            var t := Tweak(s.ctx, BlockCount(p, 16));
            Run(XtsXform(enc1, dec1, enc2), enc, s, data).1[p..p + 16] == Xor(c(Xor(data[p..p + 16], t)), t)
  {
    XtsXformValid(enc1, dec1, enc2);
    XtsXformIsXts(enc1, dec1, enc2);
    XtsTweaksBlock(XtsXform(enc1, dec1, enc2), enc1, dec1, enc, s, data, p);
  }

  function Tweak(t: Block, n: nat): Block {
    if n == 0 then t else Double(Tweak(t, n - 1))
  }

  lemma {:induction false} TweakIterates(t: Block, n: nat, next: Block -> Block)
    requires forall x :: next(x) == Double(x)
    ensures Iterate(next, t, n) == Tweak(t, n)
  {
    if n == 0 {
    } else {
      TweakIterates(t, n - 1, next);
    }
  }

  /** The masking, cipher and tweak loops of `aes_xts_crypt`, in place. */
  method AesXtsCrypt(aes: Block -> Block, tweak: array<byte>, data: array<byte>, at: nat)
    requires tweak.Length == 16 && at + 16 <= data.Length && tweak != data
    modifies tweak, data
    ensures var (t, o) := XtsCrypt(aes, old(tweak[..]), old(data[at..at + 16]));
            tweak[..] == t && data[at..at + 16] == o
    ensures data[..at] == old(data[..at]) && data[at + 16..] == old(data[at + 16..])
  {
    XtsMask(aes, tweak, data, at);
    DoubleInPlace(tweak);
  }

  method XtsMask(aes: Block -> Block, tweak: array<byte>, data: array<byte>, at: nat)
    requires tweak.Length == 16 && at + 16 <= data.Length && tweak != data
    modifies data
    ensures data[at..at + 16] == Xor(aes(Xor(old(data[at..at + 16]), tweak[..])), tweak[..])
    ensures data[..at] == old(data[..at]) && data[at + 16..] == old(data[at + 16..])
  {
    assert tweak[0..16] == tweak[..];
    XorInto(data, at, tweak, 0, 16);
    var block: Block := data[at..at + 16];
    CopyInto(data, at, aes(block));
    XorInto(data, at, tweak, 0, 16);
  }

  function ShiftedOctet(t: Block, j: nat): byte
    requires j < 16
  {
    (t[j] << 1) | (if j == 0 then 0 else CarryOut(t[j - 1]))
  }

  method DoubleInPlace(tweak: array<byte>)
    requires tweak.Length == 16
    modifies tweak
    ensures tweak[..] == Double(old(tweak[..]))
  {
    ghost var t: Block := tweak[..];
    var carryIn: byte := 0;
    for i := 0 to 16
      invariant carryIn == if i == 0 then 0 else t[i - 1] & 0x80
      invariant forall j :: i <= j < 16 ==> tweak[j] == t[j]
      invariant forall j :: 0 <= j < i ==> tweak[j] == ShiftedOctet(t, j)
    {
      var carryOut := tweak[i] & 0x80;
      tweak[i] := (tweak[i] << 1) | (if carryIn != 0 then 1 else 0);
      carryIn := carryOut;
    }
    OctetLow(t[0]);
    if carryIn != 0 {
      tweak[0] := tweak[0] ^ AES_XTS_ALPHA;
    }
    forall j | 0 <= j < 16 ensures tweak[j] == DoubleOctet(t, j) {
    }
  }

  lemma OctetLow(x: byte)
    ensures (x << 1) | 0 == x << 1 && (x << 1) ^ 0 == x << 1
  {
  }
}
