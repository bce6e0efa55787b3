/**
 * The software crypto engine with the algorithms it offers (crypto/cryptosoft.c, crypto/xform.c): 3DES-CBC on real
 * words with any round function, AES-CTR and AES-XTS with any block permutation, and HMAC-SHA-256.
 */
module Engine {
  import opened Bytes
  import opened Iovecs
  import opened Modes
  import opened Xforms
  import opened Sha2Stream
  import opened Sha2Instances
  import opened Endian
  import Division
  import EncDec
  import Hmac
  import Des
  import DesWords

  /** The same octets of the two buffers, of different fragmentations. */
  ghost predicate SameOctets(iovA: seq<Iovec>, a: seq<byte>, skipA: nat, iovB: seq<Iovec>, b: seq<byte>, skipB: nat,
                             len: nat)
    requires Within(iovA, |a|) && Within(iovB, |b|) && skipA + len <= Total(iovA) && skipB + len <= Total(iovB)
  {
    Flat(iovA, a)[skipA..skipA + len] == Flat(iovB, b)[skipB..skipB + len]
  }

  /** Encrypt in one buffer, decrypt in another: the plaintext is back, with any block cipher in CBC. */
  method CbcRoundTrip(c: Cipher, sw: EncDec.Session<()>,
                      iv: seq<byte>, drawn: seq<byte>, len: nat, memA: array<byte>, iovA: seq<Iovec>, skipA: nat,
                      memB: array<byte>, iovB: seq<Iovec>, skipB: nat)
    returns (r: Outcome)
    requires IsPermutation(c) && |iv| == |drawn| == c.blocksize && Valid(iovA, memA.Length) && Valid(iovB, memB.Length)
    requires memA != memB && iovA != [] && iovB != []
    modifies sw, memA, memB
    ensures r.Done? <==> len % c.blocksize == 0 && skipA + len <= Total(iovA) && skipB + len <= Total(iovB)
    ensures r.Done? ==> SameOctets(iovA, old(memA[..]), skipA, iovB, memB[..], skipB, len)
  {
    CbcXformValid(c);
    r := EncDec.EncryptCarryDecrypt(CbcXform(c), sw, iv, drawn, len, memA, iovA, skipA, memB, iovB, skipB);
  }

  function TripleDes<K>(round: (K, nat, bv32) -> bv32, ks: Des.Keys<K>): (c: Cipher)
    ensures IsPermutation(c) && c.blocksize == 8
  {
    DesWords.Des3CbcValid(round, ks);
    Des.Des3Cipher(DesWords.DesOps(round), ks)
  }

  /** The same with triple DES. */
  method TripleDesRoundTrip<K>(round: (K, nat, bv32) -> bv32, ks: Des.Keys<K>, sw: EncDec.Session<()>,
                               iv: seq<byte>, drawn: seq<byte>, len: nat,
                               memA: array<byte>, iovA: seq<Iovec>, skipA: nat,
                               memB: array<byte>, iovB: seq<Iovec>, skipB: nat)
    returns (r: Outcome)
    requires |iv| == |drawn| == 8 && Valid(iovA, memA.Length) && Valid(iovB, memB.Length) && memA != memB
    requires iovA != [] && iovB != []
    modifies sw, memA, memB
    ensures r.Done? <==> len % 8 == 0 && skipA + len <= Total(iovA) && skipB + len <= Total(iovB)
    ensures r.Done? ==> SameOctets(iovA, old(memA[..]), skipA, iovB, memB[..], skipB, len)
  {
    r := CbcRoundTrip(TripleDes(round, ks), sw, iv, drawn, len, memA, iovA, skipA, memB, iovB, skipB);
  }

  /** The same with AES-CTR, whatever the block function. */
  method AesCtrRoundTrip(aes: Block -> Block, sw: EncDec.Session<Block>,
                         iv: seq<byte>, drawn: seq<byte>, len: nat, memA: array<byte>, iovA: seq<Iovec>, skipA: nat,
                         memB: array<byte>, iovB: seq<Iovec>, skipB: nat)
    returns (r: Outcome)
    requires |iv| == |drawn| == AESCTR_IVSIZE && Valid(iovA, memA.Length) && Valid(iovB, memB.Length) && memA != memB
    requires iovA != [] && iovB != []
    modifies sw, memA, memB
    ensures r.Done? <==> len % 16 == 0 && skipA + len <= Total(iovA) && skipB + len <= Total(iovB)
    ensures r.Done? ==> SameOctets(iovA, old(memA[..]), skipA, iovB, memB[..], skipB, len)
  {
    CtrXformValid(aes);
    r := EncDec.EncryptCarryDecrypt(CtrXform(aes), sw, iv, drawn, len, memA, iovA, skipA, memB, iovB, skipB);
  }

  /** The same with AES-XTS. */
  method AesXtsRoundTrip(enc1: Block -> Block, dec1: Block -> Block, enc2: Block -> Block, sw: EncDec.Session<Block>,
                         iv: seq<byte>, drawn: seq<byte>, len: nat, memA: array<byte>, iovA: seq<Iovec>, skipA: nat,
                         memB: array<byte>, iovB: seq<Iovec>, skipB: nat)
    returns (r: Outcome)
    requires forall b :: dec1(enc1(b)) == b
    requires |iv| == |drawn| == AES_XTS_IVSIZE && Valid(iovA, memA.Length) && Valid(iovB, memB.Length) && memA != memB
    requires iovA != [] && iovB != []
    modifies sw, memA, memB
    ensures r.Done? <==> len % 16 == 0 && skipA + len <= Total(iovA) && skipB + len <= Total(iovB)
    ensures r.Done? ==> SameOctets(iovA, old(memA[..]), skipA, iovB, memB[..], skipB, len)
  {
    XtsXformValid(enc1, dec1, enc2);
    var xf := XtsXform(enc1, dec1, enc2);
    r := EncDec.EncryptCarryDecrypt(xf, sw, iv, drawn, len, memA, iovA, skipA, memB, iovB, skipB);
  }

  // ----- What a request does to each block -----

  lemma {:induction false} BlocksOf(n: nat)
    ensures Whole(16 * n, 16) && BlockCount(16 * n, 16) == n
  {
    if n == 0 {
    } else {
      BlocksOf(n - 1);
    }
  }

  /** A counter block whose counter starts at zero holds the number of steps. */
  lemma CounterBlock(c: Block, n: nat)
    requires c[12..] == [0, 0, 0, 0]
    ensures CtrBlock(c, n) == c[..12] + BigEndian(n, 4)
  {
    var d := CtrBlock(c, n);
    assert c[12] == c[12..][0] && c[13] == c[12..][1] && c[14] == c[12..][2] && c[15] == c[12..][3];
    CtrBlockCounts(c, 0, n);
    CounterOctets(d, n);
    assert d == d[..12] + d[12..];
  }

  lemma CounterOctets(d: Block, n: nat)
    requires Numbered(d, n)
    ensures d[12..] == BigEndian(n, 4)
  {
    QuadOctets(d[12], d[13], d[14], d[15]);
    assert d[12..] == [d[12], d[13], d[14], d[15]];
    LowOctets(n, Counter(d));
  }

  lemma LowOctets(n: nat, k: nat)
    requires k == n % TWO32
    ensures BigEndian(k, 4) == BigEndian(n, 4)
  {
    assert Pow256(4) == TWO32;
    BigEndianWraps(k, n / TWO32, 4);
  }

  /**
   * Block `n` of an AES-CTR request is masked with the encryption of nonce, IV and the number `n + 1`: section 4 of
   * RFC 3686.
   */
  lemma AesCtrRequest(aes: Block -> Block, enc: bool, key: Block, iv: seq<byte>, data: seq<byte>, n: nat)
    requires |iv| == AESCTR_IVSIZE && Whole(|data|, 16) && 16 * n + 16 <= |data|
    ensures ValidXform(CtrXform(aes))
    ensures Run(CtrXform(aes), enc, EncDec.StartChain(CtrXform(aes), key, iv), data).1[16 * n..16 * n + 16]
      == Xor(data[16 * n..16 * n + 16], aes(key[..AESCTR_NONCESIZE] + iv + BigEndian(n + 1, 4)))
  {
    var s := EncDec.StartChain(CtrXform(aes), key, iv);
    assert s == Chain(CtrReinit(key, iv), iv);
    AesCtrNumbered(aes, enc, s, data, n);
    CounterOfRequest(key, iv, n + 1);
  }

  lemma AesCtrNumbered(aes: Block -> Block, enc: bool, s: Chain<Block>, data: seq<byte>, n: nat)
    requires Whole(|data|, 16) && 16 * n + 16 <= |data|
    ensures ValidXform(CtrXform(aes))
    ensures Run(CtrXform(aes), enc, s, data).1[16 * n..16 * n + 16]
      == Xor(data[16 * n..16 * n + 16], aes(CtrBlock(s.ctx, n + 1)))
  {
    BlocksOf(n);
    AesCtrRun(aes, enc, s, data, 16 * n);
  }

  lemma CounterOfRequest(key: Block, iv: seq<byte>, n: nat)
    requires |iv| == AESCTR_IVSIZE
    ensures CtrBlock(CtrReinit(key, iv), n) == key[..AESCTR_NONCESIZE] + iv + BigEndian(n, 4)
  {
    var c := CtrReinit(key, iv);
    assert c[..12] == key[..AESCTR_NONCESIZE] + iv && c[12..] == [0, 0, 0, 0];
    CounterBlock(c, n);
  }

  /** Block `n` of an AES-XTS request is enciphered under the encrypted IV, doubled `n` times. */
  lemma AesXtsRequest(enc1: Block -> Block, dec1: Block -> Block, enc2: Block -> Block, enc: bool, key: Block,
                      iv: seq<byte>, data: seq<byte>, n: nat)
    requires forall b :: dec1(enc1(b)) == b
    requires |iv| == AES_XTS_IVSIZE && Whole(|data|, 16) && 16 * n + 16 <= |data|
    ensures ValidXform(XtsXform(enc1, dec1, enc2))
    ensures var xf := XtsXform(enc1, dec1, enc2);
            var c: Block -> Block := if enc then enc1 else dec1;
            var t := Tweak(enc2(iv + [0, 0, 0, 0, 0, 0, 0, 0]), n);
            Run(xf, enc, EncDec.StartChain(xf, key, iv), data).1[16 * n..16 * n + 16]
              == Xor(c(Xor(data[16 * n..16 * n + 16], t)), t)
  {
    BlocksOf(n);
    XtsXformValid(enc1, dec1, enc2);
    AesXtsRun(enc1, dec1, enc2, enc, EncDec.StartChain(XtsXform(enc1, dec1, enc2), key, iv), data, 16 * n);
  }

  // ----- Authentication -----

  function Sha256Fn(): Hmac.HashFn<Sha2Transform.Regs<u32>> {
    Hmac.HashFn(Sha256Alg(), r => Sha2Instances.Octets(Words32(r), 4))
  }

  /** The key filled up with zeros to 64 octets, each octet masked. */
  function Keyed(key: seq<byte>, mask: byte): (r: seq<byte>)
    ensures |r| == 64
  {
    seq(64, i requires 0 <= i < 64 => (if i < |key| then key[i] else 0) ^ mask)
  }

  function Sha256Of(m: seq<byte>): seq<byte> {
    Sha2Instances.Octets(Words32(Hash(Sha256Alg(), m)), 4)
  }

  /** The definition in RFC 2104, for SHA-256 and written out in octets. */
  lemma HmacWrittenOut(key: seq<byte>, text: seq<byte>)
    requires |key| <= 64
    ensures Hmac.HmacOf(Sha256Fn(), key, text)
      == Sha256Of(Keyed(key, 0x5c) + Sha256Of(Keyed(key, 0x36) + text))
  {
    KeyedIsMasked(key, 0x5c);
    KeyedIsMasked(key, 0x36);
  }

  lemma KeyedIsMasked(key: seq<byte>, mask: byte)
    requires |key| <= 64
    ensures Hmac.MaskedKey(Sha256Fn(), key, mask) == Keyed(key, mask)
  {
  }

  /** The whole of what is to be authenticated. */
  function Entire(iov: seq<Iovec>, m: seq<byte>, skip: nat, len: nat, esn: Option<seq<byte>>): seq<byte>
    requires Within(iov, |m|) && skip + len <= Total(iov)
  {
    Flat(iov, m)[skip..skip + len] + (if esn.Some? then esn.value else [])
  }

  /** A session keyed and used: the HMAC-SHA-256 of the slice, exactly if no piece of it is 65536 octets or longer. */
  method HmacSha256(key: array<byte>, m: seq<byte>, iov: seq<Iovec>, skip: nat, len: nat, esn: Option<seq<byte>>)
    returns (r: Outcome, mac: seq<byte>, ghost text: seq<byte>)
    requires key.Length <= 64 && Within(iov, |m|)
    modifies key
    ensures key[..] == old(key[..]) && (r.Done? <==> skip + len <= Total(iov))
    ensures r.Done? ==> |mac| == 32 && mac == Sha256Of(Keyed(key[..], 0x5c) + Sha256Of(Keyed(key[..], 0x36) + text))
    ensures r.Done? ==> (text == Entire(iov, m, skip, len, esn) <==> Hmac.ShortPieces(iov, skip, skip + len))
  {
    text := [];
    var sw := new Hmac.Session(Sha256Fn(), key);
    r, mac := Hmac.AuthCompute(sw, m, iov, skip, len, esn);
    if r.Done? {
      text := Hmac.Text(m, iov, skip, len, esn);
      Hmac.TextIsSlice(m, iov, skip, len, esn);
      DigestLength(text, key[..]);
      HmacWrittenOut(key[..], text);
    }
  }

  lemma DigestLength(text: seq<byte>, key: seq<byte>)
    requires |key| <= 64
    ensures |Hmac.HmacOf(Sha256Fn(), key, text)| == 32
  {
    var h := Sha256Fn();
    var inner := Hmac.Digest(h, Hmac.MaskedKey(h, key, Hmac.HMAC_IPAD_VAL) + text);
    var words := Words32(Hash(h.alg, Hmac.MaskedKey(h, key, Hmac.HMAC_OPAD_VAL) + inner));
    OctetsLength(words, 4);
    Division.TimesIsProduct(4, 8);
  }
}
