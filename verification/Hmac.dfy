/** HMAC sessions of the software crypto engine (crypto/cryptosoft.c, crypto/criov.c, crypto/xform.c). */
module Hmac {
  import opened Bytes
  import opened Iovecs
  import opened Sha2Stream

  const HMAC_IPAD_VAL: byte := 0x36
  const HMAC_OPAD_VAL: byte := 0x5C

  /** A hash function: the streaming part and the serialisation of its result. */
  datatype HashFn<!S> = HashFn(alg: Alg<S>, digest: S -> seq<byte>)

  function Fill(v: byte, n: nat): (r: seq<byte>)
    ensures |r| == n && forall i :: 0 <= i < n ==> r[i] == v
  {
    seq(n, _ => v)
  }

  function Digest<S>(h: HashFn<S>, m: seq<byte>): seq<byte>
    requires ValidAlg(h.alg)
  {
    h.digest(Hash(h.alg, m))
  }

  /** The key, zero-padded to a block, masked with a repeated octet. */
  function MaskedKey<S>(h: HashFn<S>, key: seq<byte>, v: byte): seq<byte>
    requires |key| <= h.alg.block
  {
    Xor(key + Zeros(h.alg.block - |key|), Fill(v, h.alg.block))
  }

  /** Section 2 of RFC 2104: H(K xor opad, H(K xor ipad, text)). */
  function HmacOf<S>(h: HashFn<S>, key: seq<byte>, text: seq<byte>): seq<byte>
    requires ValidAlg(h.alg) && |key| <= h.alg.block
  {
    Digest(h, MaskedKey(h, key, HMAC_OPAD_VAL) + Digest(h, MaskedKey(h, key, HMAC_IPAD_VAL) + text))
  }

  /** One in-place XOR pass over the caller's key. */
  method MaskInPlace(key: array<byte>, v: byte)
    modifies key
    ensures forall i :: 0 <= i < key.Length ==> key[i] == old(key[i]) ^ v
  {
    for k := 0 to key.Length
      invariant forall i :: 0 <= i < key.Length ==> key[i] == if i < k then old(key[i]) ^ v else old(key[i])
    {
      key[k] := key[k] ^ v;
    }
  }

  lemma MasksCompose(x: byte)
    ensures (x ^ HMAC_IPAD_VAL) ^ (HMAC_IPAD_VAL ^ HMAC_OPAD_VAL) == x ^ HMAC_OPAD_VAL
    ensures (x ^ HMAC_OPAD_VAL) ^ HMAC_OPAD_VAL == x
    ensures 0 ^ x == x
  {
  }

  /** The masked key followed by the constant pad is the masked padded key. */
  lemma MaskThenPad<S>(h: HashFn<S>, key: seq<byte>, masked: seq<byte>, v: byte)
    requires |masked| == |key| <= h.alg.block && forall i :: 0 <= i < |key| ==> masked[i] == key[i] ^ v
    ensures masked + Fill(v, h.alg.block - |key|) == MaskedKey(h, key, v)
  {
    var r := MaskedKey(h, key, v);
    forall i | |key| <= i < h.alg.block ensures r[i] == v {
      MasksCompose(v);
    }
  }

  class Session<S(!new)> {
    const hash: HashFn<S>
    const ictx: Context<S>
    const octx: Context<S>
    ghost const key: seq<byte>

    /** The cached contexts have absorbed exactly the two masked keys. */
    ghost predicate Valid()
      reads this, ictx, octx, ictx.buffer, octx.buffer
    {
      && ictx != octx && ictx.buffer != octx.buffer
      && ictx.Valid() && octx.Valid() && ictx.alg == octx.alg == hash.alg
      && |key| <= hash.alg.block
      && ictx.absorbed == MaskedKey(hash, key, HMAC_IPAD_VAL)
      && octx.absorbed == MaskedKey(hash, key, HMAC_OPAD_VAL)
    }

    /** The HMAC branch of `swcr_newsession`: three passes over the key, which come out as none. */
    constructor (h: HashFn<S>, k: array<byte>)
      requires ValidAlg(h.alg) && k.Length <= h.alg.block
      modifies k
      ensures Valid() && hash == h && key == old(k[..])
      ensures fresh(ictx) && fresh(octx) && fresh(ictx.buffer) && fresh(octx.buffer)
      ensures k[..] == old(k[..])
    {
      ghost var key0 := k[..];
      MaskInPlace(k, HMAC_IPAD_VAL);
      var inner := PaddedContext(h, k[..], HMAC_IPAD_VAL, key0);
      MaskInPlace(k, HMAC_IPAD_VAL ^ HMAC_OPAD_VAL);
      forall i | 0 <= i < k.Length ensures k[i] == key0[i] ^ HMAC_OPAD_VAL {
        MasksCompose(key0[i]);
      }
      var outer := PaddedContext(h, k[..], HMAC_OPAD_VAL, key0);
      MaskInPlace(k, HMAC_OPAD_VAL);
      forall i | 0 <= i < k.Length ensures k[i] == key0[i] {
        MasksCompose(key0[i]);
      }
      hash, ictx, octx, key := h, inner, outer, key0;
    }
  }

  /** A context that has absorbed the masked key and the constant pad. */
  method PaddedContext<S(!new)>(h: HashFn<S>, masked: seq<byte>, v: byte, ghost key: seq<byte>) returns (c: Context<S>)
    requires ValidAlg(h.alg) && |masked| == |key| <= h.alg.block
    requires forall i :: 0 <= i < |key| ==> masked[i] == key[i] ^ v
    ensures fresh(c) && fresh(c.buffer) && c.Valid() && c.alg == h.alg && c.absorbed == MaskedKey(h, key, v)
  {
    c := new Context(h.alg);
    c.Update(masked);
    c.Update(Fill(v, h.alg.block - |masked|));
    MaskThenPad(h, key, masked, v);
  }

  // ----- Feeding a scatter/gather buffer -----

  /** What a `u_int16_t` length argument keeps of a piece (crypto/xform.c: the `*Update_int` wrappers). */
  const LIMIT := 65536

  function Kept(p: seq<byte>): seq<byte> {
    p[..|p| % LIMIT]
  }

  /** The flat range of iovec `i` that lies in `off..hi`. */
  function Cut(iov: seq<Iovec>, i: nat, off: nat, hi: nat): (c: (nat, nat))
    requires i < |iov| && off <= hi <= Total(iov)
    ensures c.0 <= c.1 <= Total(iov)
  {
    StartMonotone(iov, i + 1, |iov|);
    var a, b := if Start(iov, i) < off then off else Start(iov, i), Min(Start(iov, i + 1), hi);
    if a <= b then (a, b) else (b, b)
  }

  function CutPiece(flat: seq<byte>, iov: seq<Iovec>, i: nat, off: nat, hi: nat): seq<byte>
    requires i < |iov| && off <= hi <= Total(iov) == |flat|
  {
    var (a, b) := Cut(iov, i, off, hi);
    flat[a..b]
  }

  /** The octets of `off..hi` that reach the hash from the first `n` iovecs. */
  function Fed(flat: seq<byte>, iov: seq<Iovec>, off: nat, hi: nat, n: nat): seq<byte>
    requires n <= |iov| && off <= hi <= Total(iov) == |flat|
  {
    if n == 0 then [] else Fed(flat, iov, off, hi, n - 1) + Kept(CutPiece(flat, iov, n - 1, off, hi))
  }

  /** `fed` is what reaches the hash from the first `n` iovecs, if the range is inside them at all. */
  predicate IsFed(flat: seq<byte>, iov: seq<Iovec>, off: nat, hi: nat, n: nat, fed: seq<byte>) {
    n <= |iov| && off <= hi && Total(iov) == |flat| && (hi <= |flat| ==> fed == Fed(flat, iov, off, hi, n))
  }

  /** No piece of the range is too long for the length argument. */
  predicate ShortPieces(iov: seq<Iovec>, off: nat, hi: nat)
    requires off <= hi <= Total(iov)
  {
    forall i :: 0 <= i < |iov| ==> Cut(iov, i, off, hi).1 - Cut(iov, i, off, hi).0 < LIMIT
  }

  lemma KeptLength(p: seq<byte>)
    ensures |Kept(p)| <= |p|
    ensures |p| < LIMIT <==> |Kept(p)| == |p|
    ensures |p| < LIMIT ==> Kept(p) == p
  {
  }

  /** How much of `off..hi` the first `n` iovecs hold. */
  function Covered(iov: seq<Iovec>, off: nat, hi: nat, n: nat): nat
    requires n <= |iov| && off <= hi <= Total(iov)
  {
    if Start(iov, n) <= off then 0 else Min(Start(iov, n), hi) - off
  }

  lemma CutExtends(iov: seq<Iovec>, off: nat, hi: nat, n: nat)
    requires 0 < n <= |iov| && off <= hi <= Total(iov)
    ensures var (a, b) := Cut(iov, n - 1, off, hi);
            && Covered(iov, off, hi, n) == Covered(iov, off, hi, n - 1) + (b - a)
            && (a < b ==> a == off + Covered(iov, off, hi, n - 1))
  {
    StartMonotone(iov, n, |iov|);
  }

  /** `s` is the slice of `n` octets from `off` on. */
  predicate IsSlice(flat: seq<byte>, off: nat, n: nat, s: seq<byte>) {
    off + n <= |flat| && s == flat[off..off + n]
  }

  /** Short pieces reach the hash unchanged. */
  lemma {:induction false} FedShort(flat: seq<byte>, iov: seq<Iovec>, off: nat, hi: nat, n: nat)
    requires n <= |iov| && off <= hi <= Total(iov) == |flat| && ShortPieces(iov, off, hi)
    ensures IsSlice(flat, off, Covered(iov, off, hi, n), Fed(flat, iov, off, hi, n))
  {
    if n == 0 {
    } else {
      FedShort(flat, iov, off, hi, n - 1);
      FedShortStep(flat, iov, off, hi, n, Covered(iov, off, hi, n - 1), Fed(flat, iov, off, hi, n - 1));
    }
  }

  lemma FedShortStep(flat: seq<byte>, iov: seq<Iovec>, off: nat, hi: nat, n: nat, had: nat, fed: seq<byte>)
    requires 0 < n <= |iov| && off <= hi <= Total(iov) == |flat| && ShortPieces(iov, off, hi)
    requires had == Covered(iov, off, hi, n - 1) && fed == Fed(flat, iov, off, hi, n - 1)
    requires IsSlice(flat, off, had, fed)
    ensures IsSlice(flat, off, Covered(iov, off, hi, n), Fed(flat, iov, off, hi, n))
  {
    CutExtends(iov, off, hi, n);
    var (a, b) := Cut(iov, n - 1, off, hi);
    FedStep(flat, iov, off, hi, n, a, b);
    Joins(flat, off, had, fed, a, b);
  }

  lemma FedStep(flat: seq<byte>, iov: seq<Iovec>, off: nat, hi: nat, n: nat, a: nat, b: nat)
    requires 0 < n <= |iov| && off <= hi <= Total(iov) == |flat| && (a, b) == Cut(iov, n - 1, off, hi) && b - a < LIMIT
    ensures Fed(flat, iov, off, hi, n) == Fed(flat, iov, off, hi, n - 1) + flat[a..b]
  {
    KeptLength(flat[a..b]);
  }

  lemma Joins(flat: seq<byte>, off: nat, had: nat, s: seq<byte>, a: nat, b: nat)
    requires a <= b <= |flat| && IsSlice(flat, off, had, s) && (a < b ==> a == off + had)
    ensures IsSlice(flat, off, had + (b - a), s + flat[a..b])
  {
  }

  lemma FedGrows(flat: seq<byte>, iov: seq<Iovec>, off: nat, hi: nat, n: nat)
    requires 0 < n <= |iov| && off <= hi <= Total(iov) == |flat|
    ensures var (a, b) := Cut(iov, n - 1, off, hi);
      && |Fed(flat, iov, off, hi, n)| <= |Fed(flat, iov, off, hi, n - 1)| + (b - a)
      && (b - a >= LIMIT ==> |Fed(flat, iov, off, hi, n)| < |Fed(flat, iov, off, hi, n - 1)| + (b - a))
  {
    KeptLength(CutPiece(flat, iov, n - 1, off, hi));
  }

  lemma {:induction false} FedAtMost(flat: seq<byte>, iov: seq<Iovec>, off: nat, hi: nat, n: nat)
    requires n <= |iov| && off <= hi <= Total(iov) == |flat|
    ensures |Fed(flat, iov, off, hi, n)| <= Covered(iov, off, hi, n)
  {
    if n == 0 {
    } else {
      FedAtMost(flat, iov, off, hi, n - 1);
      var (a, b) := Cut(iov, n - 1, off, hi);
      CoveredGrows(iov, off, hi, n, b - a);
      FedGrows(flat, iov, off, hi, n);
    }
  }

  lemma CoveredGrows(iov: seq<Iovec>, off: nat, hi: nat, n: nat, d: nat)
    requires 0 < n <= |iov| && off <= hi <= Total(iov) && d == Cut(iov, n - 1, off, hi).1 - Cut(iov, n - 1, off, hi).0
    ensures Covered(iov, off, hi, n) == Covered(iov, off, hi, n - 1) + d
  {
    CutExtends(iov, off, hi, n);
  }

  /** A long piece always loses octets. */
  lemma {:induction false} FedLength(flat: seq<byte>, iov: seq<Iovec>, off: nat, hi: nat, n: nat, i: nat)
    requires i < n <= |iov| && off <= hi <= Total(iov) == |flat|
    requires Cut(iov, i, off, hi).1 - Cut(iov, i, off, hi).0 >= LIMIT
    ensures |Fed(flat, iov, off, hi, n)| < Covered(iov, off, hi, n)
  {
    var (a, b) := Cut(iov, n - 1, off, hi);
    CoveredGrows(iov, off, hi, n, b - a);
    FedGrows(flat, iov, off, hi, n);
    if i == n - 1 {
      FedAtMost(flat, iov, off, hi, n - 1);
    } else {
      FedLength(flat, iov, off, hi, n - 1, i);
    }
  }

  /** The slice reaches the hash whole if and only if every piece is shorter than 65536 octets. */
  lemma FedWholeIff(flat: seq<byte>, iov: seq<Iovec>, off: nat, hi: nat)
    requires off <= hi <= Total(iov) == |flat|
    ensures Fed(flat, iov, off, hi, |iov|) == flat[off..hi] <==> ShortPieces(iov, off, hi)
  {
    if ShortPieces(iov, off, hi) {
      FedShort(flat, iov, off, hi, |iov|);
    } else {
      var i :| 0 <= i < |iov| && Cut(iov, i, off, hi).1 - Cut(iov, i, off, hi).0 >= LIMIT;
      FedLength(flat, iov, off, hi, |iov|, i);
    }
  }

  /** One iovec of 65536 octets: none of them reaches the hash. */
  lemma LongPieceLost(m: seq<byte>)
    requires |m| == 65536
    ensures var iov := [Iovec(0, 65536)];
      Within(iov, |m|) && Total(iov) == 65536 && |Flat(iov, m)| == 65536 && Fed(Flat(iov, m), iov, 0, 65536, 1) == []
  {
    var iov := [Iovec(0, 65536)];
    assert Start(iov, 0) == 0 && Start(iov, 1) == 65536;
    assert Cut(iov, 0, 0, 65536) == (0, 65536);
    assert Fed(Flat(iov, m), iov, 0, 65536, 0) == [];
    assert Kept(CutPiece(Flat(iov, m), iov, 0, 0, 65536)) == [];
  }

  /** Iovecs that end before the range, or start behind it, contribute nothing. */
  lemma {:induction false} FedSkips(flat: seq<byte>, iov: seq<Iovec>, off: nat, hi: nat, i: nat, n: nat)
    requires i <= n <= |iov| && off <= hi <= Total(iov) == |flat|
    requires Start(iov, n) <= off || hi <= Start(iov, i) || off == hi
    ensures Fed(flat, iov, off, hi, n) == Fed(flat, iov, off, hi, i)
  {
    if i == n {
    } else {
      StartMonotone(iov, i, n - 1);
      FedSkips(flat, iov, off, hi, i, n - 1);
      FedSkipsOne(flat, iov, off, hi, n);
    }
  }

  lemma FedSkipsOne(flat: seq<byte>, iov: seq<Iovec>, off: nat, hi: nat, n: nat)
    requires 0 < n <= |iov| && off <= hi <= Total(iov) == |flat|
    requires Start(iov, n) <= off || hi <= Start(iov, n - 1) || off == hi
    ensures Fed(flat, iov, off, hi, n) == Fed(flat, iov, off, hi, n - 1)
  {
    assert CutPiece(flat, iov, n - 1, off, hi) == [];
  }

  lemma FedNothing(flat: seq<byte>, iov: seq<Iovec>, off: nat, hi: nat, n: nat)
    requires n <= |iov| && off <= hi <= Total(iov) == |flat| && Start(iov, n) <= off
    ensures Fed(flat, iov, off, hi, n) == []
  {
    FedSkips(flat, iov, off, hi, 0, n);
  }

  lemma FedAll(flat: seq<byte>, iov: seq<Iovec>, off: nat, hi: nat, i: nat, fed: seq<byte>)
    requires i <= |iov| && off <= hi <= Total(iov) == |flat| && fed == Fed(flat, iov, off, hi, i)
    requires hi <= Start(iov, i) || off == hi
    ensures fed == Fed(flat, iov, off, hi, |iov|)
  {
    FedSkips(flat, iov, off, hi, i, |iov|);
  }

  /** Feed the part of iovec `ind` from offset `o` on. */
  method FeedPiece<S(!new)>(m: seq<byte>, iov: seq<Iovec>, ind: nat, o: nat, count: nat, ctx: Context<S>, ghost lo: nat)
    returns (ghost kept: seq<byte>)
    requires Within(iov, |m|) && ctx.Valid() && ind < |iov| && o + count <= iov[ind].len && lo == Start(iov, ind) + o
    modifies ctx, ctx.buffer
    ensures ctx.Valid() && ctx.absorbed == old(ctx.absorbed) + kept
    ensures lo + count <= Total(iov) && kept == Kept(Flat(iov, m)[lo..lo + count])
  {
    var base := iov[ind].base + o;
    ReadInside(iov, m, ind, o, count);
    kept := Kept(m[base..base + count]);
    ctx.Update(Kept(m[base..base + count]));
  }

  /** The piece from `lo` on, up to the end of iovec `ind` or of the range, comes next. */
  lemma IsFedMore(flat: seq<byte>, iov: seq<Iovec>, off: nat, hi: nat, ind: nat, lo: nat, count: nat, fed: seq<byte>)
    requires ind < |iov| && IsFed(flat, iov, off, hi, ind, fed) && lo + count <= |flat|
    requires lo == if Start(iov, ind) < off then off else Start(iov, ind)
    requires lo + count == Min(Start(iov, ind + 1), hi)
    ensures IsFed(flat, iov, off, hi, ind + 1, fed + Kept(flat[lo..lo + count]))
  {
  }

  /** One pass of the second loop of `cuio_apply`. */
  method FeedStep<S(!new)>(m: seq<byte>, iov: seq<Iovec>, ind: nat, o: nat, left: nat, ctx: Context<S>,
                           ghost flat: seq<byte>, ghost off: nat, ghost hi: nat,
                           ghost base: seq<byte>, ghost fed: seq<byte>)
    returns (count: nat, ghost fed': seq<byte>)
    requires Within(iov, |m|) && ctx.Valid() && ind < |iov| && o <= iov[ind].len && flat == Flat(iov, m)
    requires Start(iov, ind) + o == hi - left && off <= hi - left && (o > 0 ==> hi - left == off)
    requires ctx.absorbed == base + fed && IsFed(flat, iov, off, hi, ind, fed)
    modifies ctx, ctx.buffer
    ensures ctx.Valid() && ctx.absorbed == base + fed'
    ensures IsFed(flat, iov, off, hi, ind + 1, fed')
    ensures count == Min(iov[ind].len - o, left) && Start(iov, ind + 1) <= |flat|
  {
    count := Min(iov[ind].len - o, left);
    StartMonotone(iov, ind + 1, |iov|);
    ghost var lo: nat := hi - left;
    ghost var kept := FeedPiece(m, iov, ind, o, count, ctx, lo);
    IsFedMore(flat, iov, off, hi, ind, lo, count, fed);
    Regrouped(base, fed, kept);
    fed' := fed + kept;
  }

  /** The second loop: `len` octets from offset `o0` of iovec `ind0` on, which is flat position `off`. */
  method FeedRest<S(!new)>(m: seq<byte>, iov: seq<Iovec>, ind0: nat, o0: nat, len: nat, ctx: Context<S>,
                           ghost off: nat, ghost hi: nat, ghost flat: seq<byte>)
    returns (panicked: bool, ghost ind: nat, ghost fed: seq<byte>)
    requires Within(iov, |m|) && ctx.Valid() && flat == Flat(iov, m)
    requires ind0 <= |iov| && Start(iov, ind0) + o0 == off <= |flat| && (o0 > 0 ==> ind0 < |iov| && o0 < iov[ind0].len)
    requires hi == off + len && IsFed(flat, iov, off, hi, ind0, [])
    modifies ctx, ctx.buffer
    ensures panicked <==> hi > |flat|
    ensures !panicked ==> ctx.Valid() && ind <= |iov| && (len > 0 ==> hi <= Start(iov, ind))
    ensures !panicked ==> ctx.absorbed == old(ctx.absorbed) + fed && IsFed(flat, iov, off, hi, ind, fed)
  {
    var i: nat, o: nat, left: nat := ind0, o0, len;
    fed := [];
    ghost var base := ctx.absorbed;
    assert base + fed == base;
    while left > 0
      invariant i <= |iov| && left <= len && ctx.Valid()
      invariant left > 0 ==> Start(iov, i) + o == hi - left <= |flat|
      invariant left > 0 && o > 0 ==> i < |iov| && o < iov[i].len && left == len
      invariant left == 0 ==> hi <= |flat| && (len > 0 ==> hi <= Start(iov, i))
      invariant ctx.absorbed == base + fed && IsFed(flat, iov, off, hi, i, fed)
      decreases |iov| - i
    {
      if i == |iov| {
        return true, i, fed;
      }
      var count;
      count, fed := FeedStep(m, iov, i, o, left, ctx, flat, off, hi, base, fed);
      left := left - count;
      o := 0;
      i := i + 1;
    }
    return false, i, fed;
  }

  /** All iovecs, those behind the range included. */
  method FeedFrom<S(!new)>(m: seq<byte>, iov: seq<Iovec>, ind: nat, o: nat, len: nat, ctx: Context<S>,
                           ghost off: nat, ghost hi: nat, ghost flat: seq<byte>)
    returns (panicked: bool, ghost fed: seq<byte>)
    requires Within(iov, |m|) && ctx.Valid() && flat == Flat(iov, m)
    requires ind <= |iov| && Start(iov, ind) + o == off <= |flat| && (o > 0 ==> ind < |iov| && o < iov[ind].len)
    requires hi == off + len
    modifies ctx, ctx.buffer
    ensures panicked <==> hi > |flat|
    ensures !panicked ==> ctx.Valid() && ctx.absorbed == old(ctx.absorbed) + fed
    ensures !panicked ==> fed == Fed(flat, iov, off, hi, |iov|)
  {
    if hi <= |flat| {
      FedNothing(flat, iov, off, hi, ind);
    }
    ghost var end;
    panicked, end, fed := FeedRest(m, iov, ind, o, len, ctx, off, hi, flat);
    if !panicked {
      FedAll(flat, iov, off, hi, end, fed);
    }
  }

  /** `cuio_apply` with the truncating update as its callback; memory `m` is only read. */
  method ApplyUpdate<S(!new)>(m: seq<byte>, iov: seq<Iovec>, off: nat, len: nat, ctx: Context<S>)
    returns (panicked: bool, ghost fed: seq<byte>)
    requires Within(iov, |m|) && ctx.Valid()
    modifies ctx, ctx.buffer
    ensures panicked <==> off + len > Total(iov)
    ensures !panicked ==> ctx.Valid() && ctx.absorbed == old(ctx.absorbed) + fed
    ensures !panicked ==> fed == Fed(Flat(iov, m), iov, off, off + len, |iov|)
  {
    fed := [];
    var bad, ind: nat, o: nat := Skip(iov, off);
    if bad {
      return true, fed;
    }
    panicked, fed := FeedFrom(m, iov, ind, o, len, ctx, off, off + len, Flat(iov, m));
  }

  /** What the inner hash takes in: the fed octets and the extended sequence number. */
  function Text(m: seq<byte>, iov: seq<Iovec>, skip: nat, len: nat, esn: Option<seq<byte>>): seq<byte>
    requires Within(iov, |m|) && skip + len <= Total(iov)
  {
    Fed(Flat(iov, m), iov, skip, skip + len, |iov|) + (if esn.Some? then esn.value else [])
  }

  /** The inner hash, from a copy of the cached context. */
  method InnerHash<S(!new)>(sw: Session<S>, m: seq<byte>, iov: seq<Iovec>, skip: nat, len: nat, esn: Option<seq<byte>>)
    returns (panicked: bool, digest: seq<byte>)
    requires sw.Valid() && Within(iov, |m|)
    ensures panicked <==> skip + len > Total(iov)
    ensures !panicked ==>
      digest == Digest(sw.hash, MaskedKey(sw.hash, sw.key, HMAC_IPAD_VAL) + Text(m, iov, skip, len, esn))
  {
    digest := [];
    var ctx := sw.ictx.Copy();
    ghost var fed;
    panicked, fed := ApplyUpdate(m, iov, skip, len, ctx);
    if panicked {
      return;
    }
    if esn.Some? {
      Regrouped(sw.ictx.absorbed, fed, esn.value);
      ctx.Update(esn.value);
    } else {
      assert fed + [] == fed;
    }
    var h := ctx.Final();
    digest := sw.hash.digest(h);
  }

  /** The outer hash, from a copy of the cached context. */
  method OuterHash<S(!new)>(sw: Session<S>, inner: seq<byte>) returns (mac: seq<byte>)
    requires sw.Valid()
    ensures mac == Digest(sw.hash, MaskedKey(sw.hash, sw.key, HMAC_OPAD_VAL) + inner)
  {
    var ctx := sw.octx.Copy();
    ctx.Update(inner);
    var h := ctx.Final();
    mac := sw.hash.digest(h);
  }

  /** `swcr_authcompute` for the HMAC algorithms on a uio buffer. */
  method AuthCompute<S(!new)>(sw: Session<S>, m: seq<byte>, iov: seq<Iovec>, skip: nat, len: nat,
                              esn: Option<seq<byte>>)
    returns (r: Outcome, mac: seq<byte>)
    requires sw.Valid() && Within(iov, |m|)
    ensures r.Done? <==> skip + len <= Total(iov)
    ensures r.Done? ==> mac == HmacOf(sw.hash, sw.key, Text(m, iov, skip, len, esn))
  {
    var panicked, inner := InnerHash(sw, m, iov, skip, len, esn);
    if panicked {
      return Panic, [];
    }
    mac := OuterHash(sw, inner);
    r := Done;
  }

  /** When every piece is short, and only then, that is the HMAC of the whole slice and the sequence number. */
  lemma TextIsSlice(m: seq<byte>, iov: seq<Iovec>, skip: nat, len: nat, esn: Option<seq<byte>>)
    requires Within(iov, |m|) && skip + len <= Total(iov)
    ensures Text(m, iov, skip, len, esn) == Flat(iov, m)[skip..skip + len] + (if esn.Some? then esn.value else [])
      <==> ShortPieces(iov, skip, skip + len)
  {
    var fed, slice, tail := Fed(Flat(iov, m), iov, skip, skip + len, |iov|), Flat(iov, m)[skip..skip + len],
      if esn.Some? then esn.value else [];
    FedWholeIff(Flat(iov, m), iov, skip, skip + len);
    SuffixCancels(fed, slice, tail);
  }

  lemma SuffixCancels(a: seq<byte>, b: seq<byte>, c: seq<byte>)
    ensures a + c == b + c <==> a == b
  {
    if a + c == b + c {
      assert |a| == |b|;
      assert a == (a + c)[..|a|] && b == (b + c)[..|b|];
    }
  }
}
