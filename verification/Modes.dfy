/**
 Block cipher modes as `swcr_encdec` runs them (crypto/cryptosoft.c), stated on
 flat octet strings. An xform either keeps its own chaining state (it has a
 `reinit`) or is chained by the engine in CBC.
 */
module Modes {
  import opened Bytes

  /** `struct enc_xform`: the key schedule is a value of type `Ctx` that a call may update. */
  datatype Xform<!Ctx> = Xform(
    blocksize: nat,
    ivsize: nat,
    encrypt: (Ctx, seq<byte>) -> (Ctx, seq<byte>),
    decrypt: (Ctx, seq<byte>) -> (Ctx, seq<byte>),
    reinit: Option<(Ctx, seq<byte>) -> Ctx>)

  const EALG_MAX_BLOCK_LEN := 16

  ghost predicate Lawful<Ctx(!new)>(xf: Xform<Ctx>) {
    && 0 < xf.blocksize <= EALG_MAX_BLOCK_LEN && xf.ivsize <= EALG_MAX_BLOCK_LEN
    && (xf.reinit.None? ==> xf.ivsize == xf.blocksize)
    && (forall c, b :: |b| == xf.blocksize ==> |xf.encrypt(c, b).1| == xf.blocksize)
    && (forall c, b :: |b| == xf.blocksize ==> |xf.decrypt(c, b).1| == xf.blocksize)
  }

  /** All of them, as a set: a proof that hands one on need not look into it. */
  ghost function LawfulXforms<Ctx(!new)>(): iset<Xform<Ctx>> {
    iset xf: Xform<Ctx> | Lawful(xf)
  }

  ghost predicate ValidXform<Ctx(!new)>(xf: Xform<Ctx>) {
    xf in LawfulXforms()
  }

  /** From the same key state, `decrypt` undoes `encrypt` and leaves the same next state. */
  ghost predicate Inverts<Ctx(!new)>(xf: Xform<Ctx>) {
    forall c, b :: |b| == xf.blocksize ==>
      xf.decrypt(c, xf.encrypt(c, b).1) == (xf.encrypt(c, b).0, b)
  }

  /**
   A later request with the same IV starts from the same key state: `reinit`
   forgets what earlier blocks and earlier IVs did to it, and without a `reinit`
   blocks do not touch it.
   */
  ghost predicate KeyStateRecovers<Ctx(!new)>(xf: Xform<Ctx>) {
    match xf.reinit
    case Some(reinit) =>
      && (forall c, b, iv {:trigger reinit(xf.encrypt(c, b).0, iv)} ::
            |b| == xf.blocksize && |iv| == xf.ivsize ==> reinit(xf.encrypt(c, b).0, iv) == reinit(c, iv))
      && (forall c, iv, iv' {:trigger reinit(reinit(c, iv'), iv)} ::
            |iv| == xf.ivsize && |iv'| == xf.ivsize ==> reinit(reinit(c, iv'), iv) == reinit(c, iv))
    case None =>
      && (forall c, b {:trigger xf.encrypt(c, b)} :: |b| == xf.blocksize ==> xf.encrypt(c, b).0 == c)
      && (forall c, b {:trigger xf.decrypt(c, b)} :: |b| == xf.blocksize ==> xf.decrypt(c, b).0 == c)
  }

  /** What is carried from one block to the next. */
  datatype Chain<Ctx> = Chain(ctx: Ctx, prev: seq<byte>)

  predicate ChainOk<Ctx>(xf: Xform<Ctx>, s: Chain<Ctx>) {
    xf.reinit.None? ==> |s.prev| == xf.blocksize
  }

  /** One block through the mode. */
  ghost function Step<Ctx(!new)>(xf: Xform<Ctx>, enc: bool, s: Chain<Ctx>, b: seq<byte>): (r: (Chain<Ctx>, seq<byte>))
    requires ValidXform(xf) && ChainOk(xf, s) && |b| == xf.blocksize
    ensures ChainOk(xf, r.0) && |r.1| == xf.blocksize
  {
    if xf.reinit.Some? then
      var (c, o) := if enc then xf.encrypt(s.ctx, b) else xf.decrypt(s.ctx, b);
      (Chain(c, s.prev), o)
    else if enc then
      var (c, o) := xf.encrypt(s.ctx, Xor(b, s.prev));
      (Chain(c, o), o)
    else
      var (c, o) := xf.decrypt(s.ctx, b);
      (Chain(c, b), Xor(o, s.prev))
  }

  /** A whole number of blocks through the mode, on one flat string. */
  ghost function Run<Ctx(!new)>(xf: Xform<Ctx>, enc: bool, s: Chain<Ctx>, data: seq<byte>): (r: (Chain<Ctx>, seq<byte>))
    requires ValidXform(xf) && ChainOk(xf, s) && Whole(|data|, xf.blocksize)
    ensures ChainOk(xf, r.0) && |r.1| == |data|
    decreases |data|
  {
    if data == [] then (s, [])
    else
      var n := |data| - xf.blocksize;
      var (t, o) := Run(xf, enc, s, data[..n]);
      var (u, c) := Step(xf, enc, t, data[n..]);
      (u, o + c)
  }

  /** Decrypting a whole encrypted string from the same starting state restores it. */
  lemma {:induction false} RunInverts<Ctx(!new)>(xf: Xform<Ctx>, s: Chain<Ctx>, data: seq<byte>)
    requires ValidXform(xf) && Inverts(xf) && ChainOk(xf, s) && Whole(|data|, xf.blocksize)
    ensures Run(xf, false, s, Run(xf, true, s, data).1) == (Run(xf, true, s, data).0, data)
    decreases |data|
  {
    if data == [] {
    } else {
      var n := |data| - xf.blocksize;
      RunInverts(xf, s, data[..n]);
      var (t, o) := Run(xf, true, s, data[..n]);
      var (u, c) := Step(xf, true, t, data[n..]);
      StepInverts(xf, t, data[n..]);
      assert (o + c)[..n] == o && (o + c)[n..] == c;
      assert data[..n] + data[n..] == data;
    }
  }

  lemma StepInverts<Ctx(!new)>(xf: Xform<Ctx>, s: Chain<Ctx>, b: seq<byte>)
    requires ValidXform(xf) && Inverts(xf) && ChainOk(xf, s) && |b| == xf.blocksize
    ensures Step(xf, false, s, Step(xf, true, s, b).1) == (Step(xf, true, s, b).0, b)
  {
    if xf.reinit.None? {
      XorCancels(b, s.prev);
    }
  }

  /** However much has been encrypted since, `reinit` leads back to the same starting state. */
  lemma {:induction false} ReinitAfterRun<Ctx(!new)>(xf: Xform<Ctx>, s: Chain<Ctx>, data: seq<byte>, iv: seq<byte>)
    requires ValidXform(xf) && KeyStateRecovers(xf) && xf.reinit.Some? && |iv| == xf.ivsize
    requires ChainOk(xf, s) && Whole(|data|, xf.blocksize)
    ensures xf.reinit.value(Run(xf, true, s, data).0.ctx, iv) == xf.reinit.value(s.ctx, iv)
    decreases |data|
  {
    if data == [] {
    } else {
      var n := |data| - xf.blocksize;
      ReinitAfterRun(xf, s, data[..n], iv);
      var t := Run(xf, true, s, data[..n]).0;
      assert xf.reinit.value(xf.encrypt(t.ctx, data[n..]).0, iv) == xf.reinit.value(t.ctx, iv);
    }
  }

  lemma {:induction false} KeyStateKept<Ctx(!new)>(xf: Xform<Ctx>, enc: bool, s: Chain<Ctx>, data: seq<byte>)
    requires ValidXform(xf) && KeyStateRecovers(xf) && xf.reinit.None?
    requires ChainOk(xf, s) && Whole(|data|, xf.blocksize)
    ensures Run(xf, enc, s, data).0.ctx == s.ctx
    decreases |data|
  {
    if data == [] {
    } else {
      KeyStateKept(xf, enc, s, data[..|data| - xf.blocksize]);
    }
  }

  lemma RunLast<Ctx(!new)>(xf: Xform<Ctx>, enc: bool, s: Chain<Ctx>, data: seq<byte>, n: nat)
    requires ValidXform(xf) && ChainOk(xf, s) && Whole(|data|, xf.blocksize) && n + xf.blocksize == |data|
    ensures Run(xf, enc, s, data).1[..n] == Run(xf, enc, s, data[..n]).1
    ensures Run(xf, enc, s, data).1[n..] == Step(xf, enc, Run(xf, enc, s, data[..n]).0, data[n..]).1
  {
  }

  lemma RunLastBlock<Ctx(!new)>(xf: Xform<Ctx>, enc: bool, s: Chain<Ctx>, data: seq<byte>, n: nat, q: nat)
    requires ValidXform(xf) && ChainOk(xf, s) && Whole(|data|, xf.blocksize) && n + xf.blocksize == |data| == q
    ensures Run(xf, enc, s, data).1[n..q] == Step(xf, enc, Run(xf, enc, s, data[..n]).0, data[n..q]).1
  {
    RunLast(xf, enc, s, data, n);
    SliceToEnd(data, n, q);
    SliceToEnd(Run(xf, enc, s, data).1, n, q);
  }

  /** The last block takes no part in what comes before it. */
  lemma RunEarlier<Ctx(!new)>(xf: Xform<Ctx>, enc: bool, s: Chain<Ctx>, data: seq<byte>, n: nat, p: nat, q: nat)
    requires ValidXform(xf) && ChainOk(xf, s) && Whole(|data|, xf.blocksize)
    requires n + xf.blocksize == |data| && p <= q <= n
    ensures data[..n][..p] == data[..p] && data[..n][p..q] == data[p..q]
    ensures Run(xf, enc, s, data).1[..p] == Run(xf, enc, s, data[..n]).1[..p]
    ensures Run(xf, enc, s, data).1[p..q] == Run(xf, enc, s, data[..n]).1[p..q]
  {
    RunLast(xf, enc, s, data, n);
    SliceOfTake(data, n, p, q);
    SliceOfTake(Run(xf, enc, s, data).1, n, p, q);
  }

  /** Running a prefix gives the prefix of the output. */
  lemma {:induction false} RunPrefix<Ctx(!new)>(xf: Xform<Ctx>, enc: bool, s: Chain<Ctx>, data: seq<byte>, p: nat)
    requires ValidXform(xf) && ChainOk(xf, s) && Whole(|data|, xf.blocksize)
    requires p <= |data| && Whole(p, xf.blocksize)
    ensures Run(xf, enc, s, data).1[..p] == Run(xf, enc, s, data[..p]).1
    decreases |data|
  {
    if p == |data| {
      assert data[..p] == data;
    } else {
      var n: nat := |data| - xf.blocksize;
      WholeGap(p, |data|, xf.blocksize);
      RunPrefix(xf, enc, s, data[..n], p);
      RunEarlier(xf, enc, s, data, n, p, p);
    }
  }

  /** The output block at `p` is one step from the state the blocks before it lead to. */
  lemma {:induction false} RunBlock<Ctx(!new)>(xf: Xform<Ctx>, enc: bool, s: Chain<Ctx>, data: seq<byte>, p: nat)
    requires ValidXform(xf) && ChainOk(xf, s) && Whole(|data|, xf.blocksize)
    requires p + xf.blocksize <= |data| && Whole(p, xf.blocksize)
    ensures Run(xf, enc, s, data).1[p..p + xf.blocksize]
      == Step(xf, enc, Run(xf, enc, s, data[..p]).0, data[p..p + xf.blocksize]).1
    decreases |data|
  {
    var n: nat, q: nat := |data| - xf.blocksize, p + xf.blocksize;
    if p == n {
      RunLastBlock(xf, enc, s, data, p, q);
    } else {
      WholeGap(p, n, xf.blocksize);
      RunBlock(xf, enc, s, data[..n], p);
      RunEarlier(xf, enc, s, data, n, p, q);
    }
  }

  function BlockCount(n: nat, b: nat): nat
    requires b > 0 && Whole(n, b)
  {
    if n == 0 then 0 else BlockCount(n - b, b) + 1
  }

  function Iterate<Ctx>(next: Ctx -> Ctx, c: Ctx, n: nat): Ctx {
    if n == 0 then c else next(Iterate(next, c, n - 1))
  }

  /** Every block moves the key state by `next`, whatever the data. */
  ghost predicate MovesBy<Ctx(!new)>(xf: Xform<Ctx>, next: Ctx -> Ctx) {
    && (forall c, b :: |b| == xf.blocksize ==> xf.encrypt(c, b).0 == next(c))
    && (forall c, b :: |b| == xf.blocksize ==> xf.decrypt(c, b).0 == next(c))
  }

  lemma StepMoves<Ctx(!new)>(xf: Xform<Ctx>, enc: bool, s: Chain<Ctx>, b: seq<byte>, next: Ctx -> Ctx)
    requires ValidXform(xf) && xf.reinit.Some? && |b| == xf.blocksize && MovesBy(xf, next)
    ensures Step(xf, enc, s, b).0.ctx == next(s.ctx)
  {
  }

  lemma {:induction false} OwnState<Ctx(!new)>(xf: Xform<Ctx>, enc: bool, s: Chain<Ctx>, data: seq<byte>,
                                               next: Ctx -> Ctx, n: nat)
    requires ValidXform(xf) && xf.reinit.Some? && Whole(|data|, xf.blocksize) && MovesBy(xf, next)
    requires n == BlockCount(|data|, xf.blocksize)
    ensures Run(xf, enc, s, data).0.ctx == Iterate(next, s.ctx, n)
    decreases |data|
  {
    if data == [] {
    } else {
      var k: nat := |data| - xf.blocksize;
      OwnState(xf, enc, s, data[..k], next, n - 1);
      OwnStateStep(xf, enc, s, data, k, Run(xf, enc, s, data[..k]).0, next);
    }
  }

  lemma OwnStateStep<Ctx(!new)>(xf: Xform<Ctx>, enc: bool, s: Chain<Ctx>, data: seq<byte>, k: nat, t: Chain<Ctx>,
                                next: Ctx -> Ctx)
    requires ValidXform(xf) && xf.reinit.Some? && Whole(|data|, xf.blocksize) && MovesBy(xf, next)
    requires k + xf.blocksize == |data| && t == Run(xf, enc, s, data[..k]).0
    ensures Run(xf, enc, s, data).0.ctx == next(t.ctx)
  {
    StepMoves(xf, enc, t, data[k..], next);
  }

  /** The output block at `p` is the xform applied in the key state that many moves on. */
  lemma OwnStateBlock<Ctx(!new)>(xf: Xform<Ctx>, enc: bool, s: Chain<Ctx>, data: seq<byte>, p: nat, next: Ctx -> Ctx)
    requires ValidXform(xf) && xf.reinit.Some? && Whole(|data|, xf.blocksize) && MovesBy(xf, next)
    requires p + xf.blocksize <= |data| && Whole(p, xf.blocksize)
    ensures var c := Iterate(next, s.ctx, BlockCount(p, xf.blocksize));
            Run(xf, enc, s, data).1[p..p + xf.blocksize]
              == (if enc then xf.encrypt(c, data[p..p + xf.blocksize]) else xf.decrypt(c, data[p..p + xf.blocksize])).1
  {
    RunBlock(xf, enc, s, data, p);
    OwnState(xf, enc, s, data[..p], next, BlockCount(p, xf.blocksize));
  }

  /** In CBC the chaining block is the IV or the last ciphertext block. */
  lemma CbcChain<Ctx(!new)>(xf: Xform<Ctx>, enc: bool, s: Chain<Ctx>, data: seq<byte>)
    requires ValidXform(xf) && xf.reinit.None? && ChainOk(xf, s) && Whole(|data|, xf.blocksize)
    ensures var b, (t, out) := xf.blocksize, Run(xf, enc, s, data);
            t.prev == if data == [] then s.prev else if enc then out[|out| - b..] else data[|data| - b..]
  {
  }

  /** Section 6.2 of NIST SP 800-38A: C(j) = E(P(j) xor C(j-1)), with C(0) = IV. */
  lemma CbcEncryptsBlock<Ctx(!new)>(xf: Xform<Ctx>, s: Chain<Ctx>, data: seq<byte>, p: nat)
    requires ValidXform(xf) && KeyStateRecovers(xf) && xf.reinit.None? && ChainOk(xf, s)
    requires Whole(|data|, xf.blocksize) && p + xf.blocksize <= |data| && Whole(p, xf.blocksize)
    ensures var b, out := xf.blocksize, Run(xf, true, s, data).1;
            out[p..p + b] == xf.encrypt(s.ctx, Xor(data[p..p + b], if p == 0 then s.prev else out[p - b..p])).1
  {
    RunBlock(xf, true, s, data, p);
    KeyStateKept(xf, true, s, data[..p]);
    CbcPrevious(xf, s, data, p);
  }

  lemma CbcPrevious<Ctx(!new)>(xf: Xform<Ctx>, s: Chain<Ctx>, data: seq<byte>, p: nat)
    requires ValidXform(xf) && xf.reinit.None? && ChainOk(xf, s)
    requires Whole(|data|, xf.blocksize) && p + xf.blocksize <= |data| && Whole(p, xf.blocksize)
    ensures Run(xf, true, s, data[..p]).0.prev
      == if p == 0 then s.prev else Run(xf, true, s, data).1[p - xf.blocksize..p]
  {
    RunPrefix(xf, true, s, data, p);
    CbcChain(xf, true, s, data[..p]);
    if p > 0 {
      TakeJoin(Run(xf, true, s, data).1, p - xf.blocksize, p);
    }
  }

  /** Section 6.2 of NIST SP 800-38A: P(j) = D(C(j)) xor C(j-1), with C(0) = IV. */
  lemma CbcDecryptsBlock<Ctx(!new)>(xf: Xform<Ctx>, s: Chain<Ctx>, data: seq<byte>, p: nat)
    requires ValidXform(xf) && KeyStateRecovers(xf) && xf.reinit.None? && ChainOk(xf, s)
    requires Whole(|data|, xf.blocksize) && p + xf.blocksize <= |data| && Whole(p, xf.blocksize)
    ensures var b, out := xf.blocksize, Run(xf, false, s, data).1;
            out[p..p + b] == Xor(xf.decrypt(s.ctx, data[p..p + b]).1, if p == 0 then s.prev else data[p - b..p])
  {
    var t := Run(xf, false, s, data[..p]).0;
    RunBlock(xf, false, s, data, p);
    assert t.ctx == s.ctx by {
      KeyStateKept(xf, false, s, data[..p]);
    }
    assert t.prev == if p == 0 then s.prev else data[p - xf.blocksize..p] by {
      CbcChain(xf, false, s, data[..p]);
      if p > 0 {
        TakeJoin(data, p - xf.blocksize, p);
      }
    }
  }
}
