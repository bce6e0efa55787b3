/**
 * Requests that keep the IV in the buffer (crypto/cryptosoft.c): encryption writes the IV it used to its place,
 * decryption reads it back from there. Carried to another buffer together with the data, that is all it takes.
 */
module StoredIv {
  import opened Bytes
  import opened Iovecs
  import opened Modes
  import opened EncDec

  /** From key state `ctx` with IV `iv`, the mode takes `data` to `out` and ends in `t`. */
  ghost predicate Took<Ctx(!new)>(xf: Xform<Ctx>, enc: bool, ctx: Ctx, iv: seq<byte>, data: seq<byte>,
                                  t: Chain<Ctx>, out: seq<byte>) {
    && ValidXform(xf) && |iv| == xf.ivsize && Whole(|data|, xf.blocksize)
    && Run(xf, enc, StartChain(xf, ctx, iv), data) == (t, out)
  }

  lemma TookPart<Ctx(!new)>(xf: Xform<Ctx>, enc: bool, ctx: Ctx, iv: seq<byte>, iov: seq<Iovec>, m: seq<byte>,
                            skip: nat, len: nat, data: seq<byte>, t: Chain<Ctx>, out: seq<byte>)
    requires ValidXform(xf) && |iv| == xf.ivsize && Whole(len, xf.blocksize)
    requires Within(iov, |m|) && skip + len <= Total(iov) && data == Part(iov, m, skip, len)
    requires Run(xf, enc, StartChain(xf, ctx, iv), Flat(iov, m)[skip..skip + len]) == (t, out)
    ensures Took(xf, enc, ctx, iv, data, t, out)
  {
  }

  lemma TookBack<Ctx(!new)>(xf: Xform<Ctx>, ctx: Ctx, iv: seq<byte>, data: seq<byte>, t: Chain<Ctx>, out: seq<byte>,
                            t': Chain<Ctx>, back: seq<byte>)
    requires ValidXform(xf) && Inverts(xf) && KeyStateRecovers(xf)
    requires Took(xf, true, ctx, iv, data, t, out) && Took(xf, false, t.ctx, iv, out, t', back)
    ensures back == data
  {
    StateRecovers(xf, ctx, iv, data);
    RunInverts(xf, StartChain(xf, ctx, iv), data);
  }

  /** Stored one after the other, both are there, and the second went over untouched octets. */
  lemma BothStored(iov: seq<Iovec>, m0: seq<byte>, m1: seq<byte>, m2: seq<byte>,
                   inject: nat, iv: seq<byte>, skip: nat, out: seq<byte>)
    requires Within(iov, |m0|) && |m1| == |m0| && Disjoint(inject, |iv|, skip, |out|)
    requires Patched(iov, m0, m1, inject, iv) && Patched(iov, m1, m2, skip, out)
    ensures |m2| == |m0| && inject + |iv| <= Total(iov) && skip + |out| <= Total(iov)
    ensures Part(iov, m2, inject, |iv|) == iv && Part(iov, m2, skip, |out|) == out
    ensures Part(iov, m1, skip, |out|) == Part(iov, m0, skip, |out|)
  {
    PatchedHere(iov, m0, m1, inject, iv);
    PatchedHere(iov, m1, m2, skip, out);
    PatchedElsewhere(iov, m0, m1, inject, iv, skip, |out|);
    PatchedElsewhere(iov, m1, m2, skip, out, inject, |iv|);
  }

  /** Encrypts with an IV given or drawn, and stores that IV at `inject`. */
  method EncryptStoring<Ctx(!new)>(xf: Xform<Ctx>, sw: Session<Ctx>, explicit: bool, iv: seq<byte>, drawn: seq<byte>,
                                   mem: array<byte>, iov: seq<Iovec>, skip: nat, len: nat, inject: nat)
    returns (r: Outcome, ghost t: Chain<Ctx>, ghost out: seq<byte>)
    requires ValidXform(xf) && |iv| == |drawn| == xf.ivsize && Valid(iov, mem.Length) && iov != []
    requires Disjoint(inject, xf.ivsize, skip, len)
    modifies sw, mem
    ensures r.Done? <==> len % xf.blocksize == 0 && skip + len <= Total(iov) && inject + xf.ivsize <= Total(iov)
    ensures r.Done? ==> Part(iov, mem[..], inject, xf.ivsize) == if explicit then iv else drawn
    ensures r.Done? ==> Part(iov, mem[..], skip, len) == out && sw.kschedule == t.ctx
    ensures r.Done? ==>
      Took(xf, true, old(sw.kschedule), if explicit then iv else drawn, Part(iov, old(mem[..]), skip, len), t, out)
  {
    ghost var m0, ctx, used, m1 := mem[..], sw.kschedule, [], [];
    var req := Request(skip, len, inject, true, explicit, false, iv);
    assert Wanted(req) == len && TouchesIv(req) && iv[..xf.ivsize] == iv;
    r, used, m1, t, out := SwcrEncDec(xf, sw, req, drawn, mem, iov);
    if r.Done? {
      BothStored(iov, m0, m1, mem[..], inject, used, skip, out);
      TookPart(xf, true, ctx, used, iov, m1, skip, len, Part(iov, m0, skip, len), t, out);
    }
  }

  /** Decrypts with the IV found at `inject`. */
  method DecryptStored<Ctx(!new)>(xf: Xform<Ctx>, sw: Session<Ctx>, present: bool, drawn: seq<byte>,
                                  mem: array<byte>, iov: seq<Iovec>, skip: nat, len: nat, inject: nat)
    returns (r: Outcome, ghost t: Chain<Ctx>, ghost out: seq<byte>)
    requires ValidXform(xf) && |drawn| == xf.ivsize && Valid(iov, mem.Length) && iov != []
    modifies sw, mem
    ensures r.Done? <==> len % xf.blocksize == 0 && skip + len <= Total(iov) && inject + xf.ivsize <= Total(iov)
    ensures r.Done? ==> Part(iov, mem[..], skip, len) == out && sw.kschedule == t.ctx
    ensures r.Done? ==>
      Took(xf, false, old(sw.kschedule), Part(iov, old(mem[..]), inject, xf.ivsize), Part(iov, old(mem[..]), skip, len),
           t, out)
  {
    ghost var used, m1 := [], [];
    var req := Request(skip, len, inject, false, false, present, []);
    assert Wanted(req) == len && TouchesIv(req);
    r, used, m1, t, out := SwcrEncDec(xf, sw, req, drawn, mem, iov);
    if r.Done? {
      PatchedHere(iov, m1, mem[..], skip, out);
    }
  }

  /** Carries IV and data over to another buffer. */
  method CarryBoth(memA: array<byte>, iovA: seq<Iovec>, skipA: nat, injectA: nat,
                   memB: array<byte>, iovB: seq<Iovec>, skipB: nat, injectB: nat, ivlen: nat, len: nat)
    returns (panicked: bool)
    requires Valid(iovA, memA.Length) && Valid(iovB, memB.Length) && memA != memB
    requires skipA + len <= Total(iovA) && injectA + ivlen <= Total(iovA) && Disjoint(injectB, ivlen, skipB, len)
    modifies memB
    ensures panicked <==> skipB + len > Total(iovB) || injectB + ivlen > Total(iovB)
    ensures !panicked ==> Part(iovB, memB[..], injectB, ivlen) == Part(iovA, memA[..], injectA, ivlen)
    ensures !panicked ==> Part(iovB, memB[..], skipB, len) == Part(iovA, memA[..], skipA, len)
  {
    ghost var b0 := memB[..];
    panicked := Carry(memA, iovA, injectA, memB, iovB, injectB, ivlen);
    if panicked {
      return;
    }
    ghost var b1, iv, data := memB[..], Part(iovA, memA[..], injectA, ivlen), Part(iovA, memA[..], skipA, len);
    panicked := Carry(memA, iovA, skipA, memB, iovB, skipB, len);
    if !panicked {
      BothStored(iovB, b0, b1, memB[..], injectB, iv, skipB, data);
    }
  }

  /**
   * End to end with a stored IV: encrypt, carry IV and data to a buffer split up differently, decrypt with the IV
   * found there. The plaintext is back, whichever IV was given or drawn.
   */
  method EncryptCarryDecryptStored<Ctx(!new)>(
      xf: Xform<Ctx>, sw: Session<Ctx>, explicit: bool, iv: seq<byte>, drawn: seq<byte>, again: seq<byte>, len: nat,
      memA: array<byte>, iovA: seq<Iovec>, skipA: nat, injectA: nat,
      memB: array<byte>, iovB: seq<Iovec>, skipB: nat, injectB: nat)
    returns (r: Outcome)
    requires ValidXform(xf) && Inverts(xf) && KeyStateRecovers(xf) && |iv| == |drawn| == |again| == xf.ivsize
    requires Valid(iovA, memA.Length) && Valid(iovB, memB.Length) && memA != memB && iovA != [] && iovB != []
    requires Disjoint(injectA, xf.ivsize, skipA, len) && Disjoint(injectB, xf.ivsize, skipB, len)
    modifies sw, memA, memB
    ensures r.Done? <==>
      && len % xf.blocksize == 0 && skipA + len <= Total(iovA) && skipB + len <= Total(iovB)
      && injectA + xf.ivsize <= Total(iovA) && injectB + xf.ivsize <= Total(iovB)
    ensures r.Done? ==> Part(iovB, memB[..], skipB, len) == Part(iovA, old(memA[..]), skipA, len)
  {
    ghost var data, ctx, used := [], sw.kschedule, if explicit then iv else drawn;
    ghost var t, out, t', back;
    ghost var a0 := memA[..];
    r, t, out := EncryptStoring(xf, sw, explicit, iv, drawn, memA, iovA, skipA, len, injectA);
    if !r.Done? {
      return;
    }
    data := Part(iovA, a0, skipA, len);
    var panicked := CarryBoth(memA, iovA, skipA, injectA, memB, iovB, skipB, injectB, xf.ivsize, len);
    if panicked {
      return Panic;
    }
    r, t', back := DecryptStored(xf, sw, false, again, memB, iovB, skipB, len, injectB);
    TookBack(xf, ctx, used, data, t, out, t', back);
  }
}
