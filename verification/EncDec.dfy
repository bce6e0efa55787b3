/** The software crypto engine's cipher path over scatter/gather buffers (crypto/cryptosoft.c). */
module EncDec {
  import opened Bytes
  import opened Iovecs
  import opened Modes

  class Session<Ctx> {
    var kschedule: Ctx

    constructor (k: Ctx)
      ensures kschedule == k
    {
      kschedule := k;
    }
  }

  /** `struct cryptodesc`. */
  datatype Request = Request(
    skip: int, len: int, inject: int,
    encrypt: bool, ivExplicit: bool, ivPresent: bool, iv: seq<byte>)

  /** The three buffers `swcr_encdec` keeps on its stack. */
  class Scratch {
    const iv: array<byte>
    const iv2: array<byte>
    const blk: array<byte>

    constructor ()
      ensures fresh(iv) && fresh(iv2) && fresh(blk) && Separate()
    {
      iv := new byte[EALG_MAX_BLOCK_LEN];
      iv2 := new byte[EALG_MAX_BLOCK_LEN];
      blk := new byte[EALG_MAX_BLOCK_LEN];
    }

    predicate Separate() {
      && iv.Length == iv2.Length == blk.Length == EALG_MAX_BLOCK_LEN
      && iv != iv2 && iv != blk && iv2 != blk
    }
  }

  /** The place `p[at..]` holds the chaining block of `s`, where the engine does the chaining. */
  ghost predicate Holds<Ctx>(xf: Xform<Ctx>, sw: Session<Ctx>, s: Chain<Ctx>, p: array<byte>, at: nat)
    reads sw, p
  {
    && sw.kschedule == s.ctx
    && at + xf.blocksize <= p.Length
    && (xf.reinit.None? ==> p[at..at + xf.blocksize] == s.prev)
  }

  /**
   One block at `buf[at..]`, chained through `ivp[ivpAt..]`. Returns the place
   that holds the next chaining block.
   */
  method CryptBlock<Ctx(!new)>(xf: Xform<Ctx>, enc: bool, sw: Session<Ctx>, buf: array<byte>, at: nat,
                               iv: array<byte>, iv2: array<byte>, ivp: array<byte>, ivpAt: nat,
                               ghost s: Chain<Ctx>, ghost x: seq<byte>)
    returns (nivp: array<byte>, nivpAt: nat, ghost t: Chain<Ctx>, ghost o: seq<byte>)
    requires ValidXform(xf) && ChainOk(xf, s) && Holds(xf, sw, s, ivp, ivpAt)
    requires iv.Length == iv2.Length == EALG_MAX_BLOCK_LEN && iv != iv2 && buf != iv && buf != iv2
    requires at + xf.blocksize <= buf.Length && buf[at..at + xf.blocksize] == x
    requires ivp == buf ==> ivpAt + xf.blocksize <= at || at + xf.blocksize <= ivpAt
    requires !enc ==> (ivp == iv || ivp == iv2) && ivpAt == 0
    modifies sw, buf, iv, iv2
    ensures (t, o) == Step(xf, enc, s, x)
    ensures Stored(old(buf[..]), buf[..], at, o)
    ensures (xf.reinit.Some? ==> ivp != buf) ==> Holds(xf, sw, t, nivp, nivpAt)
    ensures xf.reinit.Some? ==> nivp == ivp && nivpAt == ivpAt
    ensures xf.reinit.None? && enc ==> nivp == buf && nivpAt == at
    ensures xf.reinit.None? && !enc ==> (nivp == iv || nivp == iv2) && nivpAt == 0
  {
    var b := xf.blocksize;
    ghost var r := Step(xf, enc, s, x);
    t, o := r.0, r.1;
    if xf.reinit.Some? {
      CryptOwn(xf, enc, sw, buf, at);
      nivp, nivpAt := ivp, ivpAt;
    } else if enc {
      CbcEncrypt(xf, sw, buf, at, ivp, ivpAt);
      nivp, nivpAt := buf, at;
    } else {
      nivp, nivpAt := if ivp == iv then iv2 else iv, 0;
      CbcDecrypt(xf, sw, buf, at, ivp, nivp);
    }
  }

  /** An xform with a `reinit` does all the chaining itself. */
  method CryptOwn<Ctx(!new)>(xf: Xform<Ctx>, enc: bool, sw: Session<Ctx>, buf: array<byte>, at: nat)
    requires ValidXform(xf) && at + xf.blocksize <= buf.Length
    modifies sw, buf
    ensures var x := old(buf[at..at + xf.blocksize]);
            var (c, o) := if enc then xf.encrypt(old(sw.kschedule), x) else xf.decrypt(old(sw.kschedule), x);
            sw.kschedule == c && Stored(old(buf[..]), buf[..], at, o)
  {
    var x := buf[at..at + xf.blocksize];
    var (c, o) := if enc then xf.encrypt(sw.kschedule, x) else xf.decrypt(sw.kschedule, x);
    sw.kschedule := c;
    CopyInto(buf, at, o);
    SlicesStored(old(buf[..]), buf[..], at, o);
  }

  /** Mask with the previous ciphertext block, then encrypt where it lies. */
  method CbcEncrypt<Ctx(!new)>(xf: Xform<Ctx>, sw: Session<Ctx>, buf: array<byte>, at: nat,
                               ivp: array<byte>, ivpAt: nat)
    requires ValidXform(xf) && at + xf.blocksize <= buf.Length && ivpAt + xf.blocksize <= ivp.Length
    requires ivp == buf ==> ivpAt + xf.blocksize <= at || at + xf.blocksize <= ivpAt
    modifies sw, buf
    ensures var b := xf.blocksize;
            var (c, o) := xf.encrypt(old(sw.kschedule), Xor(old(buf[at..at + b]), old(ivp[ivpAt..ivpAt + b])));
            sw.kschedule == c && Stored(old(buf[..]), buf[..], at, o)
  {
    XorInto(buf, at, ivp, ivpAt, xf.blocksize);
    var (c, o) := xf.encrypt(sw.kschedule, buf[at..at + xf.blocksize]);
    sw.kschedule := c;
    CopyInto(buf, at, o);
    SlicesStored(old(buf[..]), buf[..], at, o);
  }

  /** Save the ciphertext block for the next one, decrypt where it lies, then unmask. */
  method CbcDecrypt<Ctx(!new)>(xf: Xform<Ctx>, sw: Session<Ctx>, buf: array<byte>, at: nat,
                               ivp: array<byte>, nivp: array<byte>)
    requires ValidXform(xf) && at + xf.blocksize <= buf.Length && buf != ivp && buf != nivp && ivp != nivp
    requires xf.blocksize <= ivp.Length && xf.blocksize <= nivp.Length
    modifies sw, buf, nivp
    ensures var b := xf.blocksize;
            var (c, o) := xf.decrypt(old(sw.kschedule), old(buf[at..at + b]));
            sw.kschedule == c && Stored(old(buf[..]), buf[..], at, Xor(o, old(ivp[0..b])))
    ensures nivp[0..xf.blocksize] == old(buf[at..at + xf.blocksize])
  {
    var x := buf[at..at + xf.blocksize];
    CopyInto(nivp, 0, x);
    var (c, o) := xf.decrypt(sw.kschedule, x);
    sw.kschedule := c;
    CopyInto(buf, at, o);
    XorInto(buf, at, ivp, 0, xf.blocksize);
    SlicesStored(old(buf[..]), buf[..], at, Xor(o, old(ivp[0..xf.blocksize])));
  }

  lemma SlicesStored(m0: seq<byte>, m1: seq<byte>, at: nat, data: seq<byte>)
    requires |m1| == |m0| && at + |data| <= |m0|
    requires m1[..at] == m0[..at] && m1[at..at + |data|] == data && m1[at + |data|..] == m0[at + |data|..]
    ensures Stored(m0, m1, at, data)
  {
    assert m0 == m0[..at] + m0[at..at + |data|] + m0[at + |data|..];
    assert m1 == m0[..at] + data + m0[at + |data|..];
  }

  /** Memory `m` is `m0` with the flat range `skip..count` run through the mode. */
  ghost predicate Progress<Ctx(!new)>(xf: Xform<Ctx>, enc: bool, iov: seq<Iovec>, m0: seq<byte>, skip: nat,
                                      s0: Chain<Ctx>, count: nat, m: seq<byte>, cur: Chain<Ctx>, out: seq<byte>)
    requires ValidXform(xf) && ChainOk(xf, s0) && Within(iov, |m0|)
  {
    && skip <= count <= Total(iov) && Whole(count - skip, xf.blocksize)
    && Run(xf, enc, s0, Flat(iov, m0)[skip..count]) == (cur, out)
    && Patched(iov, m0, m, skip, out)
  }

  lemma ProgressStarts<Ctx(!new)>(xf: Xform<Ctx>, enc: bool, iov: seq<Iovec>, m0: seq<byte>, skip: nat, s0: Chain<Ctx>)
    requires ValidXform(xf) && ChainOk(xf, s0) && Within(iov, |m0|) && skip <= Total(iov)
    ensures Progress(xf, enc, iov, m0, skip, s0, skip, m0, s0, [])
  {
    PatchNothing(iov, m0, skip);
  }

  lemma ProgressStep<Ctx(!new)>(xf: Xform<Ctx>, enc: bool, iov: seq<Iovec>, m0: seq<byte>, skip: nat,
                                s0: Chain<Ctx>, count: nat, m: seq<byte>, cur: Chain<Ctx>, out: seq<byte>,
                                m': seq<byte>, cur': Chain<Ctx>, o: seq<byte>)
    requires ValidXform(xf) && ChainOk(xf, s0) && Within(iov, |m0|)
    requires Progress(xf, enc, iov, m0, skip, s0, count, m, cur, out)
    requires count + xf.blocksize <= Total(iov)
    requires Step(xf, enc, cur, Flat(iov, m)[count..count + xf.blocksize]) == (cur', o)
    requires Patched(iov, m, m', count, o)
    ensures Progress(xf, enc, iov, m0, skip, s0, count + xf.blocksize, m', cur', out + o)
  {
    PatchExtends(iov, m0, m, m', skip, out, o);
    var f0, hi := Flat(iov, m0), count + xf.blocksize;
    SpliceKeeps(f0, skip, out, count, hi);
    RunMore(xf, enc, s0, f0, skip, count, hi, cur, out);
  }

  /** One more block of the string, one more step. */
  lemma RunMore<Ctx(!new)>(xf: Xform<Ctx>, enc: bool, s0: Chain<Ctx>, f: seq<byte>, skip: nat, count: nat, hi: nat,
                           cur: Chain<Ctx>, out: seq<byte>)
    requires ValidXform(xf) && ChainOk(xf, s0) && skip <= count <= hi <= |f| && hi == count + xf.blocksize
    requires Whole(count - skip, xf.blocksize) && Run(xf, enc, s0, f[skip..count]) == (cur, out)
    ensures Whole(hi - skip, xf.blocksize)
    ensures var (cur', o) := Step(xf, enc, cur, f[count..hi]); Run(xf, enc, s0, f[skip..hi]) == (cur', out + o)
  {
    var d := f[skip..hi];
    assert d[..|d| - xf.blocksize] == f[skip..count] && d[|d| - xf.blocksize..] == f[count..hi];
  }

  lemma SpliceKeeps(s: seq<byte>, lo: nat, data: seq<byte>, a: nat, b: nat)
    requires lo + |data| <= a <= b <= |s|
    ensures Splice(s, lo, data)[a..b] == s[a..b]
  {
  }

  /** What a request works on: the xform, its session, the buffer and the scratch space. */
  datatype Job<!Ctx> = Job(
    xf: Xform<Ctx>, enc: bool, sw: Session<Ctx>, mem: array<byte>, iov: seq<Iovec>, st: Scratch)

  ghost predicate ValidJob<Ctx(!new)>(j: Job<Ctx>) {
    && ValidXform(j.xf) && Valid(j.iov, j.mem.Length) && j.st.Separate()
    && j.mem != j.st.iv && j.mem != j.st.iv2 && j.mem != j.st.blk
  }

  /** The loop variables: octets left, flat position, its iovec and offset, and the chaining pointer. */
  datatype Cursor = Cursor(i: nat, count: nat, ind: nat, k: nat, ivp: array<byte>, ivpAt: nat)

  /** Proof state: where the request started and how far it got. */
  datatype Track<Ctx> = Track(
    m0: seq<byte>, skip: nat, s0: Chain<Ctx>,
    m: seq<byte>, cur: Chain<Ctx>, out: seq<byte>)

  /** The chaining pointer is in the scratch space or, when encrypting in CBC, in the data. */
  predicate ChainPlace<Ctx>(j: Job<Ctx>, ivp: array<byte>, ivpAt: nat) {
    && (ivp == j.st.iv || ivp == j.st.iv2 || (ivp == j.mem && j.enc && j.xf.reinit.None?))
    && (ivp != j.mem ==> ivpAt == 0)
  }

  /** Everything up to the cursor is done, nothing after it is, and the chaining block is at hand. */
  ghost predicate Inv<Ctx(!new)>(j: Job<Ctx>, c: Cursor, g: Track<Ctx>)
    reads j.sw, j.mem, c.ivp
  {
    && ValidJob(j) && ChainOk(j.xf, g.s0) && |g.m0| == j.mem.Length && g.m == j.mem[..]
    && Whole(c.i, j.xf.blocksize)
    && Progress(j.xf, j.enc, j.iov, g.m0, g.skip, g.s0, c.count, g.m, g.cur, g.out)
    && ChainPlace(j, c.ivp, c.ivpAt) && Holds(j.xf, j.sw, g.cur, c.ivp, c.ivpAt)
  }

  /** The cursor's iovec and offset are those of its flat position. */
  predicate Placed(iov: seq<Iovec>, c: Cursor) {
    c.ind < |iov| && c.k <= iov[c.ind].len && Start(iov, c.ind) + c.k == c.count
  }

  /** Gather the block at `count` into the bounce buffer and run it through the mode there. */
  method BounceCrypt<Ctx(!new)>(j: Job<Ctx>, c: Cursor, ghost s: Chain<Ctx>)
    returns (panicked: bool, ivp: array<byte>, ivpAt: nat, ghost t: Chain<Ctx>, ghost o: seq<byte>)
    requires ValidJob(j) && ChainOk(j.xf, s) && ChainPlace(j, c.ivp, c.ivpAt) && Holds(j.xf, j.sw, s, c.ivp, c.ivpAt)
    modifies j.sw, j.st.iv, j.st.iv2, j.st.blk
    ensures panicked <==> c.count + j.xf.blocksize > Total(j.iov)
    ensures !panicked ==> (t, o) == Step(j.xf, j.enc, s, Flat(j.iov, j.mem[..])[c.count..c.count + j.xf.blocksize])
    ensures !panicked ==> j.st.blk[..j.xf.blocksize] == o
    ensures !panicked ==> ivp != j.mem && ChainPlace(j, ivp, ivpAt) && Holds(j.xf, j.sw, t, ivp, ivpAt)
  {
    ivp, ivpAt, t, o := c.ivp, c.ivpAt, s, [];
    var b, st := j.xf.blocksize, j.st;
    panicked := CopyData(j.mem, j.iov, c.count, b, st.blk);
    if panicked {
      return;
    }
    ivp, ivpAt, t, o := CryptBlock(j.xf, j.enc, j.sw, st.blk, 0, st.iv, st.iv2, c.ivp, c.ivpAt, s,
                                      Flat(j.iov, j.mem[..])[c.count..c.count + b]);
    assert st.blk[..b] == o;
    if j.xf.reinit.None? && j.enc {
      CopyInto(st.iv, 0, st.blk[..b]);
      ivp, ivpAt := st.iv, 0;
    }
  }

  /** The copying path: the block at `count` straddles iovecs. */
  method BounceBlock<Ctx(!new)>(j: Job<Ctx>, c: Cursor, ghost g: Track<Ctx>)
    returns (panicked: bool, c': Cursor, ghost g': Track<Ctx>)
    requires Inv(j, c, g) && c.i > 0
    modifies j.sw, j.mem, j.st.iv, j.st.iv2, j.st.blk
    ensures panicked <==> c.count + j.xf.blocksize > Total(j.iov)
    ensures !panicked ==> Inv(j, c', g') && c'.ivp != j.mem
    ensures !panicked ==> SameStart(g', g)
    ensures !panicked ==> c'.count == c.count + j.xf.blocksize && c'.i == c.i - j.xf.blocksize
  {
    c', g' := c, g;
    var ivp, ivpAt;
    ghost var t, o;
    panicked, ivp, ivpAt, t, o := BounceCrypt(j, c, g.cur);
    if panicked {
      return;
    }
    panicked := CopyBack(j.mem, j.iov, c.count, j.xf.blocksize, j.st.blk);
    c', g' := Advance(j, c, g, ivp, ivpAt, t, o);
  }

  /** Account for one block just rewritten at the cursor. */
  method Advance<Ctx(!new)>(j: Job<Ctx>, c: Cursor, ghost g: Track<Ctx>,
                            ivp: array<byte>, ivpAt: nat, ghost t: Chain<Ctx>, ghost o: seq<byte>)
    returns (c': Cursor, ghost g': Track<Ctx>)
    requires ValidJob(j) && ChainOk(j.xf, g.s0) && |g.m0| == j.mem.Length
    requires Whole(c.i, j.xf.blocksize) && c.i > 0 && c.count + j.xf.blocksize <= Total(j.iov)
    requires Progress(j.xf, j.enc, j.iov, g.m0, g.skip, g.s0, c.count, g.m, g.cur, g.out)
    requires Step(j.xf, j.enc, g.cur, Flat(j.iov, g.m)[c.count..c.count + j.xf.blocksize]) == (t, o)
    requires Patched(j.iov, g.m, j.mem[..], c.count, o)
    requires ChainPlace(j, ivp, ivpAt) && Holds(j.xf, j.sw, t, ivp, ivpAt)
    ensures Inv(j, c', g') && SameStart(g', g)
    ensures c' == c.(count := c.count + j.xf.blocksize, i := c.i - j.xf.blocksize, ivp := ivp, ivpAt := ivpAt)
  {
    ghost var m := j.mem[..];
    var count: nat, i: nat := c.count + j.xf.blocksize, c.i - j.xf.blocksize;
    ProgressStep(j.xf, j.enc, j.iov, g.m0, g.skip, g.s0, c.count, g.m, g.cur, g.out, m, t, o);
    g' := Track(g.m0, g.skip, g.s0, m, t, g.out + o);
    c' := Cursor(i, count, c.ind, c.k, ivp, ivpAt);
  }

  /** The block at the cursor, in memory and in the flat view. */
  lemma BlockHere(iov: seq<Iovec>, m: seq<byte>, c: Cursor, b: nat)
    requires Valid(iov, |m|) && Placed(iov, c) && c.k + b <= iov[c.ind].len
    ensures c.count + b <= Total(iov)
    ensures var at := iov[c.ind].base + c.k; at + b <= |m| && m[at..at + b] == Flat(iov, m)[c.count..c.count + b]
  {
    ReadInside(iov, m, c.ind, c.k, b);
  }

  lemma PatchHere(iov: seq<Iovec>, m: seq<byte>, m': seq<byte>, c: Cursor, o: seq<byte>)
    requires Valid(iov, |m|) && Placed(iov, c) && c.k + |o| <= iov[c.ind].len
    requires Stored(m, m', iov[c.ind].base + c.k, o)
    ensures Patched(iov, m, m', c.count, o)
  {
    PatchInside(iov, m, m', c.ind, c.k, o);
  }

  /** A chaining pointer into the data points at block `pk` of iovec `pi`, strictly before the cursor. */
  ghost predicate Behind(iov: seq<Iovec>, b: nat, c: Cursor, pi: nat, pk: nat) {
    && pi <= c.ind < |iov| && pk + b <= iov[pi].len && c.ivpAt == iov[pi].base + pk
    && (pi == c.ind ==> pk + b <= c.k)
  }

  /** Such a pointer cannot overlap the block it is chained into. */
  lemma BehindIsApart(iov: seq<Iovec>, size: nat, b: nat, c: Cursor, pi: nat, pk: nat)
    requires Valid(iov, size) && 0 < b && Behind(iov, b, c, pi, pk) && c.k + b <= iov[c.ind].len
    ensures c.ivpAt + b <= iov[c.ind].base + c.k || iov[c.ind].base + c.k + b <= c.ivpAt
  {
    assert pi != c.ind ==> Apart(iov, pi, c.ind);
  }

  /** Run the contiguous block at the cursor through the mode where it lies. */
  method InPlaceCrypt<Ctx(!new)>(j: Job<Ctx>, c: Cursor, ghost s: Chain<Ctx>, ghost m: seq<byte>)
    returns (ivp: array<byte>, ivpAt: nat, ghost t: Chain<Ctx>, ghost o: seq<byte>)
    requires ValidJob(j) && ChainOk(j.xf, s) && ChainPlace(j, c.ivp, c.ivpAt) && Holds(j.xf, j.sw, s, c.ivp, c.ivpAt)
    requires Placed(j.iov, c) && c.k + j.xf.blocksize <= j.iov[c.ind].len && m == j.mem[..]
    requires var at, b := j.iov[c.ind].base + c.k, j.xf.blocksize;
             c.ivp == j.mem ==> c.ivpAt + b <= at || at + b <= c.ivpAt
    modifies j.sw, j.mem, j.st.iv, j.st.iv2
    ensures c.count + j.xf.blocksize <= Total(j.iov)
    ensures (t, o) == Step(j.xf, j.enc, s, Flat(j.iov, m)[c.count..c.count + j.xf.blocksize])
    ensures Patched(j.iov, m, j.mem[..], c.count, o)
    ensures ChainPlace(j, ivp, ivpAt) && Holds(j.xf, j.sw, t, ivp, ivpAt)
    ensures ivp == j.mem ==> ivpAt == j.iov[c.ind].base + c.k
  {
    BlockHere(j.iov, m, c, j.xf.blocksize);
    ivp, ivpAt, t, o := CryptAt(j, c, j.iov[c.ind].base + c.k, s, m, Flat(j.iov, m)[c.count..c.count + j.xf.blocksize]);
    PatchHere(j.iov, m, j.mem[..], c, o);
  }

  method CryptAt<Ctx(!new)>(j: Job<Ctx>, c: Cursor, at: nat, ghost s: Chain<Ctx>,
                            ghost m: seq<byte>, ghost x: seq<byte>)
    returns (ivp: array<byte>, ivpAt: nat, ghost t: Chain<Ctx>, ghost o: seq<byte>)
    requires ValidJob(j) && ChainOk(j.xf, s) && ChainPlace(j, c.ivp, c.ivpAt) && Holds(j.xf, j.sw, s, c.ivp, c.ivpAt)
    requires c.ivp == j.mem ==> c.ivpAt + j.xf.blocksize <= at || at + j.xf.blocksize <= c.ivpAt
    requires m == j.mem[..] && at + j.xf.blocksize <= |m| && x == m[at..at + j.xf.blocksize]
    modifies j.sw, j.mem, j.st.iv, j.st.iv2
    ensures (t, o) == Step(j.xf, j.enc, s, x) && Stored(m, j.mem[..], at, o)
    ensures ChainPlace(j, ivp, ivpAt) && Holds(j.xf, j.sw, t, ivp, ivpAt)
    ensures ivp == j.mem ==> ivpAt == at
  {
    assert j.mem[at..at + j.xf.blocksize] == x;
    ivp, ivpAt, t, o := CryptBlock(j.xf, j.enc, j.sw, j.mem, at, j.st.iv, j.st.iv2, c.ivp, c.ivpAt, s, x);
  }

  /** The in-place path: the block at the cursor is contiguous. */
  method InPlaceBlock<Ctx(!new)>(j: Job<Ctx>, c: Cursor, ghost g: Track<Ctx>, ghost pi: nat, ghost pk: nat)
    returns (c': Cursor, ghost g': Track<Ctx>)
    requires Inv(j, c, g) && Placed(j.iov, c) && c.i > 0 && c.k + j.xf.blocksize <= j.iov[c.ind].len
    requires c.ivp == j.mem ==> Behind(j.iov, j.xf.blocksize, c, pi, pk)
    modifies j.sw, j.mem, j.st.iv, j.st.iv2
    ensures Inv(j, c', g') && SameStart(g', g)
    ensures c'.(ivp := c.ivp, ivpAt := c.ivpAt)
      == c.(i := c.i - j.xf.blocksize, count := c.count + j.xf.blocksize, k := c.k + j.xf.blocksize)
    ensures c'.ivp == j.mem ==> Behind(j.iov, j.xf.blocksize, c', c.ind, c.k)
  {
    if c.ivp == j.mem {
      BehindIsApart(j.iov, j.mem.Length, j.xf.blocksize, c, pi, pk);
    }
    var ivp, ivpAt;
    ghost var t, o;
    ivp, ivpAt, t, o := InPlaceCrypt(j, c, g.cur, g.m);
    c', g' := Advance(j, c, g, ivp, ivpAt, t, o);
    c' := c'.(k := c.k + j.xf.blocksize);
  }

  /** The inner loop of `swcr_encdec`: as many whole blocks of the cursor's iovec as there are. */
  method InPlaceRun<Ctx(!new)>(j: Job<Ctx>, c0: Cursor, ghost g0: Track<Ctx>, ghost pi0: nat, ghost pk0: nat)
    returns (c: Cursor, ghost g: Track<Ctx>, ghost pi: nat, ghost pk: nat)
    requires AtLoop(j, c0, g0, pi0, pk0)
    modifies j.sw, j.mem, j.st.iv, j.st.iv2
    ensures AtLoop(j, c, g, pi, pk) && SameStart(g, g0)
    ensures c.ind == c0.ind && c.i <= c0.i && c.count + c.i == c0.count + c0.i
    ensures c.i == 0 || j.iov[c.ind].len < c.k + j.xf.blocksize
    ensures j.iov[c.ind].len >= c0.k + j.xf.blocksize && c0.i > 0 ==> c.i < c0.i
    ensures c.i == c0.i ==> c == c0
  {
    c, g, pi, pk := c0, g0, pi0, pk0;
    while j.iov[c.ind].len >= c.k + j.xf.blocksize && c.i > 0
      invariant AtLoop(j, c, g, pi, pk) && SameStart(g, g0)
      invariant c.ind == c0.ind && c.i <= c0.i && c.count + c.i == c0.count + c0.i
      invariant c.i == c0.i ==> c == c0
      decreases c.i
    {
      ghost var before := c;
      c, g := InPlaceBlock(j, c, g, pi, pk);
      pi, pk := before.ind, before.k;
    }
  }

  /** The cursor is at a reachable point of the data loop. */
  ghost predicate AtLoop<Ctx(!new)>(j: Job<Ctx>, c: Cursor, g: Track<Ctx>, pi: nat, pk: nat)
    reads j.sw, j.mem, c.ivp
  {
    && Inv(j, c, g) && Placed(j.iov, c)
    && (c.ivp == j.mem ==> Behind(j.iov, j.xf.blocksize, c, pi, pk))
  }

  ghost predicate SameStart<Ctx>(g: Track<Ctx>, g0: Track<Ctx>) {
    g.m0 == g0.m0 && g.skip == g0.skip && g.s0 == g0.s0
  }

  /** The first half of the loop body: a block that straddles iovecs, if the cursor is at one. */
  method StraddlingBlock<Ctx(!new)>(j: Job<Ctx>, c0: Cursor, ghost g0: Track<Ctx>, ghost pi: nat, ghost pk: nat)
    returns (panicked: bool, c: Cursor, ghost g: Track<Ctx>)
    requires AtLoop(j, c0, g0, pi, pk) && c0.i > 0
    modifies j.sw, j.mem, j.st.iv, j.st.iv2, j.st.blk
    ensures panicked ==> c0.count + c0.i > Total(j.iov)
    ensures !panicked ==> AtLoop(j, c, g, pi, pk) && SameStart(g, g0)
    ensures !panicked ==> c.count + c.i == c0.count + c0.i && c.i <= c0.i
    ensures !panicked && c.i == c0.i ==>
      c == c0 && (j.iov[c.ind].len >= c.k + j.xf.blocksize || j.iov[c.ind].len == c.k)
  {
    panicked, c, g := false, c0, g0;
    if j.iov[c.ind].len < c.k + j.xf.blocksize && j.iov[c.ind].len != c.k {
      panicked, c, g := BounceBlock(j, c, g);
      if !panicked {
        var place := GetPtr(j.iov, c.count);
        c := c.(ind := place.value.0, k := place.value.1);
      }
    }
  }

  /** The second half: whole blocks in place, then on to the next iovec if this one is used up. */
  method ContiguousBlocks<Ctx(!new)>(j: Job<Ctx>, c0: Cursor, ghost g0: Track<Ctx>, ghost pi0: nat, ghost pk0: nat)
    returns (ended: bool, c: Cursor, ghost g: Track<Ctx>, ghost pi: nat, ghost pk: nat)
    requires AtLoop(j, c0, g0, pi0, pk0)
    modifies j.sw, j.mem, j.st.iv, j.st.iv2
    ensures ended ==> c0.count + c0.i > Total(j.iov)
    ensures !ended ==> AtLoop(j, c, g, pi, pk) && SameStart(g, g0)
    ensures !ended ==> c.count + c.i == c0.count + c0.i && c.i <= c0.i && (c.i == c0.i ==> c0.ind <= c.ind)
    ensures !ended && c0.i > 0 && j.iov[c0.ind].len >= c0.k + j.xf.blocksize ==> c.i < c0.i
    ensures !ended && c0.i > 0 && j.iov[c0.ind].len == c0.k ==> c.i == c0.i && c.ind == c0.ind + 1
  {
    ended := false;
    c, g, pi, pk := InPlaceRun(j, c0, g0, pi0, pk0);
    if c.i > 0 && c.k == j.iov[c.ind].len {
      UsedUp(j, c, g, pi, pk);
      c := c.(k := 0, ind := c.ind + 1);
      ended := c.ind >= |j.iov|;
    }
  }

  /** At the end of an iovec, the cursor may as well be at the start of the next; with none left, the data is short. */
  lemma UsedUp<Ctx(!new)>(j: Job<Ctx>, c: Cursor, g: Track<Ctx>, pi: nat, pk: nat)
    requires AtLoop(j, c, g, pi, pk) && c.i > 0 && c.k == j.iov[c.ind].len
    ensures c.ind + 1 < |j.iov| ==> AtLoop(j, c.(k := 0, ind := c.ind + 1), g, pi, pk)
    ensures c.ind + 1 >= |j.iov| ==> c.count + c.i > Total(j.iov)
  {
  }

  /** One pass of the data loop; `Done` means carry on. */
  method LoopBody<Ctx(!new)>(j: Job<Ctx>, c0: Cursor, ghost g0: Track<Ctx>, ghost pi0: nat, ghost pk0: nat)
    returns (r: Outcome, c: Cursor, ghost g: Track<Ctx>, ghost pi: nat, ghost pk: nat)
    requires AtLoop(j, c0, g0, pi0, pk0) && c0.i > 0
    modifies j.sw, j.mem, j.st.iv, j.st.iv2, j.st.blk
    ensures !r.Done? ==> c0.count + c0.i > Total(j.iov)
    ensures r.Done? ==> AtLoop(j, c, g, pi, pk) && SameStart(g, g0) && c.count + c.i == c0.count + c0.i
    ensures r.Done? ==> c.i < c0.i || (c.i == c0.i && c0.ind < c.ind)
  {
    pi, pk := pi0, pk0;
    var panicked, ended;
    panicked, c, g := StraddlingBlock(j, c0, g0, pi, pk);
    if panicked {
      return Panic, c, g, pi, pk;
    }
    if c.i == 0 {
      return Done, c, g, pi, pk;
    }
    ended, c, g, pi, pk := ContiguousBlocks(j, c, g, pi, pk);
    r := if ended then Einval else Done;
  }

  /** The data loop of `swcr_encdec`. */
  method CryptLoop<Ctx(!new)>(j: Job<Ctx>, c0: Cursor, ghost g0: Track<Ctx>) returns (r: Outcome, ghost g: Track<Ctx>)
    requires AtLoop(j, c0, g0, 0, 0) && c0.ivp != j.mem
    modifies j.sw, j.mem, j.st.iv, j.st.iv2, j.st.blk
    ensures r.Done? <==> c0.count + c0.i <= Total(j.iov)
    ensures r.Done? ==> j.sw.kschedule == g.cur.ctx && g.m == j.mem[..] && SameStart(g, g0)
    ensures r.Done? ==> Progress(j.xf, j.enc, j.iov, g.m0, g.skip, g.s0, c0.count + c0.i, g.m, g.cur, g.out)
  {
    var c := c0;
    g := g0;
    ghost var pi, pk, end := 0, 0, c0.count + c0.i;
    while c.i > 0
      invariant AtLoop(j, c, g, pi, pk) && SameStart(g, g0)
      invariant c.count + c.i == end
      decreases c.i, |j.iov| - c.ind
    {
      r, c, g, pi, pk := LoopBody(j, c, g, pi, pk);
      if !r.Done? {
        return;
      }
    }
    assert c.count == end;
    r := Done;
  }

  /** Find the octet at flat position `skip` and process `len` octets from there. */
  method CryptData<Ctx(!new)>(j: Job<Ctx>, skip: int, len: nat, ghost s0: Chain<Ctx>)
    returns (r: Outcome, ghost t: Chain<Ctx>, ghost out: seq<byte>)
    requires ValidJob(j) && ChainOk(j.xf, s0) && Whole(len, j.xf.blocksize)
    requires Holds(j.xf, j.sw, s0, j.st.iv, 0)
    modifies j.sw, j.mem, j.st.iv, j.st.iv2, j.st.blk
    ensures r.Done? <==> |j.iov| > 0 && 0 <= skip && skip + len <= Total(j.iov)
    ensures r.Done? ==> Run(j.xf, j.enc, s0, Flat(j.iov, old(j.mem[..]))[skip..skip + len]) == (t, out)
    ensures r.Done? ==> j.sw.kschedule == t.ctx && Patched(j.iov, old(j.mem[..]), j.mem[..], skip, out)
  {
    t, out := s0, [];
    var place := GetPtr(j.iov, skip);
    if place.None? {
      return Einval, t, out;
    }
    ghost var g := Track(j.mem[..], skip, s0, j.mem[..], s0, []);
    ProgressStarts(j.xf, j.enc, j.iov, g.m0, skip, s0);
    r, g := CryptLoop(j, Cursor(len, skip, place.value.0, place.value.1, j.st.iv, 0), g);
    t, out := g.cur, g.out;
  }

  /** The IV a request uses: given, drawn, or read off the buffer. */
  function IvOf(req: Request, ivlen: nat, drawn: seq<byte>, flat: seq<byte>): seq<byte>
    requires req.ivExplicit ==> |req.iv| >= ivlen
    requires !req.ivExplicit && !req.encrypt ==> 0 <= req.inject && req.inject + ivlen <= |flat|
  {
    if req.ivExplicit then req.iv[..ivlen]
    else if req.encrypt then drawn
    else flat[req.inject..req.inject + ivlen]
  }

  /** The request reads or writes its IV in the buffer. */
  predicate TouchesIv(req: Request) {
    if req.encrypt then !req.ivPresent else !req.ivExplicit
  }

  /** Every flat range the request touches lies in the buffer. */
  predicate InRange(req: Request, ivlen: nat, iov: seq<Iovec>) {
    && |iov| > 0 && 0 <= req.skip && req.skip + Wanted(req) <= Total(iov)
    && (TouchesIv(req) ==> 0 <= req.inject && req.inject + ivlen <= Total(iov))
  }

  /** A negative length is a multiple of the block size that asks for nothing. */
  function Wanted(req: Request): nat {
    if req.len < 0 then 0 else req.len
  }

  /** Set up the IV; when encrypting, store it in the buffer unless it is there already. */
  method PrepareIv(req: Request, ivlen: nat, drawn: seq<byte>, mem: array<byte>, iov: seq<Iovec>, iv: array<byte>)
    returns (panicked: bool)
    requires Valid(iov, mem.Length) && iv != mem && ivlen <= iv.Length && |drawn| == ivlen
    requires req.ivExplicit ==> |req.iv| >= ivlen
    modifies mem, iv
    ensures panicked <==> TouchesIv(req) && !(0 <= req.inject && req.inject + ivlen <= Total(iov))
    ensures !panicked ==> iv[..ivlen] == IvOf(req, ivlen, drawn, Flat(iov, old(mem[..])))
    ensures !panicked && req.encrypt && !req.ivPresent ==> Patched(iov, old(mem[..]), mem[..], req.inject, iv[..ivlen])
    ensures !(req.encrypt && !req.ivPresent) ==> mem[..] == old(mem[..])
  {
    if TouchesIv(req) && req.inject < 0 {
      return true;
    }
    panicked := false;
    if req.encrypt {
      CopyInto(iv, 0, if req.ivExplicit then req.iv[..ivlen] else drawn);
      if !req.ivPresent {
        panicked := CopyBack(mem, iov, req.inject, ivlen, iv);
      }
    } else if req.ivExplicit {
      CopyInto(iv, 0, req.iv[..ivlen]);
    } else {
      panicked := CopyData(mem, iov, req.inject, ivlen, iv);
    }
  }

  /** Where the mode starts from: `reinit` consumes the IV, otherwise it is the first chaining block. */
  function StartChain<Ctx>(xf: Xform<Ctx>, ctx: Ctx, iv: seq<byte>): Chain<Ctx> {
    Chain(if xf.reinit.Some? then xf.reinit.value(ctx, iv) else ctx, iv)
  }

  /**
   `swcr_encdec` on a uio buffer. It succeeds exactly when the length is a whole
   number of blocks and every range it touches is in the buffer, and then it has
   run the mode over the flat slice and touched nothing else.
   */
  method SwcrEncDec<Ctx(!new)>(xf: Xform<Ctx>, sw: Session<Ctx>, req: Request, drawn: seq<byte>,
                               mem: array<byte>, iov: seq<Iovec>)
    returns (r: Outcome, ghost iv: seq<byte>, ghost m1: seq<byte>, ghost t: Chain<Ctx>, ghost out: seq<byte>)
    requires ValidXform(xf) && Valid(iov, mem.Length) && |drawn| == xf.ivsize
    requires req.ivExplicit ==> |req.iv| >= xf.ivsize
    modifies sw, mem
    ensures r.Done? <==> req.len % xf.blocksize == 0 && InRange(req, xf.ivsize, iov)
    ensures r.Done? ==> iv == IvOf(req, xf.ivsize, drawn, Flat(iov, old(mem[..]))) && |iv| == xf.ivsize
    ensures r.Done? ==> |m1| == mem.Length && Whole(Wanted(req), xf.blocksize)
    ensures r.Done? && req.encrypt && !req.ivPresent ==> Patched(iov, old(mem[..]), m1, req.inject, iv)
    ensures !(req.encrypt && !req.ivPresent) ==> m1 == old(mem[..])
    ensures r.Done? ==>
      Run(xf, req.encrypt, StartChain(xf, old(sw.kschedule), iv), Flat(iov, m1)[req.skip..req.skip + Wanted(req)])
        == (t, out)
    ensures r.Done? ==> sw.kschedule == t.ctx && Patched(iov, m1, mem[..], req.skip, out)
  {
    iv, m1, t, out := [], mem[..], Chain(sw.kschedule, []), [];
    if req.len % xf.blocksize != 0 {
      return Einval, iv, m1, t, out;
    }
    WholeIffDivisible(Wanted(req), xf.blocksize);
    r, iv, m1, t, out := CryptWhole(xf, sw, req, drawn, mem, iov);
  }

  /** A request for a whole number of blocks. */
  method CryptWhole<Ctx(!new)>(xf: Xform<Ctx>, sw: Session<Ctx>, req: Request, drawn: seq<byte>,
                               mem: array<byte>, iov: seq<Iovec>)
    returns (r: Outcome, ghost iv: seq<byte>, ghost m1: seq<byte>, ghost t: Chain<Ctx>, ghost out: seq<byte>)
    requires ValidXform(xf) && Valid(iov, mem.Length) && |drawn| == xf.ivsize
    requires (req.ivExplicit ==> |req.iv| >= xf.ivsize) && Whole(Wanted(req), xf.blocksize)
    modifies sw, mem
    ensures r.Done? <==> InRange(req, xf.ivsize, iov)
    ensures r.Done? ==> iv == IvOf(req, xf.ivsize, drawn, Flat(iov, old(mem[..]))) && |iv| == xf.ivsize
    ensures r.Done? ==> |m1| == mem.Length
    ensures r.Done? && req.encrypt && !req.ivPresent ==> Patched(iov, old(mem[..]), m1, req.inject, iv)
    ensures !(req.encrypt && !req.ivPresent) ==> m1 == old(mem[..])
    ensures r.Done? ==>
      RunsTo(xf, req.encrypt, StartChain(xf, old(sw.kschedule), iv), iov, m1, req.skip, Wanted(req), t, out)
    ensures r.Done? ==> sw.kschedule == t.ctx && Patched(iov, m1, mem[..], req.skip, out)
  {
    t, out := Chain(sw.kschedule, []), [];
    var panicked, st;
    panicked, st, iv := ScratchWithIv(req, xf.ivsize, drawn, mem, iov);
    m1 := mem[..];
    if panicked {
      return Panic, iv, m1, t, out;
    }
    ghost var s0 := StartChain(xf, sw.kschedule, iv);
    r, t, out := CryptFromIv(Job(xf, req.encrypt, sw, mem, iov, st), req.skip, Wanted(req), s0, m1);
  }

  /** The stack frame of a request, its IV in place. */
  method ScratchWithIv(req: Request, ivlen: nat, drawn: seq<byte>, mem: array<byte>, iov: seq<Iovec>)
    returns (panicked: bool, st: Scratch, ghost iv: seq<byte>)
    requires Valid(iov, mem.Length) && ivlen <= EALG_MAX_BLOCK_LEN && |drawn| == ivlen
    requires req.ivExplicit ==> |req.iv| >= ivlen
    modifies mem
    ensures fresh(st.iv) && fresh(st.iv2) && fresh(st.blk) && st.Separate() && iv == st.iv[..ivlen]
    ensures panicked <==> TouchesIv(req) && !(0 <= req.inject && req.inject + ivlen <= Total(iov))
    ensures !panicked ==> iv == IvOf(req, ivlen, drawn, Flat(iov, old(mem[..])))
    ensures !panicked && req.encrypt && !req.ivPresent ==> Patched(iov, old(mem[..]), mem[..], req.inject, iv)
    ensures !(req.encrypt && !req.ivPresent) ==> mem[..] == old(mem[..])
  {
    st := new Scratch();
    panicked := PrepareIv(req, ivlen, drawn, mem, iov, st.iv);
    iv := st.iv[..ivlen];
  }

  /** From `s0`, the mode takes the flat slice at `skip` to `out`, and ends in `t`. */
  ghost predicate RunsTo<Ctx(!new)>(xf: Xform<Ctx>, enc: bool, s0: Chain<Ctx>, iov: seq<Iovec>, m: seq<byte>,
                                    skip: int, len: nat, t: Chain<Ctx>, out: seq<byte>) {
    && ValidXform(xf) && ChainOk(xf, s0) && Whole(len, xf.blocksize) && Within(iov, |m|)
    && 0 <= skip && skip + len <= Total(iov)
    && Run(xf, enc, s0, Flat(iov, m)[skip..skip + len]) == (t, out)
  }

  /** Let the xform take the IV if it wants to, then process the data. */
  method CryptFromIv<Ctx(!new)>(j: Job<Ctx>, skip: int, len: nat, ghost s0: Chain<Ctx>, ghost m0: seq<byte>)
    returns (r: Outcome, ghost t: Chain<Ctx>, ghost out: seq<byte>)
    requires ValidJob(j) && Whole(len, j.xf.blocksize) && m0 == j.mem[..]
    requires s0 == StartChain(j.xf, j.sw.kschedule, j.st.iv[..j.xf.ivsize])
    modifies j.sw, j.mem, j.st.iv, j.st.iv2, j.st.blk
    ensures r.Done? <==> |j.iov| > 0 && 0 <= skip && skip + len <= Total(j.iov)
    ensures r.Done? ==> RunsTo(j.xf, j.enc, s0, j.iov, m0, skip, len, t, out)
    ensures r.Done? ==> j.sw.kschedule == t.ctx && Patched(j.iov, m0, j.mem[..], skip, out)
  {
    if j.xf.reinit.Some? {
      j.sw.kschedule := j.xf.reinit.value(j.sw.kschedule, j.st.iv[..j.xf.ivsize]);
    }
    r, t, out := CryptData(j, skip, len, s0);
  }

  /** From key state `ctx`, a request has run the mode over the slice at `skip` and left `m1`. */
  ghost predicate Crypted<Ctx(!new)>(xf: Xform<Ctx>, enc: bool, ctx: Ctx, iv: seq<byte>, iov: seq<Iovec>,
                                     m0: seq<byte>, m1: seq<byte>, skip: nat, len: nat, t: Chain<Ctx>, out: seq<byte>)
    requires ValidXform(xf)
  {
    && |iv| == xf.ivsize && Whole(len, xf.blocksize) && Within(iov, |m0|) && skip + len <= Total(iov)
    && Run(xf, enc, StartChain(xf, ctx, iv), Flat(iov, m0)[skip..skip + len]) == (t, out)
    && Patched(iov, m0, m1, skip, out)
  }

  lemma CryptedSlice<Ctx(!new)>(xf: Xform<Ctx>, enc: bool, ctx: Ctx, iv: seq<byte>, iov: seq<Iovec>,
                                m0: seq<byte>, m1: seq<byte>, skip: nat, len: nat, t: Chain<Ctx>, out: seq<byte>)
    requires ValidXform(xf) && Crypted(xf, enc, ctx, iv, iov, m0, m1, skip, len, t, out)
    ensures |m1| == |m0| && Flat(iov, m1)[skip..skip + len] == out
  {
  }

  /**
   Encrypting under one fragmentation and decrypting the same octets under any
   other, with the key state the first call left behind, restores the slice.
   */
  lemma RoundTripAcrossFragmentations<Ctx(!new)>(
      xf: Xform<Ctx>, ctx: Ctx, iv: seq<byte>, len: nat,
      iovA: seq<Iovec>, a0: seq<byte>, a1: seq<byte>, skipA: nat, tA: Chain<Ctx>, outA: seq<byte>,
      iovB: seq<Iovec>, b0: seq<byte>, b1: seq<byte>, skipB: nat, tB: Chain<Ctx>, outB: seq<byte>)
    requires ValidXform(xf) && Inverts(xf) && KeyStateRecovers(xf)
    requires Crypted(xf, true, ctx, iv, iovA, a0, a1, skipA, len, tA, outA)
    requires Crypted(xf, false, tA.ctx, iv, iovB, b0, b1, skipB, len, tB, outB)
    requires |a1| == |a0| && Flat(iovB, b0)[skipB..skipB + len] == Flat(iovA, a1)[skipA..skipA + len]
    ensures |b1| == |b0| && Flat(iovB, b1)[skipB..skipB + len] == Flat(iovA, a0)[skipA..skipA + len]
    ensures tB.ctx == tA.ctx
  {
    var s0, data := StartChain(xf, ctx, iv), Flat(iovA, a0)[skipA..skipA + len];
    CryptedSlice(xf, true, ctx, iv, iovA, a0, a1, skipA, len, tA, outA);
    CryptedSlice(xf, false, tA.ctx, iv, iovB, b0, b1, skipB, len, tB, outB);
    StateRecovers(xf, ctx, iv, data);
    RunInverts(xf, s0, data);
  }

  lemma StateRecovers<Ctx(!new)>(xf: Xform<Ctx>, ctx: Ctx, iv: seq<byte>, data: seq<byte>)
    requires ValidXform(xf) && KeyStateRecovers(xf) && |iv| == xf.ivsize && Whole(|data|, xf.blocksize)
    ensures var s0 := StartChain(xf, ctx, iv);
            StartChain(xf, Run(xf, true, s0, data).0.ctx, iv) == s0
  {
    var s0 := StartChain(xf, ctx, iv);
    if xf.reinit.Some? {
      ReinitAfterRun(xf, s0, data, iv);
      assert xf.reinit.value(xf.reinit.value(ctx, iv), iv) == xf.reinit.value(ctx, iv);
    } else {
      KeyStateKept(xf, true, s0, data);
    }
  }

  /** A CBC request: the first block is chained to the IV, every other one to the ciphertext block before it. */
  lemma CbcRequest<Ctx(!new)>(xf: Xform<Ctx>, ctx: Ctx, iv: seq<byte>, data: seq<byte>, p: nat)
    requires ValidXform(xf) && KeyStateRecovers(xf) && xf.reinit.None? && |iv| == xf.ivsize
    requires Whole(|data|, xf.blocksize) && p + xf.blocksize <= |data| && Whole(p, xf.blocksize)
    ensures var b, out := xf.blocksize, Run(xf, true, StartChain(xf, ctx, iv), data).1;
            out[p..p + b] == xf.encrypt(ctx, Xor(data[p..p + b], if p == 0 then iv else out[p - b..p])).1
  {
    CbcEncryptsBlock(xf, StartChain(xf, ctx, iv), data, p);
  }

  /** A request that brings its own IV and touches nothing but the data; what is drawn makes no difference. */
  method CryptSlice<Ctx(!new)>(xf: Xform<Ctx>, enc: bool, sw: Session<Ctx>, iv: seq<byte>, drawn: seq<byte>,
                               mem: array<byte>, iov: seq<Iovec>, skip: nat, len: nat)
    returns (r: Outcome, ghost t: Chain<Ctx>, ghost out: seq<byte>)
    requires ValidXform(xf) && |iv| == |drawn| == xf.ivsize && Valid(iov, mem.Length) && iov != []
    modifies sw, mem
    ensures r.Done? <==> len % xf.blocksize == 0 && skip + len <= Total(iov)
    ensures r.Done? ==> sw.kschedule == t.ctx
    ensures r.Done? ==> Crypted(xf, enc, old(sw.kschedule), iv, iov, old(mem[..]), mem[..], skip, len, t, out)
  {
    ghost var used, m1;
    var req := Request(skip, len, 0, enc, true, true, iv);
    assert Wanted(req) == len && !TouchesIv(req) && iv[..xf.ivsize] == iv;
    r, used, m1, t, out := SwcrEncDec(xf, sw, req, drawn, mem, iov);
  }

  /**
   End to end: encrypt in one buffer, carry the octets over to another that is
   split up differently, decrypt there in the same session. The plaintext is back.
   */
  method EncryptCarryDecrypt<Ctx(!new)>(xf: Xform<Ctx>, sw: Session<Ctx>, iv: seq<byte>, drawn: seq<byte>, len: nat,
                                        memA: array<byte>, iovA: seq<Iovec>, skipA: nat,
                                        memB: array<byte>, iovB: seq<Iovec>, skipB: nat)
    returns (r: Outcome)
    requires ValidXform(xf) && Inverts(xf) && KeyStateRecovers(xf) && |iv| == |drawn| == xf.ivsize
    requires Valid(iovA, memA.Length) && Valid(iovB, memB.Length) && memA != memB && iovA != [] && iovB != []
    modifies sw, memA, memB
    ensures r.Done? <==> len % xf.blocksize == 0 && skipA + len <= Total(iovA) && skipB + len <= Total(iovB)
    ensures r.Done? ==>
      Flat(iovB, memB[..])[skipB..skipB + len] == Flat(iovA, old(memA[..]))[skipA..skipA + len]
  {
    ghost var a0, ctx := memA[..], sw.kschedule;
    ghost var tA, outA, tB, outB;
    r, tA, outA := CryptSlice(xf, true, sw, iv, drawn, memA, iovA, skipA, len);
    if !r.Done? {
      return;
    }
    ghost var b := memB[..];
    var panicked := Carry(memA, iovA, skipA, memB, iovB, skipB, len);
    if panicked {
      return Panic;
    }
    ghost var a1, b0 := memA[..], memB[..];
    PatchedHere(iovB, b, b0, skipB, Flat(iovA, a1)[skipA..skipA + len]);
    r, tB, outB := CryptSlice(xf, false, sw, iv, drawn, memB, iovB, skipB, len);
    RoundTripAcrossFragmentations(xf, ctx, iv, len, iovA, a0, a1, skipA, tA, outA,
                                  iovB, b0, memB[..], skipB, tB, outB);
  }

  /** Copies a flat slice from one buffer to another, and touches nothing else there. */
  method Carry(memA: array<byte>, iovA: seq<Iovec>, skipA: nat,
               memB: array<byte>, iovB: seq<Iovec>, skipB: nat, len: nat)
    returns (panicked: bool)
    requires Valid(iovA, memA.Length) && Valid(iovB, memB.Length) && memA != memB
    modifies memB
    ensures panicked <==> skipA + len > Total(iovA) || skipB + len > Total(iovB)
    ensures !panicked ==>
      Patched(iovB, old(memB[..]), memB[..], skipB, Flat(iovA, memA[..])[skipA..skipA + len])
  {
    var cp := new byte[len];
    panicked := CopyData(memA, iovA, skipA, len, cp);
    if !panicked {
      panicked := CopyBack(memB, iovB, skipB, len, cp);
    }
  }
}
