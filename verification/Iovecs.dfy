/**
 Scatter/gather buffers (crypto/criov.c). Memory is one array of octets and an
 iovec is an address range in it, so that two iovecs, or an iovec and a pointer
 into it, can alias exactly as they can in the kernel.
 */
module Iovecs {
  import opened Bytes

  datatype Iovec = Iovec(base: nat, len: nat)

  /** A `panic` stops the machine; it is an outcome of its own. */
  datatype Outcome = Done | Einval | Panic

  /** Flat position of the first octet of iovec `i`. */
  function Start(iov: seq<Iovec>, i: nat): nat
    requires i <= |iov|
  {
    if i == 0 then 0 else Start(iov, i - 1) + iov[i - 1].len
  }

  function Total(iov: seq<Iovec>): nat {
    Start(iov, |iov|)
  }

  predicate Apart(iov: seq<Iovec>, i: nat, j: nat)
    requires i < |iov| && j < |iov|
  {
    var x, y := iov[i], iov[j];
    x.len == 0 || y.len == 0 || x.base + x.len <= y.base || y.base + y.len <= x.base
  }

  /** Every iovec lies in a memory of `size` octets and no two overlap. */
  predicate Valid(iov: seq<Iovec>, size: nat) {
    && Within(iov, size)
    && (forall i, j :: 0 <= i < |iov| && 0 <= j < |iov| && i != j ==> Apart(iov, i, j))
  }

  function Octets(m: seq<byte>, v: Iovec): (r: seq<byte>)
    requires v.base + v.len <= |m|
    ensures |r| == v.len
  {
    m[v.base..v.base + v.len]
  }

  predicate Within(iov: seq<Iovec>, size: nat) {
    forall i :: 0 <= i < |iov| ==> iov[i].base + iov[i].len <= size
  }

  /** The first `n` iovecs read as one octet string. */
  function Gather(iov: seq<Iovec>, m: seq<byte>, n: nat): (r: seq<byte>)
    requires Within(iov, |m|) && n <= |iov|
    ensures |r| == Start(iov, n)
  {
    if n == 0 then [] else Gather(iov, m, n - 1) + Octets(m, iov[n - 1])
  }

  /** The whole buffer read as one octet string. */
  function Flat(iov: seq<Iovec>, m: seq<byte>): (r: seq<byte>)
    requires Within(iov, |m|)
    ensures |r| == Total(iov)
  {
    Gather(iov, m, |iov|)
  }

  /** `s` with `data` written over it from position `lo`. */
  function Splice(s: seq<byte>, lo: nat, data: seq<byte>): seq<byte>
    requires lo + |data| <= |s|
  {
    s[..lo] + data + s[lo + |data|..]
  }

  predicate Covered(iov: seq<Iovec>, a: nat) {
    exists i :: 0 <= i < |iov| && iov[i].base <= a < iov[i].base + iov[i].len
  }

  /** `m1` is `m0` with `data` stored at flat position `lo`, every other octet of memory kept. */
  ghost predicate IsPatch(iov: seq<Iovec>, m0: seq<byte>, m1: seq<byte>, lo: nat, data: seq<byte>)
    requires Within(iov, |m0|)
  {
    && |m1| == |m0|
    && lo + |data| <= Total(iov)
    && Flat(iov, m1) == Splice(Flat(iov, m0), lo, data)
    && (forall a :: 0 <= a < |m0| && !Covered(iov, a) ==> m1[a] == m0[a])
  }

  /** All such memories, as a set: a method can then carry one along without looking into it. */
  ghost function Patches(iov: seq<Iovec>, m0: seq<byte>, lo: nat, data: seq<byte>): iset<seq<byte>>
    requires Within(iov, |m0|)
  {
    iset m1: seq<byte> | IsPatch(iov, m0, m1, lo, data)
  }

  ghost predicate Patched(iov: seq<Iovec>, m0: seq<byte>, m1: seq<byte>, lo: nat, data: seq<byte>)
    requires Within(iov, |m0|)
  {
    m1 in Patches(iov, m0, lo, data)
  }

  lemma {:induction false} StartMonotone(iov: seq<Iovec>, i: nat, j: nat)
    requires i <= j <= |iov|
    ensures Start(iov, i) <= Start(iov, j)
  {
    if i < j {
      StartMonotone(iov, i, j - 1);
    }
  }

  lemma PatchNothing(iov: seq<Iovec>, m: seq<byte>, lo: nat)
    requires Within(iov, |m|) && lo <= Total(iov)
    ensures Patched(iov, m, m, lo, [])
  {
  }

  lemma PatchExtends(iov: seq<Iovec>, m0: seq<byte>, m1: seq<byte>, m2: seq<byte>,
                     lo: nat, d1: seq<byte>, d2: seq<byte>)
    requires Within(iov, |m0|) && Patched(iov, m0, m1, lo, d1)
    requires Patched(iov, m1, m2, lo + |d1|, d2)
    ensures Patched(iov, m0, m2, lo, d1 + d2)
  {
    SpliceTwice(Flat(iov, m0), lo, d1, d2);
  }

  /** `n` octets at flat position `at`. */
  function Part(iov: seq<Iovec>, m: seq<byte>, at: nat, n: nat): (r: seq<byte>)
    requires Within(iov, |m|) && at + n <= Total(iov)
    ensures |r| == n
  {
    Flat(iov, m)[at..at + n]
  }

  /** `m` octets at `a` and `n` octets at `b` have none in common. */
  predicate Disjoint(a: nat, m: nat, b: nat, n: nat) {
    a + m <= b || b + n <= a
  }

  /** The octets stored are there. */
  lemma PatchedHere(iov: seq<Iovec>, m0: seq<byte>, m1: seq<byte>, lo: nat, data: seq<byte>)
    requires Within(iov, |m0|) && Patched(iov, m0, m1, lo, data)
    ensures |m1| == |m0| && lo + |data| <= Total(iov) && Part(iov, m1, lo, |data|) == data
  {
    SpliceParts(Flat(iov, m0), lo, data, 0, 0);
  }

  /** Those elsewhere are as they were. */
  lemma PatchedElsewhere(iov: seq<Iovec>, m0: seq<byte>, m1: seq<byte>, lo: nat, data: seq<byte>, at: nat, n: nat)
    requires Within(iov, |m0|) && Patched(iov, m0, m1, lo, data)
    requires at + n <= Total(iov) && Disjoint(lo, |data|, at, n)
    ensures |m1| == |m0| && Part(iov, m1, at, n) == Part(iov, m0, at, n)
  {
    SpliceParts(Flat(iov, m0), lo, data, at, n);
  }

  lemma SpliceParts(s: seq<byte>, lo: nat, data: seq<byte>, at: nat, n: nat)
    requires lo + |data| <= |s| && at + n <= |s|
    ensures Splice(s, lo, data)[lo..lo + |data|] == data
    ensures Disjoint(lo, |data|, at, n) ==> Splice(s, lo, data)[at..at + n] == s[at..at + n]
  {
  }

  lemma SpliceTwice(s: seq<byte>, lo: nat, d1: seq<byte>, d2: seq<byte>)
    requires lo + |d1| + |d2| <= |s|
    ensures Splice(Splice(s, lo, d1), lo + |d1|, d2) == Splice(s, lo, d1 + d2)
  {
  }

  lemma {:induction false} GatherPrefix(iov: seq<Iovec>, m: seq<byte>, i: nat, n: nat)
    requires Within(iov, |m|) && i <= n <= |iov|
    ensures Gather(iov, m, i) <= Gather(iov, m, n)
  {
    if i < n {
      GatherPrefix(iov, m, i, n - 1);
    }
  }

  /** The octets of one iovec are a stretch of the flat string. */
  lemma ReadInside(iov: seq<Iovec>, m: seq<byte>, i: nat, k: nat, n: nat)
    requires Within(iov, |m|) && i < |iov| && k + n <= iov[i].len
    ensures Start(iov, i) + k + n <= Total(iov)
    ensures m[iov[i].base + k..iov[i].base + k + n] == Flat(iov, m)[Start(iov, i) + k..Start(iov, i) + k + n]
  {
    FlatOctets(iov, m, i);
    SubSlice(m, iov[i].base, iov[i].base + iov[i].len, k, n);
    SubSlice(Flat(iov, m), Start(iov, i), Start(iov, i + 1), k, n);
  }

  lemma FlatOctets(iov: seq<Iovec>, m: seq<byte>, i: nat)
    requires Within(iov, |m|) && i < |iov|
    ensures Start(iov, i + 1) <= Total(iov)
    ensures Flat(iov, m)[Start(iov, i)..Start(iov, i + 1)] == Octets(m, iov[i])
  {
    GatherPrefix(iov, m, i + 1, |iov|);
    MiddlePart(Gather(iov, m, i), Octets(m, iov[i]), Flat(iov, m));
  }

  lemma MiddlePart(a: seq<byte>, b: seq<byte>, whole: seq<byte>)
    requires a + b <= whole
    ensures whole[|a|..|a| + |b|] == b
  {
    assert (a + b)[|a|..|a| + |b|] == b;
  }

  /** `m1` is `m0` with `data` stored at address `at`. */
  predicate Stored(m0: seq<byte>, m1: seq<byte>, at: nat, data: seq<byte>) {
    && |m1| == |m0| && at + |data| <= |m0|
    && forall a :: 0 <= a < |m0| ==> m1[a] == if at <= a < at + |data| then data[a - at] else m0[a]
  }

  /** Rewriting `data` in place inside one iovec is a patch. */
  lemma PatchInside(iov: seq<Iovec>, m0: seq<byte>, m1: seq<byte>, i: nat, k: nat, data: seq<byte>)
    requires Valid(iov, |m0|) && i < |iov| && k + |data| <= iov[i].len
    requires Stored(m0, m1, iov[i].base + k, data)
    ensures Patched(iov, m0, m1, Start(iov, i) + k, data)
  {
    StartMonotone(iov, i + 1, |iov|);
    GatherStored(iov, m0, m1, i, k, data, |iov|);
  }

  lemma {:induction false} GatherBefore(iov: seq<Iovec>, m0: seq<byte>, m1: seq<byte>,
                                        i: nat, k: nat, data: seq<byte>, n: nat)
    requires Valid(iov, |m0|) && n <= i < |iov| && k + |data| <= iov[i].len
    requires Stored(m0, m1, iov[i].base + k, data)
    ensures Gather(iov, m1, n) == Gather(iov, m0, n)
  {
    if n == 0 {
    } else {
      GatherBefore(iov, m0, m1, i, k, data, n - 1);
      assert Apart(iov, n - 1, i);
      StoredElsewhere(m0, m1, iov[i].base + k, data, iov[n - 1]);
    }
  }

  lemma {:induction false} GatherStored(iov: seq<Iovec>, m0: seq<byte>, m1: seq<byte>,
                                        i: nat, k: nat, data: seq<byte>, n: nat)
    requires Valid(iov, |m0|) && i < n <= |iov| && k + |data| <= iov[i].len
    requires Stored(m0, m1, iov[i].base + k, data)
    ensures Start(iov, i) + k + |data| <= Start(iov, n)
    ensures Gather(iov, m1, n) == Splice(Gather(iov, m0, n), Start(iov, i) + k, data)
  {
    if n - 1 == i {
      GatherHere(iov, m0, m1, i, k, data);
    } else {
      GatherStored(iov, m0, m1, i, k, data, n - 1);
      GatherThere(iov, m0, m1, i, k, data, n, Start(iov, i) + k);
    }
  }

  lemma GatherThere(iov: seq<Iovec>, m0: seq<byte>, m1: seq<byte>, i: nat, k: nat, data: seq<byte>, n: nat, at: nat)
    requires Valid(iov, |m0|) && i < n - 1 < |iov| && k + |data| <= iov[i].len
    requires Stored(m0, m1, iov[i].base + k, data) && at + |data| <= Start(iov, n - 1)
    requires Gather(iov, m1, n - 1) == Splice(Gather(iov, m0, n - 1), at, data)
    ensures Gather(iov, m1, n) == Splice(Gather(iov, m0, n), at, data)
  {
    assert Apart(iov, n - 1, i);
    StoredElsewhere(m0, m1, iov[i].base + k, data, iov[n - 1]);
    SpliceLeft(Gather(iov, m0, n - 1), Octets(m0, iov[n - 1]), at, data);
  }

  lemma GatherHere(iov: seq<Iovec>, m0: seq<byte>, m1: seq<byte>, i: nat, k: nat, data: seq<byte>)
    requires Valid(iov, |m0|) && i < |iov| && k + |data| <= iov[i].len
    requires Stored(m0, m1, iov[i].base + k, data)
    ensures Gather(iov, m1, i + 1) == Splice(Gather(iov, m0, i + 1), Start(iov, i) + k, data)
  {
    GatherBefore(iov, m0, m1, i, k, data, i);
    StoredHere(m0, m1, iov[i], k, data);
    var s, t := Gather(iov, m0, i), Octets(m0, iov[i]);
    assert Gather(iov, m0, i + 1) == s + t && Gather(iov, m1, i + 1) == s + Octets(m1, iov[i]);
    SpliceRight(s, t, k, data);
  }

  lemma StoredHere(m0: seq<byte>, m1: seq<byte>, v: Iovec, k: nat, data: seq<byte>)
    requires k + |data| <= v.len && v.base + v.len <= |m0| && Stored(m0, m1, v.base + k, data)
    ensures Octets(m1, v) == Splice(Octets(m0, v), k, data)
  {
  }

  lemma StoredElsewhere(m0: seq<byte>, m1: seq<byte>, at: nat, data: seq<byte>, v: Iovec)
    requires Stored(m0, m1, at, data) && v.base + v.len <= |m0|
    requires v.len == 0 || data == [] || v.base + v.len <= at || at + |data| <= v.base
    ensures Octets(m1, v) == Octets(m0, v)
  {
  }

  lemma SpliceRight(s: seq<byte>, t: seq<byte>, k: nat, data: seq<byte>)
    requires k + |data| <= |t|
    ensures Splice(s + t, |s| + k, data) == s + Splice(t, k, data)
  {
  }

  lemma SpliceLeft(s: seq<byte>, t: seq<byte>, lo: nat, data: seq<byte>)
    requires lo + |data| <= |s|
    ensures Splice(s + t, lo, data) == Splice(s, lo, data) + t
  {
  }

  /** The common skip loop of `cuio_copydata`, `cuio_copyback` and `cuio_apply`. */
  method Skip(iov: seq<Iovec>, off0: nat) returns (panicked: bool, ind: nat, off: nat)
    ensures panicked <==> off0 > Total(iov)
    ensures !panicked ==> (ind, off) == SkipFrom(iov, 0, off0)
  {
    ind, off := 0, off0;
    while off > 0
      invariant ind <= |iov| && Start(iov, ind) + off == off0
      invariant off0 <= Total(iov) ==> SkipFrom(iov, 0, off0) == SkipFrom(iov, ind, off)
      decreases |iov| - ind
    {
      if ind == |iov| {
        return true, ind, off;
      }
      StartMonotone(iov, ind + 1, |iov|);
      if off < iov[ind].len {
        break;
      }
      off := off - iov[ind].len;
      ind := ind + 1;
    }
    StartMonotone(iov, ind, |iov|);
    panicked := false;
  }

  /** Copies `n` more octets out of one iovec, behind the `d` octets of the slice at `off` already copied. */
  method LoadInside(mem: array<byte>, iov: seq<Iovec>, i: nat, k: nat, n: nat, cp: array<byte>, d: nat,
                    ghost off: nat, ghost flat: seq<byte>)
    returns (d': nat)
    requires Within(iov, mem.Length) && cp != mem && flat == Flat(iov, mem[..])
    requires i < |iov| && k + n <= iov[i].len && d + n <= cp.Length
    requires Start(iov, i) + k == off + d <= |flat| && cp[..d] == flat[off..off + d]
    modifies cp
    ensures d' == d + n && off + d' <= |flat| && cp[..d'] == flat[off..off + d']
  {
    ReadInside(iov, mem[..], i, k, n);
    var base := iov[i].base + k;
    d' := d + n;
    CopyInto(cp, d, mem[base..base + n]);
    CopiedMore(cp[..], flat, off, d, d');
  }

  lemma CopiedMore(cp: seq<byte>, flat: seq<byte>, off: nat, d: nat, d': nat)
    requires d <= d' <= |cp| && off + d' <= |flat|
    requires cp[..d] == flat[off..off + d] && cp[d..d'] == flat[off + d..off + d']
    ensures cp[..d'] == flat[off..off + d']
  {
    TakeJoin(cp, d, d');
    SliceJoin(flat, off, off + d, off + d');
  }

  /** `cuio_copydata`: gather `len` octets at flat position `off` into `cp`. */
  method CopyData(mem: array<byte>, iov: seq<Iovec>, off: nat, len: nat, cp: array<byte>)
    returns (panicked: bool)
    requires Valid(iov, mem.Length) && len <= cp.Length && cp != mem
    modifies cp
    ensures panicked <==> off + len > Total(iov)
    ensures !panicked ==> cp[..len] == Flat(iov, mem[..])[off..off + len]
  {
    var bad, ind: nat, o: nat := Skip(iov, off);
    if bad {
      return true;
    }
    panicked := CopyDataFrom(mem, iov, ind, o, len, cp, off);
  }

  /** The copying loop, from offset `o0` of iovec `ind0` on. */
  method CopyDataFrom(mem: array<byte>, iov: seq<Iovec>, ind0: nat, o0: nat, len: nat, cp: array<byte>, ghost off: nat)
    returns (panicked: bool)
    requires Valid(iov, mem.Length) && len <= cp.Length && cp != mem
    requires Here(iov, ind0, o0, off) && off <= Total(iov)
    modifies cp
    ensures panicked <==> off + len > Total(iov)
    ensures !panicked ==> cp[..len] == Flat(iov, mem[..])[off..off + len]
  {
    ghost var flat := Flat(iov, mem[..]);
    var ind: nat, o: nat, done: nat := ind0, o0, 0;
    while done < len
      invariant done <= len && off + done <= |flat| && (done < len ==> Here(iov, ind, o, off + done))
      invariant ind <= |iov| && cp[..done] == flat[off..off + done]
      decreases |iov| - ind
    {
      if ind == |iov| {
        return true;
      }
      var count := Min(iov[ind].len - o, len - done);
      HereNext(iov, ind, o, off + done);
      done := LoadInside(mem, iov, ind, o, count, cp, done, off, flat);
      o, ind := 0, ind + 1;
    }
    panicked := false;
  }

  /** Offset `o` of iovec `ind` is flat position `p`. */
  predicate Here(iov: seq<Iovec>, ind: nat, o: nat, p: nat) {
    ind <= |iov| && Start(iov, ind) + o == p && (o > 0 ==> ind < |iov| && o < iov[ind].len)
  }

  lemma HereNext(iov: seq<Iovec>, ind: nat, o: nat, p: nat)
    requires Here(iov, ind, o, p) && ind < |iov|
    ensures Here(iov, ind + 1, 0, p + (iov[ind].len - o))
  {
  }

  method StoreInside(mem: array<byte>, iov: seq<Iovec>, i: nat, k: nat, data: seq<byte>)
    requires Valid(iov, mem.Length) && i < |iov| && k + |data| <= iov[i].len
    modifies mem
    ensures Patched(iov, old(mem[..]), mem[..], Start(iov, i) + k, data)
  {
    var at := iov[i].base + k;
    forall j | 0 <= j < |data| {
      mem[at + j] := data[j];
    }
    PatchInside(iov, old(mem[..]), mem[..], i, k, data);
  }

  /** Stores `n` more octets of `data` into one iovec, behind the `d` octets already stored at `off`. */
  method StoreMore(mem: array<byte>, iov: seq<Iovec>, i: nat, k: nat, n: nat, data: seq<byte>, d: nat,
                   ghost off: nat, ghost m0: seq<byte>)
    returns (d': nat)
    requires Valid(iov, mem.Length) && |m0| == mem.Length
    requires i < |iov| && k + n <= iov[i].len && d + n <= |data|
    requires Start(iov, i) + k == off + d && off + d <= Total(iov) && Patched(iov, m0, mem[..], off, data[..d])
    modifies mem
    ensures d' == d + n && off + d' <= Total(iov) && Patched(iov, m0, mem[..], off, data[..d'])
  {
    ghost var cur := mem[..];
    var piece := data[d..d + n];
    StartMonotone(iov, i + 1, |iov|);
    StoreInside(mem, iov, i, k, piece);
    MorePatched(iov, m0, cur, mem[..], off, data, d, n);
    d' := d + n;
  }

  lemma MorePatched(iov: seq<Iovec>, m0: seq<byte>, m1: seq<byte>, m2: seq<byte>, off: nat, data: seq<byte>,
                    d: nat, n: nat)
    requires Valid(iov, |m0|) && |m1| == |m0| && d + n <= |data|
    requires Patched(iov, m0, m1, off, data[..d]) && Patched(iov, m1, m2, off + d, data[d..d + n])
    ensures Patched(iov, m0, m2, off, data[..d + n]) && off + (d + n) <= Total(iov)
  {
    PatchExtends(iov, m0, m1, m2, off, data[..d], data[d..d + n]);
    TakeJoin(data, d, d + n);
  }

  /** `cuio_copyback`: scatter the first `len` octets of `cp` to flat position `off`. */
  method CopyBack(mem: array<byte>, iov: seq<Iovec>, off: nat, len: nat, cp: array<byte>)
    returns (panicked: bool)
    requires Valid(iov, mem.Length) && len <= cp.Length && cp != mem
    modifies mem
    ensures panicked <==> off + len > Total(iov)
    ensures !panicked ==> Patched(iov, old(mem[..]), mem[..], off, cp[..len])
  {
    var bad, ind: nat, o: nat := Skip(iov, off);
    if bad {
      return true;
    }
    panicked := CopyBackFrom(mem, iov, ind, o, cp[..len], off);
  }

  /** The copying loop, from offset `o0` of iovec `ind0` on. */
  method CopyBackFrom(mem: array<byte>, iov: seq<Iovec>, ind0: nat, o0: nat, data: seq<byte>, ghost off: nat)
    returns (panicked: bool)
    requires Valid(iov, mem.Length) && Here(iov, ind0, o0, off) && off <= Total(iov)
    modifies mem
    ensures panicked <==> off + |data| > Total(iov)
    ensures !panicked ==> Patched(iov, old(mem[..]), mem[..], off, data)
  {
    ghost var m0 := mem[..];
    var ind: nat, o: nat, done: nat := ind0, o0, 0;
    PatchNothing(iov, m0, off);
    while done < |data|
      invariant done <= |data| && off + done <= Total(iov) && (done < |data| ==> Here(iov, ind, o, off + done))
      invariant ind <= |iov| && Patched(iov, m0, mem[..], off, data[..done])
      decreases |iov| - ind
    {
      if ind == |iov| {
        return true;
      }
      var count := Min(iov[ind].len - o, |data| - done);
      HereNext(iov, ind, o, off + done);
      done := StoreMore(mem, iov, ind, o, count, data, done, off, m0);
      o, ind := 0, ind + 1;
    }
    assert data[..|data|] == data;
    panicked := false;
  }

  /** `cuio_getptr`: the iovec and the offset in it of flat position `loc`, or `None` for -1. */
  method GetPtr(iov: seq<Iovec>, loc: int) returns (r: Option<(nat, nat)>)
    ensures r.Some? <==> 0 <= loc <= Total(iov) && |iov| > 0
    ensures r.Some? ==> r.value.0 < |iov| && Start(iov, r.value.0) + r.value.1 == loc
    ensures r.Some? ==> r.value.1 <= iov[r.value.0].len
    ensures r.Some? && r.value.1 == iov[r.value.0].len ==> loc == Total(iov)
  {
    var l, ind := loc, 0;
    while l >= 0 && ind < |iov|
      invariant 0 <= ind <= |iov| && Start(iov, ind) + l == loc
      invariant l < 0 ==> ind == 0
    {
      StartMonotone(iov, ind + 1, |iov|);
      if iov[ind].len > l {
        return Some((ind, l));
      }
      l := l - iov[ind].len;
      ind := ind + 1;
    }
    if ind > 0 && l == 0 {
      ind := ind - 1;
      return Some((ind, iov[ind].len));
    }
    return None;
  }

  /** Where the skip loop stops. */
  function SkipFrom(iov: seq<Iovec>, ind: nat, off: nat): (r: (nat, nat))
    requires ind <= |iov| && Start(iov, ind) + off <= Total(iov)
    ensures r.0 <= |iov| && Start(iov, r.0) + r.1 == Start(iov, ind) + off
    ensures r.1 > 0 ==> r.0 < |iov| && r.1 < iov[r.0].len
    decreases |iov| - ind
  {
    if off == 0 || off < iov[ind].len then (ind, off) else SkipFrom(iov, ind + 1, off - iov[ind].len)
  }
}
