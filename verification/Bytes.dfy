/** Octet strings and the bulk operations on them that the crypto code shares. */
module Bytes {
  type byte = bv8

  datatype Option<+T> = None | Some(value: T)

  function Min(a: nat, b: nat): nat {
    if a < b then a else b
  }

  function Xor(a: seq<byte>, b: seq<byte>): (r: seq<byte>)
    requires |a| == |b|
    ensures |r| == |a|
    ensures forall i :: 0 <= i < |a| ==> r[i] == a[i] ^ b[i]
  {
    seq(|a|, i requires 0 <= i < |a| => a[i] ^ b[i])
  }

  lemma XorCancels(a: seq<byte>, b: seq<byte>)
    requires |a| == |b|
    ensures Xor(Xor(a, b), b) == a
  {
    forall i | 0 <= i < |a| ensures Xor(Xor(a, b), b)[i] == a[i] {
      ByteXorCancels(a[i], b[i]);
    }
  }

  lemma ByteXorCancels(x: byte, y: byte)
    ensures (x ^ y) ^ y == x
  {
  }

  lemma SubSlice<T>(s: seq<T>, a: nat, b: nat, k: nat, n: nat)
    requires a <= b <= |s| && k + n <= b - a
    ensures s[a..b][k..k + n] == s[a + k..a + k + n]
  {
    var x, y := s[a..b][k..k + n], s[a + k..a + k + n];
    forall i | 0 <= i < n ensures x[i] == y[i] {
      assert x[i] == s[a..b][k + i];
    }
  }

  lemma SubTail<T>(s: seq<T>, a: nat, k: nat, n: nat)
    requires a + k + n <= |s|
    ensures s[a..][k..k + n] == s[a + k..a + k + n]
  {
    assert s[a..] == s[a..|s|];
    SubSlice(s, a, |s|, k, n);
  }

  lemma SliceJoin<T>(s: seq<T>, a: nat, b: nat, c: nat)
    requires a <= b <= c <= |s|
    ensures s[a..c] == s[a..b] + s[b..c]
  {
  }

  lemma TakeJoin<T>(s: seq<T>, p: nat, q: nat)
    requires p <= q <= |s|
    ensures s[..q] == s[..p] + s[p..q]
    ensures s[..q][p..] == s[p..q]
    ensures s[..q][..p] == s[..p]
  {
  }

  lemma Regrouped<T>(a: seq<T>, b: seq<T>, c: seq<T>)
    ensures (a + b) + c == a + (b + c)
  {
  }

  lemma SliceToEnd<T>(s: seq<T>, n: nat, q: nat)
    requires n <= q == |s|
    ensures s[n..q] == s[n..]
  {
  }

  lemma SliceOfTake<T>(s: seq<T>, n: nat, p: nat, q: nat)
    requires p <= q <= n <= |s|
    ensures s[..n][p..q] == s[p..q] && s[..n][..p] == s[..p]
  {
  }

  /** `n` is a whole number of blocks of size `b`. */
  predicate Whole(n: nat, b: nat)
    requires b > 0
  {
    n == 0 || (n >= b && Whole(n - b, b))
  }

  lemma {:induction false} WholeIffDivisible(n: nat, b: nat)
    requires b > 0
    ensures Whole(n, b) <==> n % b == 0
  {
    if n >= b {
      WholeIffDivisible(n - b, b);
      ModMinus(n, b);
    } else if n > 0 {
      SmallMod(n, b);
    }
  }

  lemma {:induction false} WholeGap(x: nat, y: nat, b: nat)
    requires b > 0 && Whole(x, b) && Whole(y, b) && x < y
    ensures x + b <= y
    decreases x
  {
    if x == 0 {
    } else {
      WholeGap(x - b, y - b, b);
    }
  }

  lemma SmallMod(n: nat, b: nat)
    requires n < b
    ensures n % b == n
  {
  }

  lemma ModMinus(n: nat, b: nat)
    requires 0 < b <= n
    ensures (n - b) % b == n % b
  {
    assert n == b * (n / b) + n % b;
    assert n - b == b * (n / b - 1) + n % b;
    DivModUnique(n - b, b, n / b - 1, n % b);
  }

  lemma DivModUnique(n: int, b: nat, q: int, r: nat)
    requires r < b && n == b * q + r
    ensures n / b == q && n % b == r
  {
    var q', r' := n / b, n % b;
    assert n == b * q' + r';
    if q' > q {
      MulGap(b, q, q');
    } else if q' < q {
      MulGap(b, q', q);
    }
  }

  lemma MulGap(b: nat, x: int, y: int)
    requires x < y
    ensures b * x + b <= b * y
  {
    MulGrows(b, x, y - x);
  }

  lemma {:induction false} MulGrows(b: nat, x: int, d: nat)
    requires d > 0
    ensures b * x + b <= b * (x + d)
  {
    assert b * (x + d) == b * (x + d - 1) + b;
    if d > 1 {
      MulGrows(b, x, d - 1);
    }
  }

  /** `dst[d..d+n] ^= src[s..s+n]`, byte by byte, as the cipher modes do. */
  method XorInto(dst: array<byte>, d: nat, src: array<byte>, s: nat, n: nat)
    requires d + n <= dst.Length && s + n <= src.Length
    requires dst == src ==> d + n <= s || s + n <= d
    modifies dst
    ensures dst[d..d + n] == Xor(old(dst[d..d + n]), old(src[s..s + n]))
    ensures dst[..d] == old(dst[..d]) && dst[d + n..] == old(dst[d + n..])
  {
    for a := d to d + n
      invariant forall q :: d <= q < a ==> dst[q] == old(dst[q]) ^ old(src[q - d + s])
      invariant forall q :: 0 <= q < dst.Length && !(d <= q < a) ==> dst[q] == old(dst[q])
      invariant dst != src ==> src[..] == old(src[..])
    {
      dst[a] := dst[a] ^ src[a - d + s];
    }
    ghost var x := Xor(old(dst[d..d + n]), old(src[s..s + n]));
    forall i | 0 <= i < n ensures dst[d..d + n][i] == x[i] {
      assert dst[d + i] == old(dst[d + i]) ^ old(src[i + s]);
    }
    assert dst[..d] == old(dst[..d]) && dst[d + n..] == old(dst[d + n..]);
  }

  /** `bcopy` of a value into a buffer. */
  method CopyInto(dst: array<byte>, d: nat, data: seq<byte>)
    requires d + |data| <= dst.Length
    modifies dst
    ensures dst[d..d + |data|] == data
    ensures dst[..d] == old(dst[..d]) && dst[d + |data|..] == old(dst[d + |data|..])
  {
    forall j | 0 <= j < |data| {
      dst[d + j] := data[j];
    }
  }
}
