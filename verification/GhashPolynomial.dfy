/**
 * What `ghash_gfmul` multiplies (crypto/gmac.c): polynomials over GF(2), modulo x^128 + x^7 + x^2 + x + 1. Bit `i` of a
 * block is the coefficient of x^i, as section 6.3 of NIST SP 800-38D has it. Products here are sums over coefficients,
 * with no shifting and no reduction in them.
 */
module GhashPolynomial {
  import opened Ghash
  import opened GhashWords

  function Coefficient(p: seq<bool>, k: nat): bool {
    k < |p| && p[k]
  }

  /** The sum of `a[i] * b[k - i]` over the first `n` coefficients of `a`. */
  function PartialSum(a: seq<bool>, b: seq<bool>, k: nat, n: nat): bool {
    if n == 0 then false
    else PartialSum(a, b, k, n - 1) != (n - 1 <= k && Coefficient(a, n - 1) && Coefficient(b, k - (n - 1)))
  }

  /** Coefficient `k` of the product: the sum of `a[i] * b[j]` over `i + j == k`. */
  function Product(a: seq<bool>, b: seq<bool>, k: nat): bool {
    PartialSum(a, b, k, k + 1)
  }

  function Modulus(): seq<bool> {
    seq(129, i => i == 0 || i == 1 || i == 2 || i == 7 || i == 128)
  }

  /** `c` is the sum of `a` and `b`. */
  ghost predicate IsSum(a: seq<bool>, b: seq<bool>, c: seq<bool>) {
    forall k: nat :: Coefficient(c, k) == (Coefficient(a, k) != Coefficient(b, k))
  }

  function Plus(a: seq<bool>, b: seq<bool>): seq<bool> {
    seq(if |a| < |b| then |b| else |a|, i requires 0 <= i => Coefficient(a, i) != Coefficient(b, i))
  }

  lemma PlusIsSum(a: seq<bool>, b: seq<bool>)
    ensures IsSum(a, b, Plus(a, b))
  {
  }

  lemma {:induction false} SumOnRight(x: seq<bool>, a: seq<bool>, b: seq<bool>, c: seq<bool>, k: nat, n: nat)
    requires IsSum(a, b, c)
    ensures PartialSum(x, c, k, n) == (PartialSum(x, a, k, n) != PartialSum(x, b, k, n))
  {
    if n == 0 {
    } else {
      SumOnRight(x, a, b, c, k, n - 1);
    }
  }

  lemma {:induction false} SumOnLeft(a: seq<bool>, b: seq<bool>, c: seq<bool>, y: seq<bool>, k: nat, n: nat)
    requires IsSum(a, b, c)
    ensures PartialSum(c, y, k, n) == (PartialSum(a, y, k, n) != PartialSum(b, y, k, n))
  {
    if n == 0 {
    } else {
      SumOnLeft(a, b, c, y, k, n - 1);
    }
  }

  lemma {:induction false} NothingSums(a: seq<bool>, k: nat, n: nat)
    ensures !PartialSum([], a, k, n) && !PartialSum(a, [], k, n)
  {
    if n == 0 {
    } else {
      NothingSums(a, k, n - 1);
    }
  }

  /** The first coefficient apart, the rest meets the other factor times x. */
  lemma {:induction false} FirstApart(x: seq<bool>, y: seq<bool>, k: nat, n: nat)
    requires x != []
    ensures PartialSum(x, y, k, n + 1) == ((x[0] && Coefficient(y, k)) != PartialSum(x[1..], [false] + y, k, n))
  {
    if n == 0 {
      assert PartialSum(x, y, k, 1) == (PartialSum(x, y, k, 0) != (Coefficient(x, 0) && Coefficient(y, k)));
    } else {
      FirstApart(x, y, k, n - 1);
      ShiftedAt(y, k, n - 1);
    }
  }

  lemma ShiftedAt(y: seq<bool>, k: nat, i: nat)
    ensures i <= k ==> (Coefficient([false] + y, k - i) <==> i + 1 <= k && Coefficient(y, k - (i + 1)))
  {
  }

  lemma {:induction false} LastTermNothing(x: seq<bool>, y: seq<bool>, k: nat)
    ensures PartialSum(x, [false] + y, k, k + 1) == PartialSum(x, [false] + y, k, k)
  {
    ShiftedAt(y, k, k);
  }

  lemma ProductFirst(x: seq<bool>, y: seq<bool>, k: nat)
    requires x != []
    ensures Product(x, y, k) == ((x[0] && Coefficient(y, k)) != Product(x[1..], [false] + y, k))
  {
    FirstApart(x, y, k, k);
    LastTermNothing(x[1..], y, k);
  }

  /** The code's step: times x, less the modulus if the degree would be 128. */
  lemma StepReduces(v: Bits)
    ensures IsSum(StepBits(v), if v[127] then Modulus() else [], [false] + v)
  {
    var s, m, w := StepBits(v), if v[127] then Modulus() else [], [false] + v;
    forall k: nat ensures Coefficient(w, k) == (Coefficient(s, k) != Coefficient(m, k)) {
      if k < 128 {
        assert s[k] == StepBit(v, k);
      }
    }
  }

  /** How often the modulus comes off. */
  ghost function Quotient(x: seq<bool>, y: Bits): seq<bool>
    decreases |x|
  {
    if x == [] then [] else Plus(Quotient(x[1..], StepBits(y)), if y[127] then x[1..] else [])
  }

  /** What is left at one coefficient, given what is left of the rest. */
  lemma RemainderStep(x: seq<bool>, y: Bits, k: nat)
    requires x != []
    requires Product(x[1..], StepBits(y), k)
      == (Product(Quotient(x[1..], StepBits(y)), Modulus(), k)
          != Coefficient(Prod(BlockField(), x[1..], StepBits(y)), k))
    ensures Product(x, y, k)
      == (Product(Quotient(x, y), Modulus(), k) != Coefficient(Prod(BlockField(), x, y), k))
  {
    var r, s, m := x[1..], StepBits(y), if y[127] then Modulus() else [];
    var q, more := Quotient(r, s), if y[127] then r else [];
    ProductFirst(x, y, k);
    StepReduces(y);
    SumOnRight(r, s, m, [false] + y, k, k + 1);
    NothingSums(r, k, k + 1);
    NothingSums(Modulus(), k, k + 1);
    PlusIsSum(q, more);
    SumOnLeft(q, more, Plus(q, more), Modulus(), k, k + 1);
    SumAt(Pick(BlockField(), x[0], y), Prod(BlockField(), r, s), k);
    PickAt(x[0], y, k);
  }

  lemma SumAt(a: Bits, b: Bits, k: nat)
    ensures Coefficient(AddBits(a, b), k) == (Coefficient(a, k) != Coefficient(b, k))
  {
  }

  lemma PickAt(bit: bool, y: Bits, k: nat)
    ensures Coefficient(Pick(BlockField(), bit, y), k) == (bit && Coefficient(y, k))
  {
  }

  lemma {:induction false} RemainderAt(x: seq<bool>, y: Bits, k: nat)
    ensures Product(x, y, k)
      == (Product(Quotient(x, y), Modulus(), k) != Coefficient(Prod(BlockField(), x, y), k))
    decreases |x|
  {
    if x == [] {
      NothingSums(y, k, k + 1);
      NothingSums(Modulus(), k, k + 1);
    } else {
      RemainderAt(x[1..], StepBits(y), k);
      RemainderStep(x, y, k);
    }
  }

  /** `r` is what is left of `a * b` when `q` times the modulus is taken off. */
  ghost predicate Leaves(a: seq<bool>, b: seq<bool>, q: seq<bool>, r: seq<bool>) {
    forall k: nat :: Product(a, b, k) == (Product(q, Modulus(), k) != Coefficient(r, k))
  }

  /** The code's product is the product of polynomials, less a multiple of the modulus. */
  lemma MulIsRemainder(a: Bits, b: Bits) returns (q: seq<bool>)
    ensures Leaves(a, b, q, Mul(BlockField(), a, b))
  {
    q := Quotient(a, b);
    forall k: nat ensures Product(a, b, k) == (Product(q, Modulus(), k) != Coefficient(Mul(BlockField(), a, b), k)) {
      RemainderAt(a, b, k);
    }
  }

  // ----- There is only one such remainder -----

  /** The highest coefficient of a polynomial that has one. */
  lemma {:induction false} Highest(p: seq<bool>) returns (d: nat)
    requires exists i: nat :: Coefficient(p, i)
    ensures Coefficient(p, d) && forall i: nat :: i > d ==> !Coefficient(p, i)
    decreases |p|
  {
    var n: nat := |p| - 1;
    if p[n] {
      d := n;
    } else {
      var i: nat :| Coefficient(p, i);
      assert Coefficient(p[..n], i);
      d := Highest(p[..n]);
      forall j: nat | j > d ensures !Coefficient(p, j) {
        assert !Coefficient(p[..n], j);
      }
    }
  }

  /** A multiple of the modulus has degree 128 or more. */
  lemma {:induction false} MultipleIsHigh(q: seq<bool>, d: nat, n: nat)
    requires Coefficient(q, d) && forall i: nat :: i > d ==> !Coefficient(q, i)
    ensures PartialSum(q, Modulus(), d + 128, n) == (n > d)
  {
    if n == 0 {
    } else {
      MultipleIsHigh(q, d, n - 1);
    }
  }

  lemma LeftBoth(a: seq<bool>, b: seq<bool>, q: seq<bool>, r: seq<bool>, q': seq<bool>, r': seq<bool>, k: nat)
    requires Leaves(a, b, q, r) && Leaves(a, b, q', r')
    ensures (Product(q, Modulus(), k) != Coefficient(r, k)) == (Product(q', Modulus(), k) != Coefficient(r', k))
  {
    assert Product(a, b, k) == (Product(q, Modulus(), k) != Coefficient(r, k));
  }

  /** Of degree below 128, what is left is unique. */
  lemma RemainderUnique(a: seq<bool>, b: seq<bool>, q: seq<bool>, r: Bits, q': seq<bool>, r': Bits)
    requires Leaves(a, b, q, r) && Leaves(a, b, q', r')
    ensures r == r'
  {
    var p := Plus(q, q');
    PlusIsSum(q, q');
    if exists i: nat :: Coefficient(p, i) {
      var d := Highest(p);
      var k := d + 128;
      LeftBoth(a, b, q, r, q', r', k);
      SumOnLeft(q, q', p, Modulus(), k, k + 1);
      MultipleIsHigh(p, d, k + 1);
      assert false;
    } else {
      forall k: nat | k < 128 ensures r[k] == r'[k] {
        LeftBoth(a, b, q, r, q', r', k);
        SumOnLeft(q, q', p, Modulus(), k, k + 1);
        ZeroSums(p, Modulus(), k, k + 1);
      }
    }
  }

  lemma {:induction false} ZeroSums(p: seq<bool>, y: seq<bool>, k: nat, n: nat)
    requires forall i: nat :: !Coefficient(p, i)
    ensures !PartialSum(p, y, k, n)
  {
    if n == 0 {
    } else {
      ZeroSums(p, y, k, n - 1);
    }
  }

  /** `ghash_gfmul` computes the remainder, and nothing else is it. */
  method GfMulModulus(x: Bits, y: Bits) returns (product: Bits, ghost q: seq<bool>)
    ensures Leaves(x, y, q, product)
    ensures forall q': seq<bool>, r: Bits :: Leaves(x, y, q', r) ==> r == product
  {
    product := GfMul(x, y);
    q := MulIsRemainder(x, y);
    forall q': seq<bool>, r: Bits | Leaves(x, y, q', r) ensures r == product {
      RemainderUnique(x, y, q, product, q', r);
    }
  }
}
