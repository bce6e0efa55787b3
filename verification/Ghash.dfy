/**
 * GHASH (crypto/gmac.c; sections 6.3 and 6.4 of NIST SP 800-38D). Multiplication by the shift
 * and add loop is shown to be bilinear, commutative and associative, so that hashing block by
 * block is the sum of the blocks times powers of the hash subkey. This part needs only a
 * group with a linear `step` (multiplication by the generator); GhashWords supplies the 128-bit
 * blocks and the loop over 32-bit words.
 */
module Ghash {

  const GMAC_BLOCK_LEN := 16

  datatype Field<!V> = Field(
    zero: V, unit: V,
    add: (V, V) -> V,
    step: V -> V,
    bits: V -> seq<bool>)

  predicate GroupLaw<V(==)>(f: Field<V>, a: V, b: V, c: V) {
    && f.add(a, b) == f.add(b, a)
    && f.add(f.add(a, b), c) == f.add(a, f.add(b, c))
    && f.add(a, f.zero) == a && f.add(a, a) == f.zero
  }

  predicate StepLaw<V(==)>(f: Field<V>, a: V, b: V) {
    f.step(f.add(a, b)) == f.add(f.step(a), f.step(b)) && f.step(f.zero) == f.zero
  }

  /** A value is the combination of generator powers that its bits name, and bits add like values. */
  predicate BitsLaw<V(==)>(f: Field<V>, a: V, b: V) {
    && Prod(f, f.bits(a), f.unit) == a
    && |f.bits(a)| == |f.bits(b)|
    && f.bits(f.add(a, b)) == XorBits(f.bits(a), f.bits(b))
  }

  ghost predicate IsGroup<V(!new)>(f: Field<V>) {
    && (forall a, b, c :: GroupLaw(f, a, b, c))
    && (forall a, b :: StepLaw(f, a, b))
  }

  ghost predicate ValidField<V(!new)>(f: Field<V>) {
    IsGroup(f) && forall a, b :: BitsLaw(f, a, b)
  }

  function XorBits(x: seq<bool>, y: seq<bool>): (r: seq<bool>)
    ensures |x| == |y| ==> |r| == |x|
  {
    if |x| == |y| then seq(|x|, i requires 0 <= i < |x| => x[i] != y[i]) else []
  }

  /** `v & mask` */
  function Pick<V>(f: Field<V>, bit: bool, v: V): V {
    if bit then v else f.zero
  }

  /** The sum of `step^i(y)` over the set bits `i` of `x`. */
  function Prod<V>(f: Field<V>, x: seq<bool>, y: V): V {
    if x == [] then f.zero else f.add(Pick(f, x[0], y), Prod(f, x[1..], f.step(y)))
  }

  function Mul<V>(f: Field<V>, a: V, b: V): V {
    Prod(f, f.bits(a), b)
  }

  lemma Regroup<V(!new)>(f: Field<V>, a: V, b: V, c: V, d: V)
    requires IsGroup(f)
    ensures f.add(f.add(a, b), f.add(c, d)) == f.add(f.add(a, c), f.add(b, d))
  {
    assert GroupLaw(f, a, b, f.add(c, d)) && GroupLaw(f, b, c, d) && GroupLaw(f, c, b, d);
    assert GroupLaw(f, a, c, f.add(b, d));
  }

  lemma ZeroTwice<V(!new)>(f: Field<V>)
    requires IsGroup(f)
    ensures f.add(f.zero, f.zero) == f.zero && f.step(f.zero) == f.zero
  {
    assert GroupLaw(f, f.zero, f.zero, f.zero) && StepLaw(f, f.zero, f.zero);
  }

  lemma {:induction false} ProdAdd<V(!new)>(f: Field<V>, x: seq<bool>, a: V, b: V)
    requires IsGroup(f)
    ensures Prod(f, x, f.add(a, b)) == f.add(Prod(f, x, a), Prod(f, x, b))
    decreases |x|
  {
    ZeroTwice(f);
    if x == [] {
    } else {
      ProdAdd(f, x[1..], f.step(a), f.step(b));
      assert StepLaw(f, a, b);
      Regroup(f, Pick(f, x[0], a), Pick(f, x[0], b), Prod(f, x[1..], f.step(a)), Prod(f, x[1..], f.step(b)));
    }
  }

  lemma {:induction false} ProdStep<V(!new)>(f: Field<V>, x: seq<bool>, y: V)
    requires IsGroup(f)
    ensures Prod(f, x, f.step(y)) == f.step(Prod(f, x, y))
    decreases |x|
  {
    ZeroTwice(f);
    if x == [] {
    } else {
      ProdStep(f, x[1..], f.step(y));
      assert StepLaw(f, Pick(f, x[0], y), Prod(f, x[1..], f.step(y)));
    }
  }

  lemma {:induction false} ProdZero<V(!new)>(f: Field<V>, x: seq<bool>)
    requires IsGroup(f)
    ensures Prod(f, x, f.zero) == f.zero
    decreases |x|
  {
    ZeroTwice(f);
    if x == [] {
    } else {
      ProdZero(f, x[1..]);
    }
  }

  /** Multiplications, as operators, commute. */
  lemma {:induction false} ProdsCommute<V(!new)>(f: Field<V>, x: seq<bool>, y: seq<bool>, z: V)
    requires IsGroup(f)
    ensures Prod(f, x, Prod(f, y, z)) == Prod(f, y, Prod(f, x, z))
    decreases |x|
  {
    if x == [] {
      ProdZero(f, y);
    } else {
      ProdStep(f, y, z);
      ProdsCommute(f, x[1..], y, f.step(z));
      ProdZero(f, y);
      ProdAdd(f, y, Pick(f, x[0], z), Prod(f, x[1..], f.step(z)));
    }
  }

  lemma {:induction false} ProdXor<V(!new)>(f: Field<V>, x: seq<bool>, y: seq<bool>, z: V)
    requires IsGroup(f) && |x| == |y|
    ensures Prod(f, XorBits(x, y), z) == f.add(Prod(f, x, z), Prod(f, y, z))
    decreases |x|
  {
    ZeroTwice(f);
    if x == [] {
    } else {
      assert XorBits(x, y)[1..] == XorBits(x[1..], y[1..]);
      ProdXor(f, x[1..], y[1..], f.step(z));
      assert GroupLaw(f, z, f.zero, f.zero);
      Regroup(f, Pick(f, x[0], z), Pick(f, y[0], z), Prod(f, x[1..], f.step(z)), Prod(f, y[1..], f.step(z)));
    }
  }

  lemma MulDistributes<V(!new)>(f: Field<V>, a: V, b: V, c: V)
    requires ValidField(f)
    ensures Mul(f, f.add(a, b), c) == f.add(Mul(f, a, c), Mul(f, b, c))
  {
    assert BitsLaw(f, a, b);
    ProdXor(f, f.bits(a), f.bits(b), c);
  }

  lemma MulCommutes<V(!new)>(f: Field<V>, a: V, b: V)
    requires ValidField(f)
    ensures Mul(f, a, b) == Mul(f, b, a)
  {
    assert BitsLaw(f, a, a) && BitsLaw(f, b, b);
    ProdsCommute(f, f.bits(a), f.bits(b), f.unit);
  }

  lemma MulAssociates<V(!new)>(f: Field<V>, a: V, b: V, c: V)
    requires ValidField(f)
    ensures Mul(f, Mul(f, a, b), c) == Mul(f, a, Mul(f, b, c))
  {
    MulCommutes(f, Mul(f, a, b), c);
    ProdsCommute(f, f.bits(c), f.bits(a), b);
    MulCommutes(f, b, c);
  }

  lemma MulUnit<V(!new)>(f: Field<V>, a: V)
    requires ValidField(f)
    ensures Mul(f, a, f.unit) == a && Mul(f, f.unit, a) == a
  {
    assert BitsLaw(f, a, a);
    MulCommutes(f, a, f.unit);
  }

  // ----- Hashing -----

  /** `ghash_update` over whole blocks, from state `y` */
  function Hash<V>(f: Field<V>, h: V, y: V, xs: seq<V>): V
    decreases |xs|
  {
    if xs == [] then y else Hash(f, h, Mul(f, f.add(y, xs[0]), h), xs[1..])
  }

  function Power<V>(f: Field<V>, h: V, n: nat): V {
    if n == 0 then f.unit else Mul(f, h, Power(f, h, n - 1))
  }

  /** Section 6.4: the sum of block `i` times the power `n - i` of the subkey. */
  function Sum<V>(f: Field<V>, h: V, xs: seq<V>): V {
    if xs == [] then f.zero else f.add(Mul(f, xs[0], Power(f, h, |xs|)), Sum(f, h, xs[1..]))
  }

  /** Block-by-block hashing is the polynomial in the subkey, for every start and message. */
  lemma {:induction false} HashIsPolynomial<V(!new)>(f: Field<V>, h: V, y: V, xs: seq<V>)
    requires ValidField(f)
    ensures Hash(f, h, y, xs) == f.add(Mul(f, y, Power(f, h, |xs|)), Sum(f, h, xs))
    decreases |xs|
  {
    if xs == [] {
      MulUnit(f, y);
      assert GroupLaw(f, y, y, y);
    } else {
      var p := Power(f, h, |xs| - 1);
      HashIsPolynomial(f, h, Mul(f, f.add(y, xs[0]), h), xs[1..]);
      MulAssociates(f, f.add(y, xs[0]), h, p);
      MulDistributes(f, y, xs[0], Mul(f, h, p));
      assert GroupLaw(f, Mul(f, y, Mul(f, h, p)), Mul(f, xs[0], Mul(f, h, p)), Sum(f, h, xs[1..]));
    }
  }

  /** The input may be cut at any block boundary. */
  lemma {:induction false} HashJoin<V>(f: Field<V>, h: V, y: V, xs: seq<V>, zs: seq<V>)
    ensures Hash(f, h, y, xs + zs) == Hash(f, h, Hash(f, h, y, xs), zs)
    decreases |xs|
  {
    if xs == [] {
      assert xs + zs == zs;
    } else {
      assert (xs + zs)[1..] == xs[1..] + zs;
      HashJoin(f, h, Mul(f, f.add(y, xs[0]), h), xs[1..], zs);
    }
  }
}

/** Blocks of 128 bits, leftmost first, held in four 32-bit words as `ghash_gfmul` does. */
module GhashWords {
  import opened Bytes
  import opened Ghash

  type Bits = b: seq<bool> | |b| == 128 witness seq(128, _ => false)
  type Word = w: seq<bool> | |w| == 32 witness seq(32, _ => false)

  function AddBits(a: Bits, b: Bits): Bits {
    XorBits(a, b)
  }

  /** Multiplication by the generator: a right shift, and the reduction polynomial if a bit falls off. */
  function StepBit(v: Bits, i: nat): bool
    requires i < 128
  {
    if i == 0 then v[127]
    else if i == 1 || i == 2 || i == 7 then v[i - 1] != v[127]
    else v[i - 1]
  }

  function StepBits(v: Bits): Bits {
    seq(128, i requires 0 <= i < 128 => StepBit(v, i))
  }

  function Zero(): Bits {
    seq(128, _ => false)
  }

  /** The generator to the power `k`, below the degree of the field. */
  function Unit(k: nat): Bits {
    seq(128, i => i == k)
  }

  function Same(b: Bits): seq<bool> { b }

  function BlockField(): Field<Bits> {
    Field(Zero(), Unit(0), AddBits, StepBits, Same)
  }

  lemma AddLaws(a: Bits, b: Bits, c: Bits)
    ensures AddBits(a, b) == AddBits(b, a)
    ensures AddBits(AddBits(a, b), c) == AddBits(a, AddBits(b, c))
    ensures AddBits(a, Zero()) == a && AddBits(a, a) == Zero()
  {
  }

  lemma StepLaws(a: Bits, b: Bits)
    ensures StepBits(AddBits(a, b)) == AddBits(StepBits(a), StepBits(b))
    ensures StepBits(Zero()) == Zero()
  {
  }

  lemma UnitStep(k: nat)
    requires k < 127
    ensures StepBits(Unit(k)) == Unit(k + 1)
  {
  }

  /** The last `128 - i` bits alone. */
  function Tail(a: Bits, i: nat): Bits {
    seq(128, k requires 0 <= k < 128 => i <= k && a[k])
  }

  lemma {:induction false} TailIsSum(a: Bits, i: nat, e: Bits)
    requires i <= 128 && (i < 128 ==> e == Unit(i))
    ensures Prod(BlockField(), a[i..], e) == Tail(a, i)
    decreases 128 - i
  {
    var f := BlockField();
    if i < 128 {
      if i < 127 {
        UnitStep(i);
      }
      TailIsSum(a, i + 1, StepBits(e));
      assert a[i..][1..] == a[i + 1..];
      assert AddBits(Pick(f, a[i], e), Tail(a, i + 1)) == Tail(a, i);
    }
  }

  lemma BlockFieldValid()
    ensures ValidField(BlockField())
  {
    var f := BlockField();
    forall a, b, c ensures GroupLaw(f, a, b, c) { AddLaws(a, b, c); }
    forall a, b ensures StepLaw(f, a, b) { StepLaws(a, b); }
    forall a: Bits, b: Bits ensures BitsLaw(f, a, b) {
      TailIsSum(a, 0, Unit(0));
      assert a[0..] == a && Tail(a, 0) == a;
    }
  }

  // ----- Words -----

  function Joined(a: Word, b: Word, c: Word, d: Word): Bits {
    a + b + c + d
  }

  function XorWord(a: Word, b: Word): Word { XorBits(a, b) }

  function Masked(a: Word, mask: bool): Word { if mask then a else seq(32, _ => false) }

  /** `(hi << 31) | (lo >> 1)` */
  function Shifted(hi: Word, lo: Word): Word { [hi[31]] + lo[..31] }

  /** `w >> 1` */
  function Halved(w: Word): Word { [false] + w[..31] }

  /** 0xe1000000 */
  function Reduction(): Word { seq(32, i => i == 0 || i == 1 || i == 2 || i == 7) }

  lemma JoinedXor(a: Word, b: Word, c: Word, d: Word, a': Word, b': Word, c': Word, d': Word)
    ensures Joined(XorWord(a, a'), XorWord(b, b'), XorWord(c, c'), XorWord(d, d'))
      == AddBits(Joined(a, b, c, d), Joined(a', b', c', d'))
  {
  }

  lemma JoinedMask(a: Word, b: Word, c: Word, d: Word, m: bool)
    ensures Joined(Masked(a, m), Masked(b, m), Masked(c, m), Masked(d, m))
      == Pick(BlockField(), m, Joined(a, b, c, d))
  {
  }

  /** The four-word shift with its conditional reduction is multiplication by the generator. */
  lemma JoinedStep(a: Word, b: Word, c: Word, d: Word)
    ensures Joined(XorWord(Halved(a), Masked(Reduction(), d[31])), Shifted(a, b), Shifted(b, c), Shifted(c, d))
      == StepBits(Joined(a, b, c, d))
  {
  }

  /** `ghash_gfmul` */
  method GfMul(x: Bits, y: Bits) returns (product: Bits)
    ensures product == Mul(BlockField(), x, y)
  {
    var v0: Word, v1: Word, v2: Word, v3: Word := y[..32], y[32..64], y[64..96], y[96..];
    var z0: Word, z1: Word, z2: Word, z3: Word :=
      Masked(v0, false), Masked(v1, false), Masked(v2, false), Masked(v3, false);
    ghost var v, z := y, Zero();
    for i := 0 to 128
      invariant v == Joined(v0, v1, v2, v3) && z == Joined(z0, z1, z2, z3)
      invariant AddBits(z, Prod(BlockField(), x[i..], v)) == Prod(BlockField(), x, y)
    {
      var mask := x[i];
      JoinedMask(v0, v1, v2, v3, mask);
      JoinedXor(z0, z1, z2, z3, Masked(v0, mask), Masked(v1, mask), Masked(v2, mask), Masked(v3, mask));
      JoinedStep(v0, v1, v2, v3);
      AddLaws(z, Pick(BlockField(), mask, v), Prod(BlockField(), x[i + 1..], StepBits(v)));
      assert x[i..][1..] == x[i + 1..];
      z := AddBits(z, Pick(BlockField(), mask, v));
      v := StepBits(v);
      z0, z1, z2, z3 := XorWord(z0, Masked(v0, mask)), XorWord(z1, Masked(v1, mask)),
        XorWord(z2, Masked(v2, mask)), XorWord(z3, Masked(v3, mask));
      var mul := v3[31];
      v3 := Shifted(v2, v3);
      v2 := Shifted(v1, v2);
      v1 := Shifted(v0, v1);
      v0 := XorWord(Halved(v0), Masked(Reduction(), mul));
    }
    product := Joined(z0, z1, z2, z3);
  }

  // ----- The hash context -----

  /** `x[i >> 3] & (1 << (~i & 7))`: bit `j` of an octet, high bit first. */
  function BitAt(b: byte, j: nat): bool
    requires j < 8
  {
    match j
    case 0 => b & 0x80 != 0
    case 1 => b & 0x40 != 0
    case 2 => b & 0x20 != 0
    case 3 => b & 0x10 != 0
    case 4 => b & 0x08 != 0
    case 5 => b & 0x04 != 0
    case 6 => b & 0x02 != 0
    case _ => b & 0x01 != 0
  }

  /** The block in memory: octet by octet, high bit first. */
  function LoadBlock(b: seq<byte>): Bits
    requires |b| == GMAC_BLOCK_LEN
  {
    seq(128, i requires 0 <= i < 128 => BitAt(b[i / 8], i % 8))
  }

  function One(b: bool): nat {
    if b then 1 else 0
  }

  /** The number that `n` bits from `from` on stand for, high bit first. */
  function Number(bits: Bits, from: nat, n: nat): nat
    requires from + n <= 128
  {
    if n == 0 then 0 else 2 * Number(bits, from, n - 1) + One(bits[from + n - 1])
  }

  /** Four more bits behind the number `x`. */
  function Four(x: nat, a: bool, b: bool, c: bool, d: bool): nat {
    2 * (2 * (2 * (2 * x + One(a)) + One(b)) + One(c)) + One(d)
  }

  lemma OctetBits(b: byte)
    ensures b as nat
      == 2 * (2 * (2 * (2 * (2 * (2 * (2 * One(BitAt(b, 0)) + One(BitAt(b, 1))) + One(BitAt(b, 2))) + One(BitAt(b, 3)))
                        + One(BitAt(b, 4))) + One(BitAt(b, 5))) + One(BitAt(b, 6))) + One(BitAt(b, 7))
  {
  }

  lemma OctetNumber(b: byte)
    ensures b as nat == Four(Four(0, BitAt(b, 0), BitAt(b, 1), BitAt(b, 2), BitAt(b, 3)),
                             BitAt(b, 4), BitAt(b, 5), BitAt(b, 6), BitAt(b, 7))
  {
    OctetBits(b);
  }

  lemma NumberFour(v: Bits, f: nat, n: nat, x: nat)
    requires f + n + 4 <= 128 && x == Number(v, f, n)
    ensures Number(v, f, n + 4) == Four(x, v[f + n], v[f + n + 1], v[f + n + 2], v[f + n + 3])
  {
    assert Number(v, f, n + 1) == 2 * x + One(v[f + n]);
    assert Number(v, f, n + 2) == 2 * (2 * x + One(v[f + n])) + One(v[f + n + 1]);
  }

  lemma NumberEight(v: Bits, k: nat, a: bool, b: bool, c: bool, d: bool, e: bool, f: bool, g: bool, h: bool)
    requires k + 8 <= 128 && v[k] == a && v[k + 1] == b && v[k + 2] == c && v[k + 3] == d
    requires v[k + 4] == e && v[k + 5] == f && v[k + 6] == g && v[k + 7] == h
    ensures Number(v, k, 8) == Four(Four(0, a, b, c, d), e, f, g, h)
  {
    NumberFour(v, k, 0, 0);
    NumberFour(v, k, 4, Four(0, a, b, c, d));
  }

  /** Four bits from bit `k` of the block on are those of octet `x` from bit `i` on. */
  predicate FourOf(v: Bits, k: nat, x: byte, i: nat)
    requires k + 4 <= 128 && i + 4 <= 8
  {
    v[k] == BitAt(x, i) && v[k + 1] == BitAt(x, i + 1) && v[k + 2] == BitAt(x, i + 2) && v[k + 3] == BitAt(x, i + 3)
  }

  lemma LoadedFour(b: seq<byte>, j: nat, f: nat, i: nat)
    requires |b| == GMAC_BLOCK_LEN && j < GMAC_BLOCK_LEN && f == 8 * j && i + 4 <= 8
    ensures FourOf(LoadBlock(b), f + i, b[j], i)
  {
    LoadedBit(b, j, f, i);
    LoadedBit(b, j, f, i + 1);
    LoadedBit(b, j, f, i + 2);
    LoadedBit(b, j, f, i + 3);
  }

  lemma OctetAt(v: Bits, k: nat, x: byte)
    requires k + 8 <= 128 && FourOf(v, k, x, 0) && FourOf(v, k + 4, x, 4)
    ensures Number(v, k, 8) == x as nat
  {
    NumberEight(v, k, BitAt(x, 0), BitAt(x, 1), BitAt(x, 2), BitAt(x, 3),
                BitAt(x, 4), BitAt(x, 5), BitAt(x, 6), BitAt(x, 7));
    OctetNumber(x);
  }

  lemma LoadedBit(b: seq<byte>, j: nat, f: nat, i: nat)
    requires |b| == GMAC_BLOCK_LEN && j < GMAC_BLOCK_LEN && f == 8 * j && i < 8
    ensures LoadBlock(b)[f + i] == BitAt(b[j], i)
  {
    assert (f + i) / 8 == j && (f + i) % 8 == i;
  }

  /** Each octet in memory is the number its eight bits of the block stand for. */
  lemma LoadBlockNumbers(b: seq<byte>, j: nat, f: nat)
    requires |b| == GMAC_BLOCK_LEN && j < GMAC_BLOCK_LEN && f == 8 * j
    ensures Number(LoadBlock(b), f, 8) == b[j] as nat
  {
    LoadedFour(b, j, f, 0);
    LoadedFour(b, j, f, 4);
    OctetAt(LoadBlock(b), f, b[j]);
  }

  /** The data cut into blocks, the last one filled up with zero octets. */
  function Blocks(data: seq<byte>): seq<Bits> {
    if data == [] then []
    else if |data| < GMAC_BLOCK_LEN then [LoadBlock(Padded(data))]
    else [LoadBlock(data[..GMAC_BLOCK_LEN])] + Blocks(data[GMAC_BLOCK_LEN..])
  }

  function Padded(tail: seq<byte>): seq<byte>
    requires |tail| <= GMAC_BLOCK_LEN
  {
    tail + seq(GMAC_BLOCK_LEN - |tail|, _ => 0)
  }

  /** Data that ends within a block is hashed like data filled up with zero octets. */
  lemma {:induction false} BlocksFillUp(data: seq<byte>, fill: seq<byte>)
    requires |data| > 0 && (|data| + |fill|) % GMAC_BLOCK_LEN == 0 && |fill| < GMAC_BLOCK_LEN
    requires forall i :: 0 <= i < |fill| ==> fill[i] == 0
    ensures Blocks(data) == Blocks(data + fill)
    decreases |data|
  {
    var n, all := GMAC_BLOCK_LEN, data + fill;
    if |data| < n {
      assert Padded(data) == all && all[..n] == all && all[n..] == [];
      assert Blocks(all) == [LoadBlock(all[..n])] + Blocks(all[n..]);
    } else {
      assert all[..n] == data[..n] && all[n..] == data[n..] + fill;
      if |data| > n {
        BlocksFillUp(data[n..], fill);
      } else {
        assert fill == [] && all == data;
      }
    }
  }

  lemma {:induction false} BlocksJoin(a: seq<byte>, b: seq<byte>)
    requires |a| % GMAC_BLOCK_LEN == 0
    ensures Blocks(a + b) == Blocks(a) + Blocks(b)
    decreases |a|
  {
    if a == [] {
      assert a + b == b;
    } else {
      var n := GMAC_BLOCK_LEN;
      assert (a + b)[..n] == a[..n] && (a + b)[n..] == a[n..] + b;
      BlocksJoin(a[n..], b);
    }
  }

  class Context {
    const h: Bits
    var s: Bits
    var z: Bits

    ghost predicate Valid()
      reads this
    {
      s == z
    }

    constructor (h: Bits)
      ensures Valid() && this.h == h && z == Zero()
    {
      this.h := h;
      s, z := Zero(), Zero();
    }

    /** `ghash_update` */
    method GhashUpdate(xs: seq<Bits>)
      requires Valid()
      modifies this
      ensures Valid() && z == Hash(BlockField(), h, old(z), xs)
    {
      var y := z;
      for i := 0 to |xs|
        invariant s == y
        invariant Hash(BlockField(), h, y, xs[i..]) == Hash(BlockField(), h, old(z), xs)
      {
        s := AddBits(y, xs[i]);
        s := GfMul(s, h);
        assert xs[i..][1..] == xs[i + 1..];
        y := s;
      }
      z := s;
    }

    /** `AES_GMAC_Update`; its length is a 16-bit number. */
    method Update(data: seq<byte>)
      requires Valid() && |data| < 0x1_0000
      modifies this
      ensures Valid() && z == Hash(BlockField(), h, old(z), Blocks(data))
    {
      if |data| > 0 {
        var plen := |data| % GMAC_BLOCK_LEN;
        var whole, tail := data[..|data| - plen], data[|data| - plen..];
        assert data == whole + tail;
        BlocksJoin(whole, tail);
        HashJoin(BlockField(), h, z, Blocks(whole), Blocks(tail));
        if |data| >= GMAC_BLOCK_LEN {
          GhashUpdate(Blocks(whole));
        }
        if plen > 0 {
          GhashUpdate([LoadBlock(Padded(tail))]);
        }
      }
    }
  }

  /** Two updates are one update of the joined data when the first ends on a block boundary. */
  lemma UpdatesJoin(h: Bits, y: Bits, a: seq<byte>, b: seq<byte>)
    requires |a| % GMAC_BLOCK_LEN == 0
    ensures Hash(BlockField(), h, Hash(BlockField(), h, y, Blocks(a)), Blocks(b))
      == Hash(BlockField(), h, y, Blocks(a + b))
  {
    BlocksJoin(a, b);
    HashJoin(BlockField(), h, y, Blocks(a), Blocks(b));
  }

  /** What `ghash_gfmul` computes is a commutative ring product with the field's unit. */
  lemma GfMulAlgebra(a: Bits, b: Bits, c: Bits)
    ensures Mul(BlockField(), a, b) == Mul(BlockField(), b, a)
    ensures Mul(BlockField(), Mul(BlockField(), a, b), c) == Mul(BlockField(), a, Mul(BlockField(), b, c))
    ensures Mul(BlockField(), AddBits(a, b), c) == AddBits(Mul(BlockField(), a, c), Mul(BlockField(), b, c))
    ensures Mul(BlockField(), a, Unit(0)) == a
  {
    BlockFieldValid();
    MulCommutes(BlockField(), a, b);
    MulAssociates(BlockField(), a, b, c);
    MulDistributes(BlockField(), a, b, c);
    MulUnit(BlockField(), a);
  }

  /** Section 6.4 of NIST SP 800-38D, for the code's context: a hash is a polynomial in the subkey. */
  lemma GhashIsPolynomial(h: Bits, y: Bits, xs: seq<Bits>)
    ensures Hash(BlockField(), h, y, xs)
      == AddBits(Mul(BlockField(), y, Power(BlockField(), h, |xs|)), Sum(BlockField(), h, xs))
  {
    BlockFieldValid();
    HashIsPolynomial(BlockField(), h, y, xs);
  }
}
