/**
 Streaming SHA-2 (crypto/sha2.c). `SHA256Update`/`Final` and
 `SHA512Update`/`Last` are the same code up to the block length and the width of
 the bit count, which are parameters here; so is the compression function.
 */
module Sha2Stream {
  import opened Bytes
  import opened Endian

  const TWO64: nat := 0x1_0000_0000_0000_0000

  /** Block length, length of the count field, first state and state of zeros, and the compression function. */
  datatype Alg<!S> = Alg(block: nat, lenField: nat, init: S, blank: S, compress: (S, seq<byte>) -> S)

  predicate ValidAlg<S>(a: Alg<S>) {
    (a.block == 64 && a.lenField == 8) || (a.block == 128 && a.lenField == 16)
  }

  /** Remainder modulo one of the two block lengths. */
  function BlockRem(n: nat, b: nat): nat {
    if b == 64 then n % 64 else n % 128
  }

  /** Fold the compression function over whole blocks. */
  function Fold<S>(a: Alg<S>, data: seq<byte>): S
    requires ValidAlg(a) && BlockRem(|data|, a.block) == 0
    decreases |data|
  {
    if data == [] then a.init
    else
      var n := |data| - a.block;
      a.compress(Fold(a, data[..n]), data[n..])
  }

  function Zeros(n: nat): (z: seq<byte>)
    ensures |z| == n && forall i :: 0 <= i < n ==> z[i] == 0
  {
    seq(n, _ => 0)
  }

  /** The number of zero octets between the 0x80 octet and the count. */
  function ZeroCount<S>(a: Alg<S>, n: nat): nat
    requires ValidAlg(a)
  {
    var used := BlockRem(n, a.block);
    if used + 1 + a.lenField <= a.block then a.block - a.lenField - 1 - used else 2 * a.block - a.lenField - 1 - used
  }

  /** Sections 5.1.1 and 5.1.2 of FIPS 180-4; the count is taken modulo 2^64 or 2^128. */
  function Pad<S>(a: Alg<S>, m: seq<byte>): seq<byte>
    requires ValidAlg(a)
  {
    m + [0x80] + Zeros(ZeroCount(a, |m|)) + BigEndian(8 * |m|, a.lenField)
  }

  /** The one-shot definition of the hash, before its output is serialised. */
  function Hash<S>(a: Alg<S>, m: seq<byte>): S
    requires ValidAlg(a)
  {
    PadFillsBlocks(a, m);
    Fold(a, Pad(a, m))
  }

  lemma PadFillsBlocks<S>(a: Alg<S>, m: seq<byte>)
    requires ValidAlg(a)
    ensures BlockRem(|Pad(a, m)|, a.block) == 0
  {
    PaddedLength(a, |m|);
  }

  lemma PaddedLength<S>(a: Alg<S>, n: nat)
    requires ValidAlg(a)
    ensures BlockRem(n + 1 + ZeroCount(a, n) + a.lenField, a.block) == 0 && ZeroCount(a, n) < a.block
  {
    if a.block == 64 {
      PaddedRem64(n);
    } else {
      PaddedRem128(n);
    }
  }

  lemma PaddedRem64(n: nat)
    ensures n % 64 + 9 <= 64 ==> (n + 1 + (55 - n % 64) + 8) % 64 == 0
    ensures n % 64 + 9 > 64 ==> (n + 1 + (119 - n % 64) + 8) % 64 == 0
  {
  }

  lemma PaddedRem128(n: nat)
    ensures n % 128 + 17 <= 128 ==> (n + 1 + (111 - n % 128) + 16) % 128 == 0
    ensures n % 128 + 17 > 128 ==> (n + 1 + (239 - n % 128) + 16) % 128 == 0
  {
  }

  /** The padding is the least that reaches a whole number of blocks. */
  lemma PaddingIsLeast<S>(a: Alg<S>, n: nat, k: nat)
    requires ValidAlg(a) && k < ZeroCount(a, n)
    ensures BlockRem(n + 1 + k + a.lenField, a.block) != 0
  {
    PaddedLength(a, n);
    var t, less := n + 1 + ZeroCount(a, n) + a.lenField, ZeroCount(a, n) - k;
    if a.block == 64 {
      BelowMultiple(t, 64, less);
    } else {
      BelowMultiple(t, 128, less);
    }
  }

  lemma BelowMultiple(t: nat, b: nat, less: nat)
    requires b > 0 && t % b == 0 && 0 < less < b && less <= t
    ensures (t - less) % b == b - less
  {
    assert t == b * (t / b);
    assert t - less == b * (t / b - 1) + (b - less);
    DivModUnique(t - less, b, t / b - 1, b - less);
  }

  lemma FoldAppend<S>(a: Alg<S>, data: seq<byte>, b: seq<byte>)
    requires ValidAlg(a) && BlockRem(|data|, a.block) == 0 && |b| == a.block
    ensures BlockRem(|data + b|, a.block) == 0
    ensures Fold(a, data + b) == a.compress(Fold(a, data), b)
  {
    assert (data + b)[..|data|] == data && (data + b)[|data|..] == b;
  }

  /** The low word of the bit count locates the fill level, even after it wrapped. */
  lemma CountGivesUsed(n: nat, b: nat)
    requires b == 64 || b == 128
    ensures (((8 * n) % TWO64) / 8) % b == BlockRem(n, b)
  {
    var q, r := (8 * n) / TWO64, (8 * n) % TWO64;
    assert 8 * n == TWO64 * q + r;
    var c := r / 8;
    assert n == 0x2000_0000_0000_0000 * q + c;
    if b == 64 {
      assert n == 64 * (0x80_0000_0000_0000 * q) + c;
      ShiftMod(c, 64, 0x80_0000_0000_0000 * q, n);
    } else {
      assert n == 128 * (0x40_0000_0000_0000 * q) + c;
      ShiftMod(c, 128, 0x40_0000_0000_0000 * q, n);
    }
  }

  lemma ShiftMod(c: nat, b: nat, k: nat, n: nat)
    requires b > 0 && n == b * k + c
    ensures n % b == c % b
  {
    assert c == b * (c / b) + c % b;
    assert n == b * (k + c / b) + c % b;
    DivModUnique(n, b, k + c / b, c % b);
  }

  // ----- Splitting a message into whole blocks and a tail -----

  function Used<S>(a: Alg<S>, m: seq<byte>): nat
    requires ValidAlg(a)
  {
    BlockRem(|m|, a.block)
  }

  function Full<S>(a: Alg<S>, m: seq<byte>): (r: seq<byte>)
    requires ValidAlg(a)
    ensures BlockRem(|r|, a.block) == 0
  {
    FullIsWhole(|m|, a.block);
    m[..|m| - Used(a, m)]
  }

  function Tail<S>(a: Alg<S>, m: seq<byte>): seq<byte>
    requires ValidAlg(a)
  {
    m[|m| - Used(a, m)..]
  }

  lemma FullIsWhole(n: nat, b: nat)
    requires b == 64 || b == 128
    ensures BlockRem(n, b) <= n && BlockRem(n - BlockRem(n, b), b) == 0
  {
  }

  lemma AddTail(n: nat, b: nat, d: nat)
    requires (b == 64 || b == 128) && BlockRem(n, b) + d <= b
    ensures BlockRem(n, b) + d < b ==> BlockRem(n + d, b) == BlockRem(n, b) + d
    ensures BlockRem(n, b) + d == b ==> BlockRem(n + d, b) == 0
  {
    if b == 64 {
      AddMod(n, 64, d);
    } else {
      AddMod(n, 128, d);
    }
  }

  lemma AddMod(n: nat, b: nat, d: nat)
    requires b > 0 && n % b + d <= b
    ensures n % b + d < b ==> (n + d) % b == n % b + d
    ensures n % b + d == b ==> (n + d) % b == 0
  {
    assert n == b * (n / b) + n % b;
    if n % b + d < b {
      DivModUnique(n + d, b, n / b, n % b + d);
    } else {
      assert n + d == b * (n / b + 1);
      DivModUnique(n + d, b, n / b + 1, 0);
    }
  }

  /** Fewer octets than the block has room for only lengthen the tail. */
  lemma PartialBlock<S>(a: Alg<S>, m: seq<byte>, d: seq<byte>)
    requires ValidAlg(a) && Used(a, m) + |d| < a.block
    ensures Used(a, m + d) == Used(a, m) + |d| && Full(a, m + d) == Full(a, m) && Tail(a, m + d) == Tail(a, m) + d
  {
    AddTail(|m|, a.block, |d|);
  }

  /** Exactly as many octets as there is room for complete a block. */
  lemma CompleteBlock<S>(a: Alg<S>, m: seq<byte>, d: seq<byte>)
    requires ValidAlg(a) && Used(a, m) + |d| == a.block
    ensures Used(a, m + d) == 0
    ensures Fold(a, Full(a, m + d)) == a.compress(Fold(a, Full(a, m)), Tail(a, m) + d)
  {
    var block := Tail(a, m) + d;
    FullGrows(a, m, d, block);
    FoldAppend(a, Full(a, m), block);
  }

  lemma FullGrows<S>(a: Alg<S>, m: seq<byte>, d: seq<byte>, block: seq<byte>)
    requires ValidAlg(a) && Used(a, m) + |d| == a.block && block == Tail(a, m) + d
    ensures Used(a, m + d) == 0 && Full(a, m + d) == Full(a, m) + block
  {
    AddTail(|m|, a.block, |d|);
  }

  // ----- The bit count -----

  /** `ADDINC128`: a two-word addition, the carry read off the wrapped low word. */
  lemma CountAdds(b: nat, n: nat, d: nat, lo: nat, hi: nat, lo': nat, hi': nat)
    requires d < b && b > 1 && lo == n % b && hi == (n / b) % b
    requires lo' == (lo + d) % b && hi' == if lo' < d then (hi + 1) % b else hi
    ensures lo' == (n + d) % b && hi' == ((n + d) / b) % b
  {
    var q := n / b;
    assert n == b * q + lo;
    if lo + d < b {
      SmallMod(lo + d, b);
      DivModUnique(n + d, b, q, lo + d);
    } else {
      DivModUnique(lo + d, b, 1, lo + d - b);
      assert n + d == b * (q + 1) + (lo + d - b);
      DivModUnique(n + d, b, q + 1, lo + d - b);
      NextMod(q, b);
    }
  }

  lemma NextMod(q: nat, b: nat)
    requires b > 1
    ensures (q % b + 1) % b == (q + 1) % b
  {
    assert q == b * (q / b) + q % b;
    if q % b + 1 < b {
      DivModUnique(q + 1, b, q / b, q % b + 1);
      SmallMod(q % b + 1, b);
    } else {
      assert q + 1 == b * (q / b + 1);
      DivModUnique(q + 1, b, q / b + 1, 0);
      DivModUnique(b, b, 1, 0);
    }
  }

  lemma Pow256Of8()
    ensures Pow256(8) == TWO64
  {
    assert Pow256(4) == 0x1_0000_0000;
    assert Pow256(8) == 256 * (256 * (256 * (256 * Pow256(4))));
  }

  /** The low word of the count, stored big-endian. */
  lemma LowWord(n: nat)
    ensures BigEndian(n % TWO64, 8) == BigEndian(n, 8)
  {
    Pow256Of8();
    BigEndianWraps(n % TWO64, n / TWO64, 8);
    assert n == n % TWO64 + (n / TWO64) * TWO64;
  }

  /** Both words, high word first. */
  lemma BothWords(n: nat)
    ensures BigEndian((n / TWO64) % TWO64, 8) + BigEndian(n % TWO64, 8) == BigEndian(n, 16)
  {
    Pow256Of8();
    LowWord(n);
    LowWord(n / TWO64);
    assert n == (n / TWO64) * TWO64 + n % TWO64;
    BigEndianSplits(n, n / TWO64, n % TWO64, 8, 8);
  }

  // ----- Padding in the buffer -----

  lemma ZerosJoin(x: nat, y: nat)
    ensures Zeros(x) + Zeros(y) == Zeros(x + y)
  {
  }

  /** The padding fits behind the tail. */
  lemma PadInOne<S>(a: Alg<S>, m: seq<byte>)
    requires ValidAlg(a) && Used(a, m) + 1 <= a.block - a.lenField
    ensures Full(a, m) + (Tail(a, m) + [0x80] + Zeros(a.block - a.lenField - Used(a, m) - 1))
      == m + [0x80] + Zeros(ZeroCount(a, |m|))
  {
    var x := Zeros(a.block - a.lenField - Used(a, m) - 1);
    Regroup(Full(a, m), Tail(a, m), [0x80], x, []);
    FullTail(a, m);
    assert x + [] == x;
  }

  /** The padding takes one more block. */
  lemma PadInTwo<S>(a: Alg<S>, m: seq<byte>)
    requires ValidAlg(a) && Used(a, m) + 1 > a.block - a.lenField
    ensures Full(a, m) + (Tail(a, m) + [0x80] + Zeros(a.block - Used(a, m) - 1)) + Zeros(a.block - a.lenField)
      == m + [0x80] + Zeros(ZeroCount(a, |m|))
  {
    var x, y := Zeros(a.block - Used(a, m) - 1), Zeros(a.block - a.lenField);
    ZerosJoin(a.block - Used(a, m) - 1, a.block - a.lenField);
    Regroup(Full(a, m), Tail(a, m), [0x80], x, y);
    FullTail(a, m);
  }

  lemma FullTail<S>(a: Alg<S>, m: seq<byte>)
    requires ValidAlg(a)
    ensures Full(a, m) + Tail(a, m) == m
  {
  }

  lemma Regroup(f: seq<byte>, t: seq<byte>, x: seq<byte>, y: seq<byte>, z: seq<byte>)
    ensures f + (t + x + y) + z == (f + t) + x + (y + z)
  {
  }

  /** Put the mark behind the first `used` octets and clear up to `hi`. */
  method Mark(buf: array<byte>, used: nat, hi: nat)
    requires used < hi <= buf.Length
    modifies buf
    ensures buf[..hi] == old(buf[..used]) + [0x80] + Zeros(hi - used - 1)
  {
    ghost var tail := buf[..used];
    buf[used] := 0x80;
    assert buf[..used + 1] == tail + [0x80];
    CopyInto(buf, used + 1, Zeros(hi - used - 1));
    TakeJoin(buf[..], used + 1, hi);
  }

  /** The other order, for an empty buffer: clear first, then put the mark. */
  method MarkEmpty(buf: array<byte>, hi: nat)
    requires 0 < hi <= buf.Length
    modifies buf
    ensures buf[..hi] == [0x80] + Zeros(hi - 1)
  {
    CopyInto(buf, 0, Zeros(hi));
    ghost var z := buf[..];
    assert z[..hi] == z[0..hi] == Zeros(hi);
    buf[0] := 0x80;
    assert buf[..hi] == [0x80] + z[..hi][1..];
    assert Zeros(hi)[1..] == Zeros(hi - 1);
  }

  lemma MoveOver(m: seq<byte>, d: seq<byte>, n: nat)
    requires n <= |d|
    ensures (m + d[..n]) + d[n..] == m + d
  {
  }

  // ----- The context -----

  /** The two words of `bitcount` after `n` bits; SHA-256 keeps only the low one. */
  predicate Counts<S>(a: Alg<S>, lo: nat, hi: nat, n: nat) {
    lo == n % TWO64 && (a.lenField == 16 ==> hi == (n / TWO64) % TWO64)
  }

  /** Compressing the block that ends the padding completes the hash. */
  lemma LastBlock<S>(a: Alg<S>, m: seq<byte>, whole: seq<byte>, last: seq<byte>)
    requires ValidAlg(a) && BlockRem(|whole|, a.block) == 0 && |last| == a.block - a.lenField
    requires whole + last == m + [0x80] + Zeros(ZeroCount(a, |m|))
    ensures a.compress(Fold(a, whole), last + BigEndian(8 * |m|, a.lenField)) == Hash(a, m)
  {
    var count := BigEndian(8 * |m|, a.lenField);
    FoldAppend(a, whole, last + count);
    Regrouped(whole, last, count);
    assert whole + (last + count) == Pad(a, m);
  }

  class Context<S(!new)> {
    const alg: Alg<S>
    var state: S
    var lo: nat
    var hi: nat
    const buffer: array<byte>
    ghost var absorbed: seq<byte>

    /** The context is what absorbing `absorbed` leads to, however it was cut up. */
    ghost predicate Valid()
      reads this, buffer
    {
      && ValidAlg(alg) && buffer.Length == alg.block
      && Counts(alg, lo, hi, 8 * |absorbed|)
      && buffer[..Used(alg, absorbed)] == Tail(alg, absorbed)
      && state == Fold(alg, Full(alg, absorbed))
    }

    /** `SHA256Init`, `SHA384Init`, `SHA512Init`. */
    constructor (a: Alg<S>)
      requires ValidAlg(a)
      ensures Valid() && fresh(buffer) && alg == a && absorbed == []
    {
      alg := a;
      state := a.init;
      lo, hi := 0, 0;
      buffer := new byte[a.block](_ => 0);
      absorbed := [];
    }

    /** Account for `len` more octets. */
    method AddCount(len: nat, ghost m: seq<byte>, ghost d: seq<byte>)
      requires len == |d| < 0x1000_0000 && Counts(alg, lo, hi, 8 * |m|)
      modifies this`lo, this`hi
      ensures Counts(alg, lo, hi, 8 * |m + d|)
    {
      ghost var n := 8 * |m|;
      var d := 8 * len;
      ghost var lo0, hi0 := lo, (n / TWO64) % TWO64;
      lo := (lo + d) % TWO64;
      if alg.lenField == 16 && lo < d {
        hi := (hi + 1) % TWO64;
      }
      CountAdds(TWO64, n, d, lo0, hi0, lo, if lo < d then (hi0 + 1) % TWO64 else hi0);
    }

    /** The buffer is not yet full: keep `d` for later. */
    method Keep(used: nat, d: seq<byte>)
      requires Valid() && used == Used(alg, absorbed) && used + |d| < alg.block
      modifies this, buffer
      ensures Valid() && absorbed == old(absorbed) + d
    {
      PartialBlock(alg, absorbed, d);
      CopyInto(buffer, used, d);
      TakeJoin(buffer[..], used, used + |d|);
      AddCount(|d|, absorbed, d);
      absorbed := absorbed + d;
    }

    /** `block` is what the buffer held followed by `d`: process it. */
    method Process(d: seq<byte>, block: seq<byte>)
      requires Valid() && Used(alg, absorbed) + |d| == alg.block && block == Tail(alg, absorbed) + d
      modifies this
      ensures Valid() && absorbed == old(absorbed) + d && Used(alg, absorbed) == 0
    {
      CompleteBlock(alg, absorbed, d);
      state := alg.compress(state, block);
      AddCount(|d|, absorbed, d);
      absorbed := absorbed + d;
    }

    /** Fill the buffer to the brim with the first `free` octets and process it. */
    method FillAndProcess(used: nat, d: seq<byte>)
      requires Valid() && used == Used(alg, absorbed) && used + |d| == alg.block
      modifies this, buffer
      ensures Valid() && absorbed == old(absorbed) + d && Used(alg, absorbed) == 0
    {
      CopyInto(buffer, used, d);
      TakeJoin(buffer[..], used, alg.block);
      Process(d, buffer[..]);
    }

    /** Process as many complete blocks as there are. */
    method ProcessBlocks(data: seq<byte>) returns (rest: seq<byte>)
      requires Valid() && Used(alg, absorbed) == 0
      modifies this
      ensures Valid() && Used(alg, absorbed) == 0
      ensures absorbed + rest == old(absorbed) + data && |rest| < alg.block
    {
      rest := data;
      while |rest| >= alg.block
        invariant Valid() && Used(alg, absorbed) == 0 && absorbed + rest == old(absorbed) + data
        decreases |rest|
      {
        ghost var soFar := absorbed;
        Process(rest[..alg.block], rest[..alg.block]);
        MoveOver(soFar, rest, alg.block);
        rest := rest[alg.block..];
      }
    }

    /** `SHA256Update`, `SHA512Update`: absorb `data`. */
    method Update(data: seq<byte>)
      requires Valid()
      modifies this, buffer
      ensures Valid() && absorbed == old(absorbed) + data
    {
      if |data| == 0 {
        assert absorbed + data == absorbed;
        return;
      }
      var used, rest := (lo / 8) % alg.block, data;
      CountGivesUsed(|absorbed|, alg.block);
      if used > 0 {
        var free := alg.block - used;
        if |data| < free {
          Keep(used, data);
          return;
        }
        FillAndProcess(used, data[..free]);
        MoveOver(old(absorbed), data, free);
        rest := data[free..];
      }
      rest := ProcessBlocks(rest);
      if |rest| > 0 {
        Keep(0, rest);
      }
    }

    /** `0x80`, then zeros up to the count field, through an extra block when there is no room. */
    method PadBuffer(used: nat) returns (ghost whole: seq<byte>, ghost last: seq<byte>)
      requires Valid() && used == Used(alg, absorbed)
      modifies this`state, buffer
      ensures BlockRem(|whole|, alg.block) == 0 && |last| == alg.block - alg.lenField
      ensures whole + last == absorbed + [0x80] + Zeros(ZeroCount(alg, |absorbed|))
      ensures state == Fold(alg, whole) && buffer[..alg.block - alg.lenField] == last
    {
      var short := alg.block - alg.lenField;
      if used == 0 || used + 1 <= short {
        if used > 0 {
          Mark(buffer, used, short);
        } else {
          MarkEmpty(buffer, short);
        }
        whole, last := Full(alg, absorbed), Tail(alg, absorbed) + [0x80] + Zeros(short - used - 1);
        PadInOne(alg, absorbed);
        assert buffer[..short] == last;
      } else {
        whole, last := MarkOverflow(used);
      }
    }

    method MarkOverflow(used: nat) returns (ghost whole: seq<byte>, ghost last: seq<byte>)
      requires Valid() && used == Used(alg, absorbed) && used + 1 > alg.block - alg.lenField
      modifies this`state, buffer
      ensures BlockRem(|whole|, alg.block) == 0 && |last| == alg.block - alg.lenField
      ensures whole + last == absorbed + [0x80] + Zeros(ZeroCount(alg, |absorbed|))
      ensures state == Fold(alg, whole) && buffer[..alg.block - alg.lenField] == last
    {
      var short := alg.block - alg.lenField;
      Mark(buffer, used, alg.block);
      ghost var block := Tail(alg, absorbed) + [0x80] + Zeros(alg.block - used - 1);
      assert buffer[..] == buffer[..alg.block] == block;
      state := alg.compress(state, buffer[..]);
      FoldAppend(alg, Full(alg, absorbed), block);
      whole, last := Full(alg, absorbed) + block, Zeros(short);
      PadInTwo(alg, absorbed);
      ClearFront(buffer, short, if alg.lenField == 16 then alg.block - 2 else short);
    }

    /** Store the count in the last octets of the buffer. */
    method SetCount()
      requires ValidAlg(alg) && buffer.Length == alg.block && Counts(alg, lo, hi, 8 * |absorbed|)
      modifies buffer
      ensures var short := alg.block - alg.lenField;
              buffer[..] == old(buffer[..short]) + BigEndian(8 * |absorbed|, alg.lenField)
    {
      var short := alg.block - alg.lenField;
      if alg.lenField == 16 {
        BothWords(8 * |absorbed|);
        CopyInto(buffer, short, BigEndian(hi, 8) + BigEndian(lo, 8));
      } else {
        LowWord(8 * |absorbed|);
        CopyInto(buffer, short, BigEndian(lo, 8));
      }
      TakeJoin(buffer[..], short, alg.block);
      assert buffer[..] == buffer[..alg.block];
    }

    /** `SHA256Final`, `SHA384Final` and `SHA512Final`, up to the octets of the result: the context is wiped. */
    method Final() returns (r: S)
      requires Valid()
      modifies this`state, this`lo, this`hi, buffer
      ensures r == Hash(alg, absorbed)
      ensures state == alg.blank && lo == hi == 0 && buffer[..] == Zeros(alg.block)
    {
      r := Last();
      state, lo, hi := alg.blank, 0, 0;
      ClearFront(buffer, alg.block, alg.block);
      assert buffer[..] == buffer[..alg.block];
    }

    /** `SHA512Last`: the state the padded message leads to. */
    method Last() returns (r: S)
      requires Valid()
      modifies this`state, buffer
      ensures r == Hash(alg, absorbed)
    {
      var used := (lo / 8) % alg.block;
      CountGivesUsed(|absorbed|, alg.block);
      ghost var whole, last := PadBuffer(used);
      SetCount();
      LastBlock(alg, absorbed, whole, last);
      state := alg.compress(state, buffer[..]);
      r := state;
    }

    /** `bcopy` of a whole context. */
    method Copy() returns (c: Context<S>)
      requires Valid()
      ensures fresh(c) && fresh(c.buffer) && c.Valid() && c.alg == alg && c.absorbed == absorbed
    {
      c := new Context(alg);
      forall i | 0 <= i < buffer.Length {
        c.buffer[i] := buffer[i];
      }
      c.state, c.lo, c.hi, c.absorbed := state, lo, hi, absorbed;
      assert c.buffer[..] == buffer[..];
    }
  }

  method ClearFront(buf: array<byte>, short: nat, n: nat)
    requires short <= n <= buf.Length
    modifies buf
    ensures buf[..short] == Zeros(short)
  {
    forall i | 0 <= i < n {
      buf[i] := 0;
    }
  }

  function Concat(chunks: seq<seq<byte>>): seq<byte> {
    if chunks == [] then [] else Concat(chunks[..|chunks| - 1]) + chunks[|chunks| - 1]
  }

  /** However a message is cut into updates, the result is the hash of the whole. */
  method DigestChunks<S(!new)>(a: Alg<S>, chunks: seq<seq<byte>>) returns (r: S)
    requires ValidAlg(a)
    ensures r == Hash(a, Concat(chunks))
  {
    var c := new Context(a);
    for i := 0 to |chunks|
      invariant fresh(c) && fresh(c.buffer) && c.Valid() && c.alg == a && c.absorbed == Concat(chunks[..i])
    {
      assert chunks[..i + 1][..i] == chunks[..i];
      c.Update(chunks[i]);
    }
    assert chunks[..|chunks|] == chunks;
    r := c.Final();
  }
}
