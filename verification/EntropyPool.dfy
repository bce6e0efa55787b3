/**
 * The entropy pool and its mixing function `add_entropy_words` (dev/rnd.c).
 *
 * Mixing one word is shown to be reversible, in the state for a fixed input and in the
 * input for a fixed state; from that follow the bijection over whole buffers and the exact
 * length up to which different inputs leave different pools. The 32-bit word operations are
 * a parameter here; PoolWords defines the source's and proves the laws asked of them.
 */
module EntropyPool {
  const POOLWORDS := 2048
  const POOL_TAP1 := 1638
  const POOL_TAP2 := 1231
  const POOL_TAP3 := 819
  const POOL_TAP4 := 411

  type Rotation = r: nat | r < 32

  datatype Ops<!W> = Ops(
    xor: (W, W) -> W,
    rotate: (W, Rotation) -> W, unrotate: (W, Rotation) -> W,
    twist: W -> W, untwist: W -> W)

  ghost predicate ValidOps<W(!new)>(o: Ops<W>) {
    && (forall x, y :: o.xor(x, y) == o.xor(y, x))
    && (forall x, y :: o.xor(x, o.xor(x, y)) == y)
    && (forall x, r :: o.unrotate(o.rotate(x, r), r) == x)
    && (forall x, r :: o.rotate(o.unrotate(x, r), r) == x)
    && (forall x :: o.untwist(o.twist(x)) == x)
    && (forall x :: o.twist(o.untwist(x)) == x)
  }

  /** What one step writes: input word `x` rotated by `r`, the sum `t` of the taps, the old word `w`. */
  function Absorb<W>(o: Ops<W>, x: W, r: Rotation, t: W, w: W): W {
    o.twist(o.xor(o.rotate(x, r), o.xor(t, w)))
  }

  /** The old word, from the new one. */
  function Expel<W>(o: Ops<W>, x: W, r: Rotation, t: W, n: W): W {
    o.xor(t, o.xor(o.rotate(x, r), o.untwist(n)))
  }

  /** The input word, from the old word and the new one. */
  function InputFor<W>(o: Ops<W>, r: Rotation, t: W, w: W, n: W): W {
    o.unrotate(o.xor(o.xor(t, w), o.untwist(n)), r)
  }

  lemma AbsorbInverse<W(!new)>(o: Ops<W>, x: W, r: Rotation, t: W, w: W)
    requires ValidOps(o)
    ensures Expel(o, x, r, t, Absorb(o, x, r, t, w)) == w
    ensures InputFor(o, r, t, w, Absorb(o, x, r, t, w)) == x
  {
    var z := o.xor(t, w);
    assert o.xor(o.rotate(x, r), z) == o.xor(z, o.rotate(x, r));
  }

  lemma ExpelInverse<W(!new)>(o: Ops<W>, x: W, r: Rotation, t: W, n: W)
    requires ValidOps(o)
    ensures Absorb(o, x, r, t, Expel(o, x, r, t, n)) == n
  {
  }

  lemma InputInverse<W(!new)>(o: Ops<W>, r: Rotation, t: W, w: W, n: W)
    requires ValidOps(o)
    ensures Absorb(o, InputFor(o, r, t, w, n), r, t, w) == n
  {
    var z, u := o.xor(t, w), o.untwist(n);
    assert o.xor(o.xor(z, u), z) == o.xor(z, o.xor(z, u));
  }

  /** `entropy_pool`, `entropy_add_ptr` and `entropy_input_rotate`. */
  datatype Pool<W> = Pool(words: seq<W>, ptr: nat, rot: Rotation)

  predicate Valid<W>(s: Pool<W>) {
    |s.words| == POOLWORDS && s.ptr < POOLWORDS
  }

  /** `(p - 1) & POOLMASK` */
  function Prev(p: nat): (i: nat)
    requires p < POOLWORDS
    ensures i < POOLWORDS && (i + 1) % POOLWORDS == p
  {
    (p + POOLWORDS - 1) % POOLWORDS
  }

  function Turn(rot: Rotation, i: nat): Rotation
  {
    (rot + if i != 0 then 7 else 14) % 32
  }

  /** The sum of the words at the inner polynomial terms. */
  function Taps<W>(o: Ops<W>, words: seq<W>, i: nat): W
    requires |words| == POOLWORDS && i < POOLWORDS
  {
    o.xor(o.xor(o.xor(o.xor(words[(i + POOL_TAP1) % POOLWORDS], words[(i + POOL_TAP2) % POOLWORDS]),
                      words[(i + POOL_TAP3) % POOLWORDS]),
                words[(i + POOL_TAP4) % POOLWORDS]),
          words[(i + 1) % POOLWORDS])
  }

  lemma TapsMissSlot<W>(o: Ops<W>, words: seq<W>, i: nat, v: W)
    requires |words| == POOLWORDS && i < POOLWORDS
    ensures Taps(o, words[i := v], i) == Taps(o, words, i)
  {
  }

  /** One turn of the loop. */
  function Mix<W>(o: Ops<W>, s: Pool<W>, x: W): (r: Pool<W>)
    requires Valid(s)
    ensures Valid(r) && r.ptr == Prev(s.ptr) && r.rot == Turn(s.rot, r.ptr)
  {
    var i := Prev(s.ptr);
    Pool(s.words[i := Absorb(o, x, s.rot, Taps(o, s.words, i), s.words[i])], i, Turn(s.rot, i))
  }

  function Unmix<W>(o: Ops<W>, s: Pool<W>, x: W): (r: Pool<W>)
    requires Valid(s)
    ensures Valid(r)
  {
    var rot := (s.rot + 32 - if s.ptr != 0 then 7 else 14) % 32;
    Pool(s.words[s.ptr := Expel(o, x, rot, Taps(o, s.words, s.ptr), s.words[s.ptr])],
         (s.ptr + 1) % POOLWORDS, rot)
  }

  lemma MixInverse<W(!new)>(o: Ops<W>, s: Pool<W>, x: W)
    requires ValidOps(o) && Valid(s)
    ensures Unmix(o, Mix(o, s, x), x) == s
  {
    var i := Prev(s.ptr);
    var t := Taps(o, s.words, i);
    AbsorbInverse(o, x, s.rot, t, s.words[i]);
    var m := Mix(o, s, x);
    TapsMissSlot(o, s.words, i, m.words[i]);
    assert m.words[i := s.words[i]] == s.words;
  }

  lemma StepsBack(rot: Rotation, p: nat)
    requires p < POOLWORDS
    ensures Prev((p + 1) % POOLWORDS) == p && Turn((rot + 32 - if p != 0 then 7 else 14) % 32, p) == rot
  {
  }

  lemma UnmixInverse<W(!new)>(o: Ops<W>, s: Pool<W>, x: W)
    requires ValidOps(o) && Valid(s)
    ensures Mix(o, Unmix(o, s, x), x) == s
  {
    var u := Unmix(o, s, x);
    var t := Taps(o, s.words, s.ptr);
    StepsBack(s.rot, s.ptr);
    ExpelInverse(o, x, u.rot, t, s.words[s.ptr]);
    TapsMissSlot(o, s.words, s.ptr, u.words[s.ptr]);
    assert u.words[s.ptr := s.words[s.ptr]] == s.words;
  }

  /** The whole of `add_entropy_words`. */
  function MixAll<W>(o: Ops<W>, s: Pool<W>, xs: seq<W>): (r: Pool<W>)
    requires Valid(s)
    ensures Valid(r)
    decreases |xs|
  {
    if xs == [] then s else MixAll(o, Mix(o, s, xs[0]), xs[1..])
  }

  function UnmixAll<W>(o: Ops<W>, s: Pool<W>, xs: seq<W>): (r: Pool<W>)
    requires Valid(s)
    ensures Valid(r)
    decreases |xs|
  {
    if xs == [] then s else Unmix(o, UnmixAll(o, s, xs[1..]), xs[0])
  }

  /** For a fixed input the mixing is a bijection on (pool, pointer, rotation). */
  lemma {:induction false} MixAllBijective<W(!new)>(o: Ops<W>, s: Pool<W>, xs: seq<W>)
    requires ValidOps(o) && Valid(s)
    ensures UnmixAll(o, MixAll(o, s, xs), xs) == s
    ensures MixAll(o, UnmixAll(o, s, xs), xs) == s
    decreases |xs|
  {
    if xs == [] {
    } else {
      MixAllBijective(o, Mix(o, s, xs[0]), xs[1..]);
      MixInverse(o, s, xs[0]);
      MixAllBijective(o, s, xs[1..]);
      UnmixInverse(o, UnmixAll(o, s, xs[1..]), xs[0]);
    }
  }

  /** How many further words are mixed in before `slot` is written. */
  function Wait(ptr: nat, slot: nat): (d: nat)
    requires ptr < POOLWORDS && slot < POOLWORDS
    ensures d < POOLWORDS
  {
    (ptr + POOLWORDS - 1 - slot) % POOLWORDS
  }

  lemma WaitStep(ptr: nat, slot: nat)
    requires ptr < POOLWORDS && slot < POOLWORDS
    ensures Wait(ptr, slot) == 0 <==> slot == Prev(ptr)
    ensures Wait(Prev(ptr), slot) == if slot == Prev(ptr) then POOLWORDS - 1 else Wait(ptr, slot) - 1
  {
  }

  /** A slot keeps its word until its turn comes. */
  lemma {:induction false} SlotKept<W>(o: Ops<W>, s: Pool<W>, xs: seq<W>, slot: nat)
    requires Valid(s) && slot < POOLWORDS && |xs| <= Wait(s.ptr, slot)
    ensures MixAll(o, s, xs).words[slot] == s.words[slot]
    decreases |xs|
  {
    if xs == [] {
    } else {
      WaitStep(s.ptr, slot);
      SlotKept(o, Mix(o, s, xs[0]), xs[1..], slot);
    }
  }

  /** Pointer and rotation depend on how many words were mixed in, not on which. */
  lemma {:induction false} SameCursor<W>(o: Ops<W>, s: Pool<W>, t: Pool<W>, xs: seq<W>, ys: seq<W>)
    requires Valid(s) && Valid(t) && |xs| == |ys| && s.ptr == t.ptr && s.rot == t.rot
    ensures MixAll(o, s, xs).ptr == MixAll(o, t, ys).ptr && MixAll(o, s, xs).rot == MixAll(o, t, ys).rot
    decreases |xs|
  {
    if xs == [] {
    } else {
      SameCursor(o, Mix(o, s, xs[0]), Mix(o, t, ys[0]), xs[1..], ys[1..]);
    }
  }

  /** Up to POOLWORDS words, no two different inputs leave the same pool words. */
  lemma {:induction false} DifferentInputsDiffer<W(!new)>(o: Ops<W>, s: Pool<W>, xs: seq<W>, ys: seq<W>)
    requires ValidOps(o) && Valid(s) && |xs| == |ys| <= POOLWORDS && xs != ys
    ensures MixAll(o, s, xs).words != MixAll(o, s, ys).words
    decreases |xs|
  {
    var i := Prev(s.ptr);
    WaitStep(s.ptr, i);
    if xs[0] == ys[0] {
      assert xs == [xs[0]] + xs[1..] && ys == [ys[0]] + ys[1..];
      DifferentInputsDiffer(o, Mix(o, s, xs[0]), xs[1..], ys[1..]);
    } else {
      var t := Taps(o, s.words, i);
      AbsorbInverse(o, xs[0], s.rot, t, s.words[i]);
      AbsorbInverse(o, ys[0], s.rot, t, s.words[i]);
      SlotKept(o, Mix(o, s, xs[0]), xs[1..], i);
      SlotKept(o, Mix(o, s, ys[0]), ys[1..], i);
    }
  }

  /** Words that drive the next `n` slots to the target's. */
  function Steer<W>(o: Ops<W>, s: Pool<W>, target: seq<W>, n: nat): (xs: seq<W>)
    requires Valid(s) && |target| == POOLWORDS
    ensures |xs| == n
    decreases n
  {
    if n == 0 then []
    else
      var i := Prev(s.ptr);
      var x := InputFor(o, s.rot, Taps(o, s.words, i), s.words[i], target[i]);
      [x] + Steer(o, Mix(o, s, x), target, n - 1)
  }

  lemma {:induction false} SteerReaches<W(!new)>(o: Ops<W>, s: Pool<W>, target: seq<W>, n: nat, slot: nat)
    requires ValidOps(o) && Valid(s) && |target| == POOLWORDS && slot < POOLWORDS
    requires Wait(s.ptr, slot) < n <= POOLWORDS
    ensures MixAll(o, s, Steer(o, s, target, n)).words[slot] == target[slot]
    decreases n
  {
    var i := Prev(s.ptr);
    var x := InputFor(o, s.rot, Taps(o, s.words, i), s.words[i], target[i]);
    InputInverse(o, s.rot, Taps(o, s.words, i), s.words[i], target[i]);
    var rest := Steer(o, Mix(o, s, x), target, n - 1);
    assert ([x] + rest)[1..] == rest;
    WaitStep(s.ptr, slot);
    if slot == i {
      SlotKept(o, Mix(o, s, x), rest, slot);
    } else {
      SteerReaches(o, Mix(o, s, x), target, n - 1, slot);
    }
  }

  lemma {:induction false} MixAllJoin<W>(o: Ops<W>, s: Pool<W>, xs: seq<W>, ys: seq<W>)
    requires Valid(s)
    ensures MixAll(o, s, xs + ys) == MixAll(o, MixAll(o, s, xs), ys)
    decreases |xs|
  {
    if xs == [] {
      assert xs + ys == ys;
    } else {
      assert (xs + ys)[1..] == xs[1..] + ys;
      MixAllJoin(o, Mix(o, s, xs[0]), xs[1..], ys);
    }
  }

  /** With one word more than the pool holds, two inputs already collide. */
  lemma Collision<W(!new)>(o: Ops<W>, s: Pool<W>, n: nat, u: W, v: W) returns (xs: seq<W>, ys: seq<W>)
    requires ValidOps(o) && Valid(s) && n > POOLWORDS && u != v
    ensures |xs| == |ys| == n && xs != ys
    ensures MixAll(o, s, xs) == MixAll(o, s, ys)
  {
    var a, b := Mix(o, s, u), Mix(o, s, v);
    var p, q := Steer(o, a, s.words, POOLWORDS), Steer(o, b, s.words, POOLWORDS);
    SteeredTo(o, a, s.words);
    SteeredTo(o, b, s.words);
    SameCursor(o, a, b, p, q);
    var tail := seq(n - POOLWORDS - 1, _ => u);
    xs, ys := [u] + (p + tail), [v] + (q + tail);
    assert xs[0] != ys[0];
    assert xs[1..] == p + tail && ys[1..] == q + tail;
    MixAllJoin(o, a, p, tail);
    MixAllJoin(o, b, q, tail);
  }

  lemma SteeredTo<W(!new)>(o: Ops<W>, s: Pool<W>, target: seq<W>)
    requires ValidOps(o) && Valid(s) && |target| == POOLWORDS
    ensures MixAll(o, s, Steer(o, s, target, POOLWORDS)).words == target
  {
    var r := MixAll(o, s, Steer(o, s, target, POOLWORDS)).words;
    forall slot | 0 <= slot < POOLWORDS ensures r[slot] == target[slot] {
      SteerReaches(o, s, target, POOLWORDS, slot);
    }
  }

  ghost predicate KeepsInputsApart<W(!new)>(o: Ops<W>, s: Pool<W>, n: nat)
    requires Valid(s)
  {
    forall xs: seq<W>, ys: seq<W> ::
      |xs| == n && |ys| == n && xs != ys ==> MixAll(o, s, xs) != MixAll(o, s, ys)
  }

  /** Exactly the buffers of at most POOLWORDS words are absorbed without collision. */
  lemma InputsApartIff<W(!new)>(o: Ops<W>, s: Pool<W>, n: nat, u: W, v: W)
    requires ValidOps(o) && Valid(s) && u != v
    ensures KeepsInputsApart(o, s, n) <==> n <= POOLWORDS
  {
    if n <= POOLWORDS {
      forall xs: seq<W>, ys: seq<W> | |xs| == n && |ys| == n && xs != ys
        ensures MixAll(o, s, xs) != MixAll(o, s, ys)
      {
        DifferentInputsDiffer(o, s, xs, ys);
      }
    } else {
      var xs, ys := Collision(o, s, n, u, v);
    }
  }

  /** The globals of the source. */
  class Entropy<W(!new)> {
    const o: Ops<W>
    const pool: array<W>
    var addPtr: nat
    var inputRotate: Rotation

    constructor (o: Ops<W>, zero: W)
      ensures this.o == o && fresh(pool) && IsValid()
      ensures State() == Pool(seq(POOLWORDS, _ => zero), 0, 0)
    {
      this.o := o;
      pool := new W[POOLWORDS](_ => zero);
      addPtr, inputRotate := 0, 0;
      new;
      assert pool[..] == seq(POOLWORDS, _ => zero);
    }

    ghost predicate IsValid()
      reads this
    {
      pool.Length == POOLWORDS && addPtr < POOLWORDS
    }

    ghost function State(): (s: Pool<W>)
      requires IsValid()
      reads this, pool
      ensures Valid(s)
    {
      Pool(pool[..], addPtr, inputRotate)
    }

    method AddEntropyWords(buf: seq<W>)
      requires IsValid()
      modifies this, pool
      ensures IsValid()
      ensures State() == MixAll(o, old(State()), buf)
      ensures ValidOps(o) ==> UnmixAll(o, State(), buf) == old(State())
    {
      var n := 0;
      while n < |buf|
        invariant n <= |buf| && IsValid()
        invariant MixAll(o, State(), buf[n..]) == MixAll(o, old(State()), buf)
      {
        AddWord(buf[n]);
        assert buf[n..][1..] == buf[n + 1..];
        n := n + 1;
      }
      if ValidOps(o) {
        MixAllBijective(o, old(State()), buf);
      }
    }

    method AddWord(x: W)
      requires IsValid()
      modifies this, pool
      ensures IsValid()
      ensures State() == Mix(o, old(State()), x)
    {
      ghost var s := State();
      var w := o.rotate(x, inputRotate);
      Step();
      var t := ReadTaps(addPtr);
      w := o.xor(w, o.xor(t, pool[addPtr]));
      pool[addPtr] := o.twist(w);
      assert pool[..] == s.words[addPtr := o.twist(w)];
    }

    /** The pointer goes back by one, and the rotation on. */
    method Step()
      requires IsValid()
      modifies this
      ensures IsValid() && addPtr == Prev(old(addPtr)) && inputRotate == Turn(old(inputRotate), addPtr)
    {
      addPtr := (addPtr + POOLWORDS - 1) % POOLWORDS;
      inputRotate := (inputRotate + if addPtr != 0 then 7 else 14) % 32;
    }

    method ReadTaps(i: nat) returns (t: W)
      requires pool.Length == POOLWORDS && i < POOLWORDS
      ensures t == Taps(o, pool[..], i)
    {
      t := pool[(i + POOL_TAP1) % POOLWORDS];
      t := o.xor(t, pool[(i + POOL_TAP2) % POOLWORDS]);
      t := o.xor(t, pool[(i + POOL_TAP3) % POOLWORDS]);
      t := o.xor(t, pool[(i + POOL_TAP4) % POOLWORDS]);
      t := o.xor(t, pool[(i + 1) % POOLWORDS]);
    }
  }
}

/** The 32-bit words of the entropy pool. */
module PoolWords {
  import opened EntropyPool

  function Xor32(x: bv32, y: bv32): bv32 { x ^ y }

  /** A true rotation, also for a count of zero: `r` times by one bit. */
  function RotateLeft32(x: bv32, r: Rotation): bv32
    decreases r
  {
    if r == 0 then x else RotateLeft32(x, r - 1).RotateLeft(1)
  }

  function RotateRight32(x: bv32, r: Rotation): bv32
    decreases r
  {
    if r == 0 then x else RotateRight32(x.RotateRight(1), r - 1)
  }

  function Words32(): Ops<bv32> { Ops(Xor32, RotateLeft32, RotateRight32, Twist, Untwist) }

  lemma {:induction false} RotateBack(x: bv32, r: Rotation)
    ensures RotateRight32(RotateLeft32(x, r), r) == x
    decreases r
  {
    if r > 0 {
      BitBack(RotateLeft32(x, r - 1));
      RotateBack(x, r - 1);
    }
  }

  lemma {:induction false} RotateForth(x: bv32, r: Rotation)
    ensures RotateLeft32(RotateRight32(x, r), r) == x
    decreases r
  {
    if r > 0 {
      BitBack(x);
      RotateForth(x.RotateRight(1), r - 1);
    }
  }

  /** The word `k` counts `r`. */
  predicate Counts(r: nat, k: bv32) {
    if r == 0 then k == 0 else 0 < k < 32 && Counts(r - 1, k - 1)
  }

  /** The source's expression for a rotation by `k`. */
  predicate ShiftsTo(x: bv32, k: bv32, y: bv32) {
    k < 32 && y == (x << k) | (x >> (32 - k))
  }

  /** The same as a value, so that the bits stay out of the induction. */
  function Shifts(x: bv32): (bv32, bv32) -> bool {
    (k: bv32, y: bv32) => ShiftsTo(x, k, y)
  }

  lemma ShiftNone(x: bv32)
    ensures Shifts(x)(0, x)
  {
  }

  lemma ShiftBits(x: bv32, y: bv32, j: bv32, k: bv32)
    requires j < 31 && k == j + 1 && y == (x << j) | (x >> (32 - j))
    ensures y.RotateLeft(1) == (x << k) | (x >> (32 - k))
  {
  }

  lemma ShiftsOn(x: bv32, y: bv32, j: bv32, k: bv32)
    requires j < 31 && k == j + 1 && ShiftsTo(x, j, y)
    ensures ShiftsTo(x, k, y.RotateLeft(1))
  {
    ShiftBits(x, y, j, k);
  }

  lemma ShiftOne(x: bv32, y: bv32, j: bv32, k: bv32)
    requires j < 31 && k == j + 1 && Shifts(x)(j, y)
    ensures Shifts(x)(k, y.RotateLeft(1))
  {
    ShiftsOn(x, y, j, k);
  }

  lemma RotateOne(x: bv32, r: Rotation, j: bv32, k: bv32)
    requires 0 < r && j < 31 && k == j + 1 && Shifts(x)(j, RotateLeft32(x, r - 1))
    ensures Shifts(x)(k, RotateLeft32(x, r))
  {
    ShiftOne(x, RotateLeft32(x, r - 1), j, k);
  }

  /** Rotating bit by bit is the pair of shifts, for every count including zero. */
  lemma {:induction false} RotateIsShifts(x: bv32, r: Rotation, k: bv32)
    requires Counts(r, k)
    ensures Shifts(x)(k, RotateLeft32(x, r))
    decreases r
  {
    if r == 0 {
      ShiftNone(x);
    } else {
      RotateIsShifts(x, r - 1, k - 1);
      RotateOne(x, r, k - 1, k);
    }
  }

  lemma BitBack(x: bv32)
    ensures x.RotateLeft(1).RotateRight(1) == x && x.RotateRight(1).RotateLeft(1) == x
  {
  }

  lemma XorLaws(x: bv32, y: bv32)
    ensures x ^ y == y ^ x && x ^ (x ^ y) == y
  {
  }

  lemma RotateLaws()
    ensures forall x, r :: RotateRight32(RotateLeft32(x, r), r) == x
    ensures forall x, r :: RotateLeft32(RotateRight32(x, r), r) == x
  {
    forall x, r
      ensures RotateRight32(RotateLeft32(x, r), r) == x && RotateLeft32(RotateRight32(x, r), r) == x
    {
      RotateBack(x, r);
      RotateForth(x, r);
    }
  }

  lemma TwistLaws()
    ensures forall x :: Untwist(Twist(x)) == x
    ensures forall x :: Twist(Untwist(x)) == x
  {
    forall x ensures Untwist(Twist(x)) == x && Twist(Untwist(x)) == x {
      TwistInverse(x);
      UntwistInverse(x);
    }
  }

  lemma XorsLaws()
    ensures forall x, y :: Xor32(x, y) == Xor32(y, x)
    ensures forall x, y :: Xor32(x, Xor32(x, y)) == y
  {
    forall x, y ensures Xor32(x, y) == Xor32(y, x) && Xor32(x, Xor32(x, y)) == y {
      XorLaws(x, y);
    }
  }

  lemma WordsValid()
    ensures ValidOps(Words32())
  {
    XorsLaws();
    RotateLaws();
    TwistLaws();
  }

  /** The claims made for the pool, of the actual mixing function. */
  lemma PoolPreservesEntropy(s: Pool<bv32>, xs: seq<bv32>, n: nat)
    requires Valid(s)
    ensures UnmixAll(Words32(), MixAll(Words32(), s, xs), xs) == s
    ensures MixAll(Words32(), UnmixAll(Words32(), s, xs), xs) == s
    ensures KeepsInputsApart(Words32(), s, n) <==> n <= POOLWORDS
  {
    WordsValid();
    MixAllBijective(Words32(), s, xs);
    InputsApartIff(Words32(), s, n, 0, 1);
  }

  function TwistTable(i: bv32): bv32 {
    if i == 0 then 0x00000000 else if i == 1 then 0x3b6e20c8
    else if i == 2 then 0x76dc4190 else if i == 3 then 0x4db26158
    else if i == 4 then 0xedb88320 else if i == 5 then 0xd6d6a3e8
    else if i == 6 then 0x9b64c2b0 else 0xa00ae278
  }

  function Twist(w: bv32): bv32 {
    (w >> 3) ^ TwistTable(w & 7)
  }

  /** What a step adds, by the bit that falls off. */
  function Feedback(bit: bool): bv32 {
    if bit then 0xedb88320 else 0
  }

  /** One step of the shift register of the CRC-32 polynomial. */
  function CrcStep(w: bv32): bv32 {
    (w >> 1) ^ Feedback(w & 1 != 0)
  }

  /** Feedback does not reach the bits that fall off next. */
  lemma NextBits(w: bv32, p: bv32)
    requires p == 0xedb88320 || p == 0
    ensures ((w >> 1) ^ p) & 1 == (w >> 1) & 1 && (((w >> 1) ^ p) >> 1) & 1 == (w >> 2) & 1
  {
  }

  lemma ShiftAdds(x: bv32, y: bv32)
    ensures (x ^ y) >> 1 == (x >> 1) ^ (y >> 1)
  {
  }

  lemma XorRegroups(x: bv32, y: bv32, z: bv32)
    ensures (x ^ y) ^ z == x ^ (y ^ z)
  {
  }

  lemma TableIs(w: bv32)
    ensures TwistTable(w & 7)
      == (((Feedback(w & 1 != 0) >> 1) ^ Feedback((w >> 1) & 1 != 0)) >> 1) ^ Feedback((w >> 2) & 1 != 0)
  {
  }

  /** Three steps, the feedback collected. */
  lemma ThreeShifts(w: bv32, p: bv32, q: bv32, r: bv32)
    ensures (((((w >> 1) ^ p) >> 1) ^ q) >> 1) ^ r == (w >> 3) ^ ((((p >> 1) ^ q) >> 1) ^ r)
  {
    ShiftAdds(w >> 1, p);
    XorRegroups(w >> 2, p >> 1, q);
    ShiftAdds(w >> 2, (p >> 1) ^ q);
    XorRegroups(w >> 3, ((p >> 1) ^ q) >> 1, r);
  }

  /** The table saves three steps of it. */
  lemma TwistIsCrc(w: bv32)
    ensures Twist(w) == CrcStep(CrcStep(CrcStep(w)))
  {
    var p, q, r := Feedback(w & 1 != 0), Feedback((w >> 1) & 1 != 0), Feedback((w >> 2) & 1 != 0);
    var a := (w >> 1) ^ p;
    var b := (a >> 1) ^ q;
    NextBits(w, p);
    NextBits(w >> 1, q);
    ThreeShifts(w, p, q, r);
    TableIs(w);
  }

  /** The table index whose entry has these three top bits. */
  function TopIndex(top: bv32): bv32 {
    if top == 0 then 0 else if top == 1 then 1
    else if top == 3 then 2 else if top == 2 then 3
    else if top == 7 then 4 else if top == 6 then 5
    else if top == 4 then 6 else 7
  }

  function Untwist(y: bv32): bv32 {
    ((y ^ TwistTable(TopIndex(y >> 29))) << 3) | TopIndex(y >> 29)
  }

  /** The twist loses nothing: the eight table entries differ in their top three bits. */
  lemma TwistInverse(w: bv32)
    ensures Untwist(Twist(w)) == w
  {
  }

  lemma UntwistInverse(y: bv32)
    ensures Twist(Untwist(y)) == y
  {
    var i := TopIndex(y >> 29);
    var t := TwistTable(i);
    TopIndexFits(y >> 29);
    SameTop(y, t);
    Reassemble(y ^ t, i);
    XorTwice(y, t);
  }

  lemma TopIndexFits(top: bv32)
    requires top < 8
    ensures TopIndex(top) < 8 && TwistTable(TopIndex(top)) >> 29 == top
  {
  }

  lemma SameTop(y: bv32, t: bv32)
    ensures y >> 29 < 8
    ensures y >> 29 == t >> 29 ==> (y ^ t) >> 29 == 0
  {
  }

  lemma Reassemble(z: bv32, i: bv32)
    requires z >> 29 == 0 && i < 8
    ensures ((z << 3) | i) & 7 == i && ((z << 3) | i) >> 3 == z
  {
  }

  lemma XorTwice(x: bv32, y: bv32)
    ensures (x ^ y) ^ y == x
  {
  }

}
