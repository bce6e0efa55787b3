/**
 The SHA-2 block transform (crypto/sha2.c). The code keeps the last sixteen
 schedule words in a ring and exists twice: rolled, shifting the eight registers
 every round, and unrolled, renaming them instead. Words and logical functions
 are a parameter, so that SHA-256 and SHA-512 are two instances.
 */
module Sha2Transform {
  import opened Bytes

  datatype Ops<!W> = Ops(
    rounds: nat,
    add: (W, W) -> W,
    load: (seq<byte>, nat) -> W,
    k: nat -> W,
    bigSigma0: W -> W, bigSigma1: W -> W,
    smallSigma0: W -> W, smallSigma1: W -> W,
    ch: (W, W, W) -> W, maj: (W, W, W) -> W)

  /** Marks the operands at which the laws of addition are wanted. */
  predicate Sum<W>(o: Ops<W>, x: W, y: W, z: W) {
    true
  }

  /** What the code relies on: modular addition is commutative and associative. */
  ghost predicate ValidOps<W(!new)>(o: Ops<W>) {
    && o.rounds > 16 && o.rounds % 8 == 0
    && forall x, y, z {:trigger Sum(o, x, y, z)} ::
         Sum(o, x, y, z) ==> o.add(x, y) == o.add(y, x) && o.add(o.add(x, y), z) == o.add(x, o.add(y, z))
  }

  datatype Regs<W> = Regs(a: W, b: W, c: W, d: W, e: W, f: W, g: W, h: W)

  /** Section 6.2.2 of FIPS 180-4, step 1: word `t` of the message schedule. */
  function Schedule<W>(o: Ops<W>, block: seq<byte>, t: nat): W {
    if t < 16 then o.load(block, t)
    else
      o.add(o.add(o.add(o.smallSigma1(Schedule(o, block, t - 2)), Schedule(o, block, t - 7)),
                  o.smallSigma0(Schedule(o, block, t - 15))),
            Schedule(o, block, t - 16))
  }

  function T1<W>(o: Ops<W>, r: Regs<W>, k: W, w: W): W {
    o.add(o.add(o.add(o.add(r.h, o.bigSigma1(r.e)), o.ch(r.e, r.f, r.g)), k), w)
  }

  function T2<W>(o: Ops<W>, r: Regs<W>): W {
    o.add(o.bigSigma0(r.a), o.maj(r.a, r.b, r.c))
  }

  /** Section 6.2.2 of FIPS 180-4, step 3: one round. */
  function Round<W>(o: Ops<W>, r: Regs<W>, k: W, w: W): Regs<W> {
    var t1 := T1(o, r, k, w);
    Regs(o.add(t1, T2(o, r)), r.a, r.b, r.c, o.add(r.d, t1), r.e, r.f, r.g)
  }

  function Rounds<W>(o: Ops<W>, block: seq<byte>, r: Regs<W>, t: nat): Regs<W> {
    if t == 0 then r else Round(o, Rounds(o, block, r, t - 1), o.k(t - 1), Schedule(o, block, t - 1))
  }

  function AddRegs<W>(o: Ops<W>, x: Regs<W>, y: Regs<W>): Regs<W> {
    Regs(o.add(x.a, y.a), o.add(x.b, y.b), o.add(x.c, y.c), o.add(x.d, y.d),
         o.add(x.e, y.e), o.add(x.f, y.f), o.add(x.g, y.g), o.add(x.h, y.h))
  }

  /** Section 6.2.2 of FIPS 180-4: the next intermediate hash value. */
  function Compress<W>(o: Ops<W>, state: Regs<W>, block: seq<byte>): Regs<W> {
    AddRegs(o, state, Rounds(o, block, state, o.rounds))
  }

  /** The ring holds exactly the last sixteen schedule words before word `j`. */
  ghost predicate Ring<W>(o: Ops<W>, block: seq<byte>, w: seq<W>, j: nat) {
    |w| == 16 && forall t :: 0 <= t < j && j <= t + 16 ==> w[t % 16] == Schedule(o, block, t)
  }

  lemma RingStep<W>(o: Ops<W>, block: seq<byte>, w: seq<W>, j: nat, x: W)
    requires Ring(o, block, w, j) && x == Schedule(o, block, j)
    ensures Ring(o, block, w[j % 16 := x], j + 1)
  {
    forall t | 0 <= t < j && j < t + 16 ensures t % 16 != j % 16 {
      Apart16(t, j);
    }
  }

  lemma Apart16(t: nat, j: nat)
    requires t < j < t + 16
    ensures t % 16 != j % 16
  {
  }

  /** The in-ring expansion `W[j] += s1 + W[j+9] + s0` yields schedule word `j`. */
  lemma RingExpands<W(!new)>(o: Ops<W>, block: seq<byte>, w: seq<W>, j: nat)
    requires ValidOps(o) && Ring(o, block, w, j) && 16 <= j
    ensures
      o.add(w[j % 16], o.add(o.add(o.smallSigma1(w[(j + 14) % 16]), w[(j + 9) % 16]), o.smallSigma0(w[(j + 1) % 16])))
      == Schedule(o, block, j)
  {
    var x := o.add(o.add(o.smallSigma1(w[(j + 14) % 16]), w[(j + 9) % 16]), o.smallSigma0(w[(j + 1) % 16]));
    assert Sum(o, w[j % 16], x, x);
    RingHolds(o, block, w, j, j - 16, j);
    RingHolds(o, block, w, j, j - 2, j + 14);
    RingHolds(o, block, w, j, j - 7, j + 9);
    RingHolds(o, block, w, j, j - 15, j + 1);
  }

  lemma RingHolds<W>(o: Ops<W>, block: seq<byte>, w: seq<W>, j: nat, t: nat, at: nat)
    requires Ring(o, block, w, j) && t < j <= t + 16 && at == t + 16
    ensures w[at % 16] == Schedule(o, block, t)
  {
    assert at % 16 == t % 16;
  }

  function Load<W>(s: seq<W>): Regs<W>
    requires |s| == 8
  {
    Regs(s[0], s[1], s[2], s[3], s[4], s[5], s[6], s[7])
  }

  /** The closing additions of the working registers into the state. */
  method AddState<W>(o: Ops<W>, state: array<W>, r: Regs<W>)
    requires state.Length == 8
    modifies state
    ensures Load(state[..]) == AddRegs(o, old(Load(state[..])), r)
  {
    state[0] := o.add(state[0], r.a);
    state[1] := o.add(state[1], r.b);
    state[2] := o.add(state[2], r.c);
    state[3] := o.add(state[3], r.d);
    state[4] := o.add(state[4], r.e);
    state[5] := o.add(state[5], r.f);
    state[6] := o.add(state[6], r.g);
    state[7] := o.add(state[7], r.h);
  }

  /** Rounds 0 to 15 put schedule word `j` into the ring, straight from the block. */
  method LoadWord<W>(o: Ops<W>, data: seq<byte>, w: array<W>, j: nat) returns (x: W)
    requires w.Length == 16 && j < 16 && Ring(o, data, w[..], j)
    modifies w
    ensures x == Schedule(o, data, j) && Ring(o, data, w[..], j + 1)
  {
    ghost var w0 := w[..];
    w[j] := o.load(data, j);
    x := w[j];
    RingStep(o, data, w0, j, x);
    assert w[..] == w0[j % 16 := x];
  }

  /** Later rounds expand it in place: `W[j&15] += s1 + W[(j+9)&15] + s0`. */
  method ExpandWord<W(!new)>(o: Ops<W>, ghost data: seq<byte>, w: array<W>, j: nat) returns (x: W)
    requires ValidOps(o) && w.Length == 16 && 16 <= j && Ring(o, data, w[..], j)
    modifies w
    ensures x == Schedule(o, data, j) && Ring(o, data, w[..], j + 1)
  {
    ghost var w0 := w[..];
    RingExpands(o, data, w0, j);
    var s0 := o.smallSigma0(w[(j + 1) % 16]);
    var s1 := o.smallSigma1(w[(j + 14) % 16]);
    w[j % 16] := o.add(w[j % 16], o.add(o.add(s1, w[(j + 9) % 16]), s0));
    x := w[j % 16];
    RingStep(o, data, w0, j, x);
    assert w[..] == w0[j % 16 := x];
  }

  /** One round of the rolled code: compute the two temporaries and move every register along. */
  method RoundShifted<W(!new)>(o: Ops<W>, data: seq<byte>, ghost r0: Regs<W>, w: array<W>, j: nat, r: Regs<W>)
    returns (r': Regs<W>)
    requires ValidOps(o) && w.Length == 16 && Ring(o, data, w[..], j)
    requires r == Rounds(o, data, r0, j)
    modifies w
    ensures Ring(o, data, w[..], j + 1)
    ensures r' == Rounds(o, data, r0, j + 1)
  {
    var x;
    if j < 16 {
      x := LoadWord(o, data, w, j);
    } else {
      x := ExpandWord(o, data, w, j);
    }
    var t1, t2 := T1(o, r, o.k(j), x), T2(o, r);
    r' := Regs(o.add(t1, t2), r.a, r.b, r.c, o.add(r.d, t1), r.e, r.f, r.g);
  }

  method AllRoundsShifted<W(!new, 0)>(o: Ops<W>, data: seq<byte>, r0: Regs<W>) returns (r: Regs<W>)
    requires ValidOps(o)
    ensures r == Rounds(o, data, r0, o.rounds)
  {
    r := r0;
    var w := new W[16];
    for j := 0 to o.rounds
      invariant Ring(o, data, w[..], j) && r == Rounds(o, data, r0, j)
    {
      r := RoundShifted(o, data, r0, w, j, r);
    }
  }

  /** The rolled `SHA256Transform` / `SHA512Transform`. */
  method TransformRolled<W(!new, 0)>(o: Ops<W>, state: array<W>, data: seq<byte>)
    requires ValidOps(o) && state.Length == 8
    modifies state
    ensures Load(state[..]) == Compress(o, old(Load(state[..])), data)
  {
    var r := AllRoundsShifted(o, data, Load(state[..]));
    AddState(o, state, r);
  }

  /** The `ROUND` macros: two registers change, and the next round is called with its arguments rotated. */
  method RoundRenamed<W(!new)>(o: Ops<W>, data: seq<byte>, ghost r0: Regs<W>, w: array<W>, j: nat,
                               a: W, b: W, c: W, d: W, e: W, f: W, g: W, h: W) returns (d': W, h': W)
    requires ValidOps(o) && w.Length == 16 && Ring(o, data, w[..], j)
    requires Regs(a, b, c, d, e, f, g, h) == Rounds(o, data, r0, j)
    modifies w
    ensures Ring(o, data, w[..], j + 1)
    ensures Regs(h', a, b, c, d', e, f, g) == Rounds(o, data, r0, j + 1)
  {
    var x;
    if j < 16 {
      x := LoadWord(o, data, w, j);
    } else {
      x := ExpandWord(o, data, w, j);
    }
    var t1 := o.add(o.add(o.add(o.add(h, o.bigSigma1(e)), o.ch(e, f, g)), o.k(j)), x);
    d' := o.add(d, t1);
    h' := o.add(o.add(t1, o.bigSigma0(a)), o.maj(a, b, c));
    assert Sum(o, t1, o.bigSigma0(a), o.maj(a, b, c));
  }

  /** One pass of the unrolled code: eight rounds, after which every name fits again. */
  method EightRounds<W(!new)>(o: Ops<W>, data: seq<byte>, ghost r0: Regs<W>, w: array<W>, j: nat, r: Regs<W>)
    returns (r': Regs<W>)
    requires ValidOps(o) && w.Length == 16 && Ring(o, data, w[..], j)
    requires r == Rounds(o, data, r0, j)
    modifies w
    ensures Ring(o, data, w[..], j + 8)
    ensures r' == Rounds(o, data, r0, j + 8)
  {
    var a, b, c, d, e, f, g, h := r.a, r.b, r.c, r.d, r.e, r.f, r.g, r.h;
    d, h := RoundRenamed(o, data, r0, w, j, a, b, c, d, e, f, g, h);
    c, g := RoundRenamed(o, data, r0, w, j + 1, h, a, b, c, d, e, f, g);
    b, f := RoundRenamed(o, data, r0, w, j + 2, g, h, a, b, c, d, e, f);
    a, e := RoundRenamed(o, data, r0, w, j + 3, f, g, h, a, b, c, d, e);
    h, d := RoundRenamed(o, data, r0, w, j + 4, e, f, g, h, a, b, c, d);
    g, c := RoundRenamed(o, data, r0, w, j + 5, d, e, f, g, h, a, b, c);
    f, b := RoundRenamed(o, data, r0, w, j + 6, c, d, e, f, g, h, a, b);
    e, a := RoundRenamed(o, data, r0, w, j + 7, b, c, d, e, f, g, h, a);
    r' := Regs(a, b, c, d, e, f, g, h);
  }

  method AllRoundsRenamed<W(!new, 0)>(o: Ops<W>, data: seq<byte>, r0: Regs<W>) returns (r: Regs<W>)
    requires ValidOps(o)
    ensures r == Rounds(o, data, r0, o.rounds)
  {
    r := r0;
    var w := new W[16];
    var j := 0;
    while j < o.rounds
      invariant j <= o.rounds && j % 8 == 0
      invariant Ring(o, data, w[..], j) && r == Rounds(o, data, r0, j)
    {
      RoomForEight(j, o.rounds);
      r := EightRounds(o, data, r0, w, j, r);
      j := j + 8;
    }
  }

  /** The unrolled transform: no register is ever moved. */
  method TransformUnrolled<W(!new, 0)>(o: Ops<W>, state: array<W>, data: seq<byte>)
    requires ValidOps(o) && state.Length == 8
    modifies state
    ensures Load(state[..]) == Compress(o, old(Load(state[..])), data)
  {
    var r := AllRoundsRenamed(o, data, Load(state[..]));
    AddState(o, state, r);
  }

  lemma RoomForEight(j: nat, n: nat)
    requires j < n && j % 8 == 0 && n % 8 == 0
    ensures j + 8 <= n && (j + 8) % 8 == 0
  {
  }
}
