/**
 * AES key wrap (crypto/key_wrap.c; RFC 3394). A semiblock is 64 bits; the block cipher is
 * any permutation of pairs of semiblocks and `mask` is the exclusive or with the big-endian
 * step number. Plaintext and ciphertext are octet ranges of one memory and may overlap anyhow.
 */
module KeyWrap {
  import opened Bytes
  import opened Endian

  datatype Ops<!T> = Ops(
    iv: T,
    encrypt: (T, T) -> (T, T),
    decrypt: (T, T) -> (T, T),
    mask: (T, nat) -> T)

  /** Decryption inverts encryption both ways, and the mask undoes itself. */
  predicate Law<T(==)>(o: Ops<T>, a: T, r: T, t: nat) {
    var e, d := o.encrypt(a, r), o.decrypt(a, r);
    o.decrypt(e.0, e.1) == (a, r) && o.encrypt(d.0, d.1) == (a, r) && o.mask(o.mask(a, t), t) == a
  }

  ghost predicate ValidOps<T(!new)>(o: Ops<T>) {
    forall a, r, t :: Law(o, a, r, t)
  }

  /** The register A and the array R of the standard. */
  datatype State<!T> = State(a: T, r: seq<T>)

  /** Step `t` of wrapping, at semiblock `i`. */
  function WrapStep<T>(o: Ops<T>, s: State<T>, i: nat, t: nat): (z: State<T>)
    requires i < |s.r|
    ensures |z.r| == |s.r|
  {
    var b := o.encrypt(s.a, s.r[i]);
    State(o.mask(b.0, t), s.r[i := b.1])
  }

  function UnwrapStep<T>(o: Ops<T>, s: State<T>, i: nat, t: nat): (z: State<T>)
    requires i < |s.r|
    ensures |z.r| == |s.r|
  {
    var b := o.decrypt(o.mask(s.a, t), s.r[i]);
    State(b.0, s.r[i := b.1])
  }

  lemma StepInverse<T(!new)>(o: Ops<T>, s: State<T>, i: nat, t: nat)
    requires ValidOps(o) && i < |s.r|
    ensures UnwrapStep(o, WrapStep(o, s, i, t), i, t) == s
    ensures WrapStep(o, UnwrapStep(o, s, i, t), i, t) == s
  {
    var w, u := WrapStep(o, s, i, t), UnwrapStep(o, s, i, t);
    var e := o.encrypt(s.a, s.r[i]);
    assert Law(o, s.a, s.r[i], t) && Law(o, e.0, e.1, t) && Law(o, o.mask(s.a, t), s.r[i], t);
    assert w.r[i := s.r[i]] == s.r;
    assert u.r[i := s.r[i]] == s.r;
  }

  /** The steps in `j` passes over `n` semiblocks. */
  function Steps(n: nat, j: nat): nat {
    if j == 0 then 0 else Steps(n, j - 1) + n
  }

  lemma StepsInSix(n: nat)
    ensures Steps(n, 6) == 6 * n
  {
    assert Steps(n, 1) == n;
    assert Steps(n, 2) == 2 * n;
    assert Steps(n, 3) == 3 * n;
    assert Steps(n, 4) == 4 * n;
  }

  /** Section 2.2.1: the state after `j` passes and `i` steps of the next. */
  function WrapTo<T>(o: Ops<T>, s: State<T>, j: nat, i: nat): (z: State<T>)
    requires i <= |s.r|
    ensures |z.r| == |s.r|
    decreases j, i
  {
    if i > 0 then WrapStep(o, WrapTo(o, s, j, i - 1), i - 1, Steps(|s.r|, j) + i)
    else if j > 0 then WrapTo(o, s, j - 1, |s.r|)
    else s
  }

  /** Section 2.2.2: the same steps taken back, last one first. */
  function UnwrapTo<T>(o: Ops<T>, s: State<T>, j: nat, i: nat): (z: State<T>)
    requires i <= |s.r|
    ensures |z.r| == |s.r|
    decreases j, i
  {
    if i > 0 then UnwrapTo(o, UnwrapStep(o, s, i - 1, Steps(|s.r|, j) + i), j, i - 1)
    else if j > 0 then UnwrapTo(o, s, j - 1, |s.r|)
    else s
  }

  lemma UnwrapToStep<T>(o: Ops<T>, s: State<T>, j: nat, i: nat, t: nat)
    requires 0 < i <= |s.r| && t == Steps(|s.r|, j) + i
    ensures UnwrapTo(o, s, j, i) == UnwrapTo(o, UnwrapStep(o, s, i - 1, t), j, i - 1)
  {
  }

  lemma {:induction false} UnwrapUndoesWrap<T(!new)>(o: Ops<T>, s: State<T>, j: nat, i: nat)
    requires ValidOps(o) && i <= |s.r|
    ensures UnwrapTo(o, WrapTo(o, s, j, i), j, i) == s
    decreases j, i
  {
    if i > 0 {
      StepInverse(o, WrapTo(o, s, j, i - 1), i - 1, Steps(|s.r|, j) + i);
      UnwrapUndoesWrap(o, s, j, i - 1);
    } else if j > 0 {
      UnwrapUndoesWrap(o, s, j - 1, |s.r|);
    }
  }

  lemma {:induction false} WrapUndoesUnwrap<T(!new)>(o: Ops<T>, s: State<T>, j: nat, i: nat)
    requires ValidOps(o) && i <= |s.r|
    ensures WrapTo(o, UnwrapTo(o, s, j, i), j, i) == s
    decreases j, i
  {
    if i > 0 {
      var t := Steps(|s.r|, j) + i;
      WrapUndoesUnwrap(o, UnwrapStep(o, s, i - 1, t), j, i - 1);
      StepInverse(o, s, i - 1, t);
    } else if j > 0 {
      WrapUndoesUnwrap(o, s, j - 1, |s.r|);
    }
  }

  function Wrap<T>(o: Ops<T>, p: seq<T>): (c: seq<T>)
    ensures |c| == |p| + 1
  {
    var s := WrapTo(o, State(o.iv, p), 6, 0);
    [s.a] + s.r
  }

  /** The recovered integrity value and data. */
  function Unwrap<T>(o: Ops<T>, c: seq<T>): (s: State<T>)
    requires |c| > 0
    ensures |s.r| == |c| - 1
  {
    UnwrapTo(o, State(c[0], c[1..]), 6, 0)
  }

  /** Unwrapping a wrapped key gives the key back, and is accepted. */
  lemma UnwrapWrap<T(!new)>(o: Ops<T>, p: seq<T>)
    requires ValidOps(o)
    ensures Unwrap(o, Wrap(o, p)) == State(o.iv, p)
  {
    var s := State(o.iv, p);
    UnwrapUndoesWrap(o, s, 6, 0);
    var w := WrapTo(o, s, 6, 0);
    assert ([w.a] + w.r)[1..] == w.r;
  }

  /** What is accepted is exactly what was wrapped: it is the wrap of the data returned. */
  lemma AcceptedIffWrapped<T(!new)>(o: Ops<T>, c: seq<T>)
    requires ValidOps(o) && |c| > 0
    ensures Unwrap(o, c).a == o.iv <==> Wrap(o, Unwrap(o, c).r) == c
    ensures Unwrap(o, c).a == o.iv <==> exists p :: Wrap(o, p) == c
  {
    var s := State(c[0], c[1..]);
    WrapUndoesUnwrap(o, s, 6, 0);
    assert [s.a] + s.r == c;
    forall p | Wrap(o, p) == c ensures Unwrap(o, c).a == o.iv {
      UnwrapWrap(o, p);
    }
  }

  // ----- The form of the standard that shifts its registers -----

  /** Step `t` of section 2.2.1 of RFC 3394: always the first register, which then goes to the end. */
  function ShiftStep<T>(o: Ops<T>, s: State<T>, t: nat): (z: State<T>)
    requires s.r != []
    ensures |z.r| == |s.r|
  {
    var b := o.encrypt(s.a, s.r[0]);
    State(o.mask(b.0, t), s.r[1..] + [b.1])
  }

  function ShiftTo<T>(o: Ops<T>, s: State<T>, t: nat): (z: State<T>)
    requires s.r != []
    ensures |z.r| == |s.r|
  {
    if t == 0 then s else ShiftStep(o, ShiftTo(o, s, t - 1), t)
  }

  /** The registers with the first `i` of them at the end. */
  function Turned<T>(s: State<T>, i: nat): State<T>
    requires i <= |s.r|
  {
    State(s.a, s.r[i..] + s.r[..i])
  }

  lemma TurnedStep<T>(o: Ops<T>, z: State<T>, i: nat, t: nat)
    requires 0 < i <= |z.r|
    ensures |Turned(z, i - 1).r| == |z.r|
    ensures ShiftStep(o, Turned(z, i - 1), t) == Turned(WrapStep(o, z, i - 1, t), i)
  {
    var b := o.encrypt(z.a, z.r[i - 1]);
    var r := z.r[i - 1 := b.1];
    assert (z.r[i - 1..] + z.r[..i - 1])[1..] == z.r[i..] + z.r[..i - 1];
    assert r[i..] == z.r[i..] && r[..i] == z.r[..i - 1] + [b.1];
    assert z.r[i..] + z.r[..i - 1] + [b.1] == r[i..] + r[..i];
  }

  lemma ShiftsOn<T>(o: Ops<T>, s: State<T>, z: State<T>, i: nat, t: nat)
    requires s.r != [] && 0 < i <= |z.r| && t > 0 && ShiftTo(o, s, t - 1) == Turned(z, i - 1)
    ensures ShiftTo(o, s, t) == Turned(WrapStep(o, z, i - 1, t), i)
  {
    TurnedStep(o, z, i, t);
  }

  lemma TurnedRound<T>(z: State<T>)
    ensures Turned(z, 0) == z && Turned(z, |z.r|) == z
  {
    assert z.r[0..] + z.r[..0] == z.r && z.r[|z.r|..] + z.r[..|z.r|] == z.r;
  }

  /** Indexing is shifting, but for where the registers are: for every number of passes and steps. */
  lemma {:induction false} IndexedIsShifted<T>(o: Ops<T>, s: State<T>, j: nat, i: nat, t: nat)
    requires s.r != [] && i <= |s.r| && t == Steps(|s.r|, j) + i
    ensures ShiftTo(o, s, t) == Turned(WrapTo(o, s, j, i), i)
    decreases j, i
  {
    if i > 0 {
      IndexedIsShifted(o, s, j, i - 1, t - 1);
      ShiftsOn(o, s, WrapTo(o, s, j, i - 1), i, t);
    } else if j > 0 {
      IndexedIsShifted(o, s, j - 1, |s.r|, t);
      TurnedRound(WrapTo(o, s, j - 1, |s.r|));
    } else {
      TurnedRound(s);
    }
  }

  lemma PassesAreShifted<T>(o: Ops<T>, s: State<T>, j: nat, t: nat)
    requires s.r != [] && t == Steps(|s.r|, j)
    ensures ShiftTo(o, s, t) == WrapTo(o, s, j, 0)
  {
    IndexedIsShifted(o, s, j, 0, t);
    TurnedRound(WrapTo(o, s, j, 0));
  }

  /** The wrap is what `6 n` steps of that form, numbered from 1, lead to. */
  lemma WrapIsShifted<T>(o: Ops<T>, p: seq<T>)
    requires p != []
    ensures var s := ShiftTo(o, State(o.iv, p), 6 * |p|); Wrap(o, p) == [s.a] + s.r
  {
    StepsInSix(|p|);
    PassesAreShifted(o, State(o.iv, p), 6, 6 * |p|);
  }

  // ----- The code -----

  type Semi = s: seq<byte> | |s| == 8 witness seq(8, _ => 0)

  /** The initial value of section 2.2.3.1 of RFC 3394. */
  const IV: Semi := [0xa6, 0xa6, 0xa6, 0xa6, 0xa6, 0xa6, 0xa6, 0xa6]

  /** `B[0] ^= htobe64(t)` */
  function MaskCount(a: Semi, t: nat): Semi {
    Xor(a, BigEndian(t, 8))
  }

  /** Key wrap with a block cipher on pairs of semiblocks. */
  function CipherOps(encrypt: (Semi, Semi) -> (Semi, Semi), decrypt: (Semi, Semi) -> (Semi, Semi)): Ops<Semi> {
    Ops(IV, encrypt, decrypt, MaskCount)
  }

  /** All results apply to every cipher whose two directions are inverse. */
  lemma CipherOpsValid(encrypt: (Semi, Semi) -> (Semi, Semi), decrypt: (Semi, Semi) -> (Semi, Semi))
    requires forall a, r {:trigger encrypt(a, r)} :: var e := encrypt(a, r); decrypt(e.0, e.1) == (a, r)
    requires forall a, r {:trigger decrypt(a, r)} :: var d := decrypt(a, r); encrypt(d.0, d.1) == (a, r)
    ensures ValidOps(CipherOps(encrypt, decrypt))
  {
    var o := CipherOps(encrypt, decrypt);
    forall a: Semi, r: Semi, t: nat ensures Law(o, a, r, t) {
      XorCancels(a, BigEndian(t, 8));
    }
  }

  /** The `n` semiblocks from octet `at` on. */
  ghost function View(m: seq<byte>, at: nat, n: nat): (r: seq<Semi>)
    requires at + 8 * n <= |m|
    ensures |r| == n && forall i :: 0 <= i < n ==> r[i] == m[at + 8 * i..at + 8 * i + 8]
  {
    seq(n, i requires 0 <= i < n => m[at + 8 * i..at + 8 * i + 8])
  }

  /** The view is unchanged where the octets are. */
  lemma ViewSame(m: seq<byte>, m': seq<byte>, at: nat, at': nat, n: nat)
    requires at + 8 * n <= |m| && at' + 8 * n <= |m'| && m[at..at + 8 * n] == m'[at'..at' + 8 * n]
    ensures View(m, at, n) == View(m', at', n)
  {
    forall i | 0 <= i < n ensures View(m, at, n)[i] == View(m', at', n)[i] {
      SubSlice(m, at, at + 8 * n, 8 * i, 8);
      SubSlice(m', at', at' + 8 * n, 8 * i, 8);
    }
  }

  /** Storing one semiblock updates one element of the view. */
  lemma ViewStore(m: seq<byte>, m': seq<byte>, at: nat, n: nat, i: nat, x: Semi)
    requires i < n && at + 8 * n <= |m| == |m'| && m'[at + 8 * i..at + 8 * i + 8] == x
    requires m[..at + 8 * i] == m'[..at + 8 * i] && m[at + 8 * i + 8..] == m'[at + 8 * i + 8..]
    ensures View(m', at, n) == View(m, at, n)[i := x]
  {
    forall j | 0 <= j < n && j != i ensures View(m', at, n)[j] == View(m, at, n)[j] {
      if j < i {
        SliceOfTake(m, at + 8 * i, at + 8 * j, at + 8 * j + 8);
        SliceOfTake(m', at + 8 * i, at + 8 * j, at + 8 * j + 8);
      } else {
        SubTail(m, at + 8 * i + 8, 8 * (j - i - 1), 8);
        SubTail(m', at + 8 * i + 8, 8 * (j - i - 1), 8);
      }
    }
  }

  /** `memmove` */
  method Move(mem: array<byte>, dst: nat, src: nat, n: nat)
    requires dst + n <= mem.Length && src + n <= mem.Length
    modifies mem
    ensures mem[dst..dst + n] == old(mem[src..src + n])
    ensures mem[..dst] == old(mem[..dst]) && mem[dst + n..] == old(mem[dst + n..])
  {
    forall k | 0 <= k < n {
      mem[dst + k] := mem[src + k];
    }
  }

  /** `aes_key_wrap` */
  method AesKeyWrap(o: Ops<Semi>, mem: array<byte>, p: nat, n: nat, c: nat)
    requires p + 8 * n <= mem.Length && c + 8 + 8 * n <= mem.Length
    modifies mem
    ensures View(mem[..], c, n + 1) == Wrap(o, View(old(mem[..]), p, n))
    ensures mem[..c] == old(mem[..c]) && mem[c + 8 + 8 * n..] == old(mem[c + 8 + 8 * n..])
  {
    ghost var s := State(o.iv, View(mem[..], p, n));
    LoadKey(o, mem, p, n, c);
    var t: nat, j: nat := 1, 0;
    while j <= 5
      invariant j <= 6 && t == Steps(n, j) + 1
      invariant Holds(mem[..], c, n, WrapTo(o, s, j, 0))
      invariant mem[..c] == old(mem[..c]) && mem[c + 8 + 8 * n..] == old(mem[c + 8 + 8 * n..])
    {
      WrapPass(o, mem, n, c, j, t, s);
      j, t := j + 1, t + n;
    }
    Joined(mem[..], c, n);
  }

  /** The register A sits in front of the array R. */
  ghost predicate Holds(m: seq<byte>, c: nat, n: nat, s: State<Semi>) {
    c + 8 + 8 * n <= |m| && s.a == m[c..c + 8] && s.r == View(m, c + 8, n)
  }

  lemma Joined(m: seq<byte>, c: nat, n: nat)
    requires c + 8 + 8 * n <= |m|
    ensures View(m, c, n + 1) == [m[c..c + 8]] + View(m, c + 8, n)
  {
    var v, w := View(m, c, n + 1), View(m, c + 8, n);
    forall i | 0 <= i < n ensures v[i + 1] == w[i] {
      assert c + 8 * (i + 1) == c + 8 + 8 * i;
    }
  }

  method LoadKey(o: Ops<Semi>, mem: array<byte>, p: nat, n: nat, c: nat)
    requires p + 8 * n <= mem.Length && c + 8 + 8 * n <= mem.Length
    modifies mem
    ensures Holds(mem[..], c, n, State(o.iv, View(old(mem[..]), p, n)))
    ensures mem[..c] == old(mem[..c]) && mem[c + 8 + 8 * n..] == old(mem[c + 8 + 8 * n..])
  {
    ghost var m := mem[..];
    Move(mem, c + 8, p, 8 * n);
    ghost var m' := mem[..];
    SliceOfTake(m, c + 8, c, c + 8);
    SliceOfTake(m', c + 8, c, c + 8);
    ViewSame(m, m', p, c + 8, n);
    PutRegister(mem, c, n, o.iv, State(m'[c..c + 8], View(m', c + 8, n)));
  }

  /** The inner loop: pass `j`. */
  method WrapPass(o: Ops<Semi>, mem: array<byte>, n: nat, c: nat, j: nat, t0: nat, ghost s: State<Semi>)
    requires c + 8 + 8 * n <= mem.Length && |s.r| == n && t0 == Steps(n, j) + 1
    requires Holds(mem[..], c, n, WrapTo(o, s, j, 0))
    modifies mem
    ensures Holds(mem[..], c, n, WrapTo(o, s, j, n))
    ensures mem[..c] == old(mem[..c]) && mem[c + 8 + 8 * n..] == old(mem[c + 8 + 8 * n..])
  {
    var i: nat, t: nat := 1, t0;
    while i <= n
      invariant 1 <= i <= n + 1 && t == Steps(n, j) + i
      invariant Holds(mem[..], c, n, WrapTo(o, s, j, i - 1))
      invariant mem[..c] == old(mem[..c]) && mem[c + 8 + 8 * n..] == old(mem[c + 8 + 8 * n..])
    {
      WrapInPlace(o, mem, c, n, i - 1, t, WrapTo(o, s, j, i - 1));
      i, t := i + 1, t + 1;
    }
  }

  method WrapInPlace(o: Ops<Semi>, mem: array<byte>, c: nat, n: nat, i: nat, t: nat, ghost s: State<Semi>)
    requires Holds(mem[..], c, n, s) && i < n
    modifies mem
    ensures Holds(mem[..], c, n, WrapStep(o, s, i, t))
    ensures mem[..c] == old(mem[..c]) && mem[c + 8 + 8 * n..] == old(mem[c + 8 + 8 * n..])
  {
    var at := c + 8 + 8 * i;
    var b := o.encrypt(mem[c..c + 8], mem[at..at + 8]);
    PutRegister(mem, c, n, o.mask(b.0, t), s);
    PutElement(mem, c, n, i, b.1, State(o.mask(b.0, t), s.r));
  }

  method PutRegister(mem: array<byte>, c: nat, n: nat, x: Semi, ghost s: State<Semi>)
    requires Holds(mem[..], c, n, s)
    modifies mem
    ensures Holds(mem[..], c, n, State(x, s.r))
    ensures mem[..c] == old(mem[..c]) && mem[c + 8 + 8 * n..] == old(mem[c + 8 + 8 * n..])
  {
    ghost var m := mem[..];
    CopyInto(mem, c, x);
    ghost var m' := mem[..];
    SubTail(m, c + 8, 0, 8 * n);
    SubTail(m', c + 8, 0, 8 * n);
    ViewSame(m, m', c + 8, c + 8, n);
    assert m[c + 8 + 8 * n..] == m[c + 8..][8 * n..] && m'[c + 8 + 8 * n..] == m'[c + 8..][8 * n..];
  }

  method PutElement(mem: array<byte>, c: nat, n: nat, i: nat, x: Semi, ghost s: State<Semi>)
    requires Holds(mem[..], c, n, s) && i < n
    modifies mem
    ensures Holds(mem[..], c, n, State(s.a, s.r[i := x]))
    ensures mem[..c] == old(mem[..c]) && mem[c + 8 + 8 * n..] == old(mem[c + 8 + 8 * n..])
  {
    ghost var m, at := mem[..], c + 8 + 8 * i;
    CopyInto(mem, c + 8 + 8 * i, x);
    ghost var m' := mem[..];
    ViewStore(m, m', c + 8, n, i, x);
    SliceOfTake(m, at, c, c + 8);
    SliceOfTake(m', at, c, c + 8);
    assert m[c + 8 + 8 * n..] == m[at + 8..][8 * (n - i - 1)..];
    assert m'[c + 8 + 8 * n..] == m'[at + 8..][8 * (n - i - 1)..];
  }

  /** `aes_key_unwrap`; the result is true where the code returns 0. */
  method AesKeyUnwrap(o: Ops<Semi>, mem: array<byte>, c: nat, p: nat, n: nat) returns (ok: bool)
    requires p + 8 * n <= mem.Length && c + 8 + 8 * n <= mem.Length
    modifies mem
    ensures View(mem[..], p, n) == Unwrap(o, View(old(mem[..]), c, n + 1)).r
    ensures ok <==> Unwrap(o, View(old(mem[..]), c, n + 1)).a == o.iv
    ensures mem[..p] == old(mem[..p]) && mem[p + 8 * n..] == old(mem[p + 8 * n..])
  {
    var a: Semi := mem[c..c + 8];
    ghost var m := mem[..];
    Joined(m, c, n);
    assert View(m, c, n + 1)[1..] == View(m, c + 8, n);
    Move(mem, p, c + 8, 8 * n);
    ViewSame(m, mem[..], c + 8, p, n);
    StepsInSix(n);
    a := UnwrapPasses(o, mem, a, p, n, 6, 6 * n);
    ok := a == o.iv;
  }

  /** The outer loop. */
  method UnwrapPasses(o: Ops<Semi>, mem: array<byte>, a: Semi, p: nat, n: nat, passes: nat, t0: nat) returns (a': Semi)
    requires p + 8 * n <= mem.Length && t0 == Steps(n, passes)
    modifies mem
    ensures State(a', View(mem[..], p, n)) == UnwrapTo(o, State(a, View(old(mem[..]), p, n)), passes, 0)
    ensures mem[..p] == old(mem[..p]) && mem[p + 8 * n..] == old(mem[p + 8 * n..])
  {
    a' := a;
    ghost var goal := UnwrapTo(o, State(a, View(mem[..], p, n)), passes, 0);
    var t: nat, j := t0, passes - 1;
    while j >= 0
      invariant -1 <= j < passes && t == Steps(n, j + 1)
      invariant UnwrapTo(o, State(a', View(mem[..], p, n)), j + 1, 0) == goal
      invariant mem[..p] == old(mem[..p]) && mem[p + 8 * n..] == old(mem[p + 8 * n..])
    {
      a' := UnwrapPass(o, mem, a', p, n, j, t);
      j, t := j - 1, t - n;
    }
  }

  /** The inner loop: pass `j`, backwards. */
  method UnwrapPass(o: Ops<Semi>, mem: array<byte>, a: Semi, p: nat, n: nat, j: nat, t0: nat) returns (a': Semi)
    requires p + 8 * n <= mem.Length && t0 == Steps(n, j) + n
    modifies mem
    ensures UnwrapTo(o, State(a', View(mem[..], p, n)), j, 0) == UnwrapTo(o, State(a, View(old(mem[..]), p, n)), j, n)
    ensures mem[..p] == old(mem[..p]) && mem[p + 8 * n..] == old(mem[p + 8 * n..])
  {
    a' := a;
    ghost var goal := UnwrapTo(o, State(a, View(mem[..], p, n)), j, n);
    var i: nat, t: nat := n, t0;
    while i >= 1
      invariant i <= n && t == Steps(n, j) + i
      invariant UnwrapTo(o, State(a', View(mem[..], p, n)), j, i) == goal
      invariant mem[..p] == old(mem[..p]) && mem[p + 8 * n..] == old(mem[p + 8 * n..])
    {
      a' := UnwrapTurn(o, mem, a', p, n, j, i, t, goal);
      i, t := i - 1, t - 1;
    }
  }

  /** One turn of it; what is left to do then leads to the same end. */
  method UnwrapTurn(o: Ops<Semi>, mem: array<byte>, a: Semi, p: nat, n: nat, ghost j: nat, i: nat, t: nat,
                    ghost goal: State<Semi>)
    returns (a': Semi)
    requires p + 8 * n <= mem.Length && 0 < i <= n && t == Steps(n, j) + i
    requires UnwrapTo(o, State(a, View(mem[..], p, n)), j, i) == goal
    modifies mem
    ensures UnwrapTo(o, State(a', View(mem[..], p, n)), j, i - 1) == goal
    ensures mem[..p] == old(mem[..p]) && mem[p + 8 * n..] == old(mem[p + 8 * n..])
  {
    UnwrapToStep(o, State(a, View(mem[..], p, n)), j, i, t);
    a' := UnwrapInPlace(o, mem, a, p, n, i - 1, t);
  }

  method UnwrapInPlace(o: Ops<Semi>, mem: array<byte>, a: Semi, p: nat, n: nat, i: nat, t: nat) returns (a': Semi)
    requires p + 8 * n <= mem.Length && i < n
    modifies mem
    ensures State(a', View(mem[..], p, n)) == UnwrapStep(o, State(a, View(old(mem[..]), p, n)), i, t)
    ensures mem[..p] == old(mem[..p]) && mem[p + 8 * n..] == old(mem[p + 8 * n..])
  {
    ghost var m := mem[..];
    var at := p + 8 * i;
    var b := o.decrypt(o.mask(a, t), mem[at..at + 8]);
    a' := b.0;
    CopyInto(mem, at, b.1);
    ghost var m' := mem[..];
    ViewStore(m, m', p, n, i, b.1);
    assert m[..p] == m[..at][..p] && m'[..p] == m'[..at][..p];
    assert m[p + 8 * n..] == m[at + 8..][8 * (n - i - 1)..] && m'[p + 8 * n..] == m'[at + 8..][8 * (n - i - 1)..];
  }
}
