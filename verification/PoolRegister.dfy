/**
 * The entropy pool as the shift register it stands for (dev/rnd.c): what is written is a function of the input and of
 * the words written 1, 411, 819, 1231, 1638 and 2048 steps before, the terms of the stirring polynomial. The ring, its
 * pointer and their arithmetic do not show.
 */
module PoolRegister {
  import opened EntropyPool

  /** The word written `d` steps ago. */
  function Past<W>(s: Pool<W>, d: nat): W
    requires Valid(s) && 1 <= d <= POOLWORDS
  {
    s.words[(s.ptr + d - 1) % POOLWORDS]
  }

  /** The words at the terms of x^2048 + x^1638 + x^1231 + x^819 + x^411 + x + 1, added up. */
  function Feedback<W>(o: Ops<W>, s: Pool<W>): W
    requires Valid(s)
  {
    var inner := o.xor(o.xor(o.xor(o.xor(Past(s, 1638), Past(s, 1231)), Past(s, 819)), Past(s, 411)), Past(s, 1));
    o.xor(inner, Past(s, 2048))
  }

  lemma PastMoves(p: nat, d: nat)
    requires p < POOLWORDS && 1 <= d < POOLWORDS
    ensures (Prev(p) + d) % POOLWORDS == (p + d - 1) % POOLWORDS && (p + d - 1) % POOLWORDS != Prev(p)
  {
  }

  lemma PastAt(p: nat, d: nat)
    requires p < POOLWORDS && 1 <= d <= POOLWORDS
    ensures (Prev(p) + d) % POOLWORDS == (p + d - 1) % POOLWORDS
    ensures Prev(p) == (p + POOLWORDS - 1) % POOLWORDS
  {
  }

  /** One word mixed in: input and feedback come in at the start of the register. */
  lemma MixComesIn<W>(o: Ops<W>, s: Pool<W>, x: W)
    requires Valid(s)
    ensures Past(Mix(o, s, x), 1) == o.twist(o.xor(o.rotate(x, s.rot), Feedback(o, s)))
  {
    FeedbackIsTaps(o, s);
  }

  /** And the register moves on by one. */
  lemma MixMovesOn<W>(o: Ops<W>, s: Pool<W>, x: W, d: nat)
    requires Valid(s) && 1 <= d < POOLWORDS
    ensures Past(Mix(o, s, x), d + 1) == Past(s, d)
  {
    PastMoves(s.ptr, d);
  }

  lemma FeedbackIsTaps<W>(o: Ops<W>, s: Pool<W>)
    requires Valid(s)
    ensures Feedback(o, s) == o.xor(Taps(o, s.words, Prev(s.ptr)), s.words[Prev(s.ptr)])
  {
    PastAt(s.ptr, 1638);
    PastAt(s.ptr, 1231);
    PastAt(s.ptr, 819);
    PastAt(s.ptr, 411);
    PastAt(s.ptr, 1);
  }

  // ----- The rotation of the input -----

  /** How many words until the pointer has come down to the first one. */
  function ToFirst(ptr: nat): nat {
    if ptr == 0 then POOLWORDS else ptr
  }

  function Rotated(rot: Rotation, ptr: nat, n: nat): Rotation {
    (rot + 7 * n + (if n >= ToFirst(ptr) then 7 else 0)) % 32
  }

  lemma Reduced(a: nat, b: nat, c: nat)
    requires c == a + b
    ensures (a % 32 + b) % 32 == c % 32
  {
    var d, q := a % 32 + b, a / 32;
    assert c == 32 * q + d;
    assert c == 32 * (q + d / 32) + d % 32;
  }

  lemma FirstNearer(ptr: nat)
    requires ptr < POOLWORDS
    ensures ToFirst(ptr) == if Prev(ptr) == 0 then 1 else ToFirst(Prev(ptr)) + 1
  {
  }

  lemma RotatedStep(rot: Rotation, ptr: nat, n: nat)
    requires ptr < POOLWORDS && 0 < n <= POOLWORDS
    ensures Rotated(rot, ptr, n) == Rotated(Turn(rot, Prev(ptr)), Prev(ptr), n - 1)
  {
    var more, p := 7 * (n - 1), Prev(ptr);
    FirstNearer(ptr);
    if p == 0 {
      Reduced(rot + 14, more, rot + 7 * n + 7);
    } else if n >= ToFirst(ptr) {
      Reduced(rot + 7, more + 7, rot + 7 * n + 7);
    } else {
      Reduced(rot + 7, more, rot + 7 * n);
    }
  }

  /** Seven bits further with every word, and seven more once in a pass over the pool. */
  lemma {:induction false} RotationAfter<W>(o: Ops<W>, s: Pool<W>, xs: seq<W>)
    requires Valid(s) && |xs| <= POOLWORDS
    ensures MixAll(o, s, xs).rot == Rotated(s.rot, s.ptr, |xs|)
    decreases |xs|
  {
    if xs == [] {
    } else {
      RotationAfter(o, Mix(o, s, xs[0]), xs[1..]);
      RotatedStep(s.rot, s.ptr, |xs|);
    }
  }

  /** After a whole pass the words are mixed in seven bits further round. */
  lemma PassRotates<W>(o: Ops<W>, s: Pool<W>, xs: seq<W>)
    requires Valid(s) && |xs| == POOLWORDS
    ensures MixAll(o, s, xs).rot == (s.rot + 7) % 32
  {
    RotationAfter(o, s, xs);
    WholePass(s.rot, s.ptr);
  }

  lemma WholePass(rot: Rotation, ptr: nat)
    requires ptr < POOLWORDS
    ensures Rotated(rot, ptr, POOLWORDS) == (rot + 7) % 32
  {
    assert ToFirst(ptr) <= POOLWORDS;
  }
}
