/**
 * The block size arithmetic of `audio_setpar` (dev/audio.c), from the hardware's answers on. Sizes
 * are mathematical integers; products and quotients are those of Division.
 */
module AudioParams {
  import opened Bytes
  import opened Division
  import opened AudioRing

  function Gcd(a: nat, b: nat): nat
    decreases b
  {
    if b == 0 then a else Gcd(b, Rem(a, b))
  }

  /** `audio_gcd` */
  method AudioGcd(a0: nat, b0: nat) returns (a: nat)
    ensures a == Gcd(a0, b0)
  {
    a := a0;
    var b: nat := b0;
    while b > 0
      invariant Gcd(a, b) == Gcd(a0, b0)
      decreases b
    {
      var r := Rem(a, b);
      a := b;
      b := r;
    }
  }

  predicate Divides(d: nat, n: nat) {
    d > 0 && Whole(n, d)
  }

  lemma {:induction false} RemDivides(a: nat, b: nat, d: nat)
    requires b > 0 && Divides(d, b)
    ensures Divides(d, a) <==> Divides(d, Rem(a, b))
    decreases a
  {
    if a >= b {
      RemDivides(a - b, b, d);
      if Divides(d, a) {
        WholeSubtracts(a, b, d);
      }
      if Divides(d, a - b) {
        WholeAdds(a - b, b, d);
      }
    }
  }

  /** It is the greatest common divisor: its divisors are exactly the common ones. */
  lemma {:induction false} GcdIsGreatest(a: nat, b: nat, d: nat)
    ensures Divides(d, Gcd(a, b)) <==> Divides(d, a) && Divides(d, b)
    decreases b
  {
    if b == 0 {
      assert d > 0 ==> Whole(0, d);
    } else {
      GcdIsGreatest(b, Rem(a, b), d);
      if Divides(d, b) {
        RemDivides(a, b, d);
      }
    }
  }

  lemma GcdPositive(a: nat, b: nat)
    requires a > 0 || b > 0
    ensures Gcd(a, b) > 0 && Divides(Gcd(a, b), a) && Divides(Gcd(a, b), b)
  {
    GcdNotZero(a, b);
    var g := Gcd(a, b);
    assert Whole(0, g) && Whole(g, g);
    GcdIsGreatest(a, b, g);
  }

  lemma {:induction false} GcdNotZero(a: nat, b: nat)
    requires a > 0 || b > 0
    ensures Gcd(a, b) > 0
    decreases b
  {
    if b == 0 {
    } else {
      GcdNotZero(b, Rem(a, b));
    }
  }

  lemma {:induction false} WholeQuot(n: nat, d: nat)
    requires Divides(d, n)
    ensures n == Times(d, Quot(n, d)) && (n > 0 ==> Quot(n, d) > 0)
  {
    QuotRem(n, d);
    WholeNoRem(n, d);
  }

  /** The frames it takes to make a multiple of `m` bytes out of frames of `f` bytes. */
  function FramesFor(f: nat, m: nat): nat
    requires f > 0 && m > 0
  {
    GcdPositive(f, m);
    Quot(m, Gcd(f, m))
  }

  /** Exactly the multiples of that many frames fill whole multiples of `m` bytes. */
  lemma FramesForIff(f: nat, m: nat, k: nat)
    requires f > 0 && m > 0
    ensures FramesFor(f, m) > 0
    ensures Whole(Times(f, k), m) <==> Whole(k, FramesFor(f, m))
  {
    var n := FramesFor(f, m);
    GcdPositive(f, m);
    WholeQuot(m, Gcd(f, m));
    LcmIs(f, m);
    LcmIsLeast(f, m, Times(f, k));
    LcmIsLeast(f, m, Times(f, n));
    assert Times(f, n) == Lcm(f, m);
    assert Whole(Lcm(f, m), Lcm(f, m)) by { assert Whole(0, Lcm(f, m)); }
    TimesWhole(f, k);
    if Whole(Times(f, k), m) {
      Cancel(f, k, n);
    }
    if Whole(k, n) {
      FramesScale(f, n, m, k);
    }
  }

  lemma Exchange(g: nat, x: nat, y: nat)
    ensures Times(Times(g, x), y) == Times(Times(g, y), x)
  {
    TimesAssociates(g, x, y);
    TimesAssociates(g, y, x);
    TimesCommutes(x, y);
  }

  function Lcm(a: nat, b: nat): nat
    requires a > 0 && b > 0
  {
    GcdPositive(a, b);
    Quot(Times(a, b), Gcd(a, b))
  }

  lemma LcmIs(a: nat, b: nat)
    requires a > 0 && b > 0
    ensures var g := Gcd(a, b);
      && g > 0 && Times(g, Lcm(a, b)) == Times(a, b)
      && Lcm(a, b) == Times(a, Quot(b, g)) == Times(b, Quot(a, g))
  {
    GcdPositive(a, b);
    var g := Gcd(a, b);
    var x, y := Quot(a, g), Quot(b, g);
    WholeQuot(a, g);
    WholeQuot(b, g);
    Exchange(g, x, y);
    TimesAssociates(a, g, y);
    TimesCommutes(a, g);
    TimesAssociates(g, a, y);
    QuotRemUnique(Times(a, b), g, Times(a, y), 0);
  }

  /** The common multiples are exactly the multiples of `Lcm`. */
  lemma LcmIsLeast(a: nat, b: nat, c: nat)
    requires a > 0 && b > 0
    ensures Lcm(a, b) > 0
    ensures Whole(c, Lcm(a, b)) <==> Whole(c, a) && Whole(c, b)
  {
    LcmIs(a, b);
    var g, l := Gcd(a, b), Lcm(a, b);
    GcdPositive(a, b);
    WholeQuot(b, g);
    TimesAdds(a, 1, Quot(b, g) - 1);
    assert Times(a, 1) == a;
    TimesWhole(a, Quot(b, g));
    TimesWhole(b, Quot(a, g));
    if Whole(c, l) {
      WholeTransitive(c, l, a);
      WholeTransitive(c, l, b);
    }
    if Whole(c, a) && Whole(c, b) && c > 0 {
      CommonMultiple(a, b, c);
      TimesCommutes(c, g);
      Cancel(g, c, l);
    }
  }

  /** A common multiple times the gcd is a multiple of the product. */
  lemma CommonMultiple(a: nat, b: nat, c: nat)
    requires a > 0 && b > 0 && c > 0 && Whole(c, a) && Whole(c, b)
    ensures Times(a, b) > 0 && Whole(Times(c, Gcd(a, b)), Times(a, b))
  {
    var ab, j, k := Times(a, b), Quot(c, a), Quot(c, b);
    TimesAdds(a, 1, b - 1);
    assert Times(a, 1) == a;
    WholeQuot(c, a);
    WholeQuot(c, b);
    TimesAssociates(a, b, k);
    TimesAssociates(b, a, j);
    TimesCommutes(b, a);
    TimesCommutes(c, a);
    TimesCommutes(c, b);
    TimesWhole(ab, k);
    TimesWhole(ab, j);
    GcdIsGreatest(Times(c, a), Times(c, b), ab);
    GcdScales(c, a, b);
  }

  lemma {:induction false} RemScales(c: nat, a: nat, b: nat)
    requires c > 0 && b > 0
    ensures Times(c, b) > 0 && Rem(Times(c, a), Times(c, b)) == Times(c, Rem(a, b))
    decreases a
  {
    TimesAdds(c, 1, b - 1);
    assert Times(c, 1) == c;
    if a < b {
      TimesAdds(c, a, b - a);
      TimesAdds(c, 1, b - a - 1);
    } else {
      TimesAdds(c, a - b, b);
      RemScales(c, a - b, b);
    }
  }

  lemma {:induction false} GcdScales(c: nat, a: nat, b: nat)
    requires c > 0
    ensures Gcd(Times(c, a), Times(c, b)) == Times(c, Gcd(a, b))
    decreases b
  {
    if b == 0 {
    } else {
      RemScales(c, a, b);
      GcdScales(c, b, Rem(a, b));
    }
  }

  lemma Cancel(g: nat, c: nat, l: nat)
    requires g > 0 && l > 0 && Times(g, l) > 0 && Whole(Times(g, c), Times(g, l))
    ensures Whole(c, l)
  {
    RemScales(g, c, l);
    WholeNoRem(Times(g, c), Times(g, l));
    RoundsDown(c, l);
  }

  /** Whole multiples of the frame count make whole multiples of the byte count. */
  lemma {:induction false} FramesScale(f: nat, n: nat, m: nat, round: nat)
    requires m > 0 && n > 0 && Whole(Times(f, n), m) && Whole(round, n)
    ensures Whole(Times(f, round), m)
  {
    if round == 0 {
    } else {
      FramesScale(f, n, m, round - n);
      TimesAdds(f, round - n, n);
      WholeAdds(Times(f, round - n), Times(f, n), m);
    }
  }

  // ----- audio_setpar -----

  /** One direction: bytes per frame and size of the DMA memory. */
  datatype Side = Side(frame: nat, datalen: nat)

  /** The hardware's multiplier and rate, and the block size and count asked for. */
  datatype Request = Request(play: Option<Side>, rec: Option<Side>, mult: nat, rate: nat, round: nat, nblks: nat)

  predicate WellFormed(q: Request) {
    && (q.play.Some? || q.rec.Some?)
    && (q.play.Some? ==> q.play.value.frame > 0) && (q.rec.Some? ==> q.rec.value.frame > 0)
  }

  predicate ValidRequest(q: Request) {
    WellFormed(q) && q.mult > 0
  }

  /** Frames of every block come in multiples of this. */
  function FrameMultiple(q: Request): (m: nat)
    requires ValidRequest(q)
    ensures m > 0
  {
    var np := if q.play.Some? then FramesFor(q.play.value.frame, q.mult) else FramesFor(q.rec.value.frame, q.mult);
    var nr := if q.rec.Some? then FramesFor(q.rec.value.frame, q.mult) else np;
    FramesForPositive(q);
    LcmIsLeast(nr, np, 0);
    Lcm(nr, np)
  }

  lemma FramesForPositive(q: Request)
    requires ValidRequest(q)
    ensures q.play.Some? ==> FramesFor(q.play.value.frame, q.mult) > 0
    ensures q.rec.Some? ==> FramesFor(q.rec.value.frame, q.mult) > 0
  {
    if q.play.Some? {
      FramesForIff(q.play.value.frame, q.mult, 0);
    }
    if q.rec.Some? {
      FramesForIff(q.rec.value.frame, q.mult, 0);
    }
  }

  /** Both directions' blocks are multiples of the hardware's multiplier exactly for these frame counts. */
  lemma FrameMultipleIff(q: Request, k: nat)
    requires ValidRequest(q)
    ensures Whole(k, FrameMultiple(q)) <==>
      && (q.play.Some? ==> Whole(Times(q.play.value.frame, k), q.mult))
      && (q.rec.Some? ==> Whole(Times(q.rec.value.frame, k), q.mult))
  {
    FramesForPositive(q);
    if q.play.Some? {
      FramesForIff(q.play.value.frame, q.mult, k);
    }
    if q.rec.Some? {
      FramesForIff(q.rec.value.frame, q.mult, k);
    }
    var np := if q.play.Some? then FramesFor(q.play.value.frame, q.mult) else FramesFor(q.rec.value.frame, q.mult);
    var nr := if q.rec.Some? then FramesFor(q.rec.value.frame, q.mult) else np;
    LcmIsLeast(nr, np, k);
  }

  /** Frames of which two blocks fit in the memory. */
  function Room(s: Side): nat
    requires s.frame > 0
  {
    Quot(s.datalen, 2 * s.frame)
  }

  function MaxFrames(q: Request): nat
    requires ValidRequest(q)
  {
    var np := if q.play.Some? then Room(q.play.value) else Room(q.rec.value);
    var nr := if q.rec.Some? then Room(q.rec.value) else np;
    Min(np, nr)
  }

  datatype Par = Par(round: nat, nblks: nat, playBlksz: nat, playLen: nat, recBlksz: nat, recLen: nat)

  /** `ZeroBlock` is the division by a block size of zero. */
  datatype Result = Ok(par: Par) | Enodev | Eio | ZeroBlock

  /** Two blocks of at most `Room` frames fit. */
  lemma RoomFits(s: Side, round: nat)
    requires s.frame > 0 && round <= Room(s)
    ensures 2 * Times(s.frame, round) <= s.datalen
  {
    QuotRem(s.datalen, 2 * s.frame);
    TimesAdds(2 * s.frame, round, Room(s) - round);
    Doubled(s.frame, round);
  }

  lemma {:induction false} Doubled(a: nat, n: nat)
    ensures Times(2 * a, n) == 2 * Times(a, n)
  {
    if n == 0 {
    } else {
      Doubled(a, n - 1);
    }
  }

  /** A block size and count that suit a play direction. */
  ghost predicate PlayFits(s: Side, mult: nat, p: Par)
    requires mult > 0
  {
    && p.playBlksz == Times(s.frame, p.round) && p.playBlksz > 0 && Whole(p.playBlksz, mult)
    && p.playLen == Times(p.playBlksz, p.nblks) && p.nblks >= 2 && p.playLen <= s.datalen
  }

  ghost predicate RecFits(s: Side, mult: nat, p: Par)
    requires mult > 0
  {
    && p.recBlksz == Times(s.frame, p.round) && p.recBlksz > 0 && Whole(p.recBlksz, mult)
    && Whole(p.recLen, p.recBlksz) && p.recLen <= s.datalen < p.recLen + p.recBlksz && 2 * p.recBlksz <= p.recLen
  }

  /** A frame count the hardware takes, in the range of rate and memory. */
  predicate Allowed(q: Request, mult: nat, k: nat)
    requires ValidRequest(q)
  {
    Divides(mult, k) && q.rate / 1000 <= k <= MaxFrames(q)
  }

  function Distance(a: nat, b: nat): nat {
    if a < b then b - a else a - b
  }

  /** No allowed frame count is nearer to the one asked for. */
  ghost predicate Nearest(q: Request, mult: nat, round: nat)
    requires ValidRequest(q)
  {
    Allowed(q, mult, round) && forall k: nat :: Allowed(q, mult, k) ==> Distance(round, q.round) <= Distance(k, q.round)
  }

  /** Frames per block: to the nearest multiple, then into the range. */
  method ChooseRound(q: Request, mult: nat) returns (ok: bool, round: nat)
    requires ValidRequest(q) && mult > 0
    ensures ok <==> exists k: nat :: Allowed(q, mult, k)
    ensures ok ==> Nearest(q, mult, round)
    ensures ok ==> (round > 0 <==>
      q.rate >= 1000 || (q.round + mult / 2 >= mult && MaxFrames(q) >= mult))
  {
    var max := MaxFrames(q);
    RoundsDown(max, mult);
    max := max - Rem(max, mult);
    var min := q.rate / 1000 + mult - 1;
    RoundsDown(min, mult);
    min := min - Rem(min, mult);
    round := q.round + mult / 2;
    RoundsDown(round, mult);
    round := round - Rem(round, mult);
    ok := max >= min;
    RangeEnds(q, mult, min, max);
    ghost var near := round;
    MultipleAtLeast(max, mult);
    MultipleAtLeast(min, mult);
    MultipleAtLeast(round, mult);
    if round > max {
      round := max;
    }
    if round < min {
      round := min;
    }
    if ok {
      ClampIsNearest(q, mult, min, max, near, round);
    }
  }

  /** The allowed counts are the multiples from `min` to `max`. */
  lemma RangeEnds(q: Request, d: nat, min: nat, max: nat)
    requires ValidRequest(q) && d > 0 && Whole(min, d) && Whole(max, d)
    requires q.rate / 1000 <= min < q.rate / 1000 + d && max <= MaxFrames(q) < max + d
    ensures forall k: nat :: Allowed(q, d, k) <==> Divides(d, k) && min <= k <= max
    ensures max >= min <==> exists k: nat :: Allowed(q, d, k)
  {
    forall k: nat | Divides(d, k) ensures Allowed(q, d, k) <==> min <= k <= max {
      if max < k {
        WholeGap(max, k, d);
      } else if k < min {
        WholeGap(k, min, d);
      }
    }
    if max >= min {
      assert Divides(d, min);
      assert Allowed(q, d, min);
    }
  }

  lemma ClampIsNearest(q: Request, d: nat, min: nat, max: nat, near: nat, round: nat)
    requires ValidRequest(q) && d > 0 && Whole(min, d) && Whole(max, d) && Whole(near, d) && min <= max
    requires forall k: nat :: Allowed(q, d, k) <==> Divides(d, k) && min <= k <= max
    requires near <= q.round + d / 2 < near + d
    requires round == if near < min then min else if near > max then max else near
    ensures Nearest(q, d, round)
  {
    assert Divides(d, round);
    forall k: nat | Allowed(q, d, k) ensures Distance(round, q.round) <= Distance(k, q.round) {
      NearestMultiple(d, near, q.round, min, max, k);
    }
  }

  lemma NearestMultiple(d: nat, near: nat, asked: nat, min: nat, max: nat, k: nat)
    requires d > 0 && Whole(near, d) && Whole(k, d) && Whole(min, d) && Whole(max, d) && min <= k <= max
    requires near <= asked + d / 2 < near + d
    ensures near < min ==> Distance(min, asked) <= Distance(k, asked)
    ensures near > max ==> Distance(max, asked) <= Distance(k, asked)
    ensures min <= near <= max ==> Distance(near, asked) <= Distance(k, asked)
  {
    if near < min {
      WholeGap(near, min, d);
      FartherAbove(d, near, asked, min, k);
    } else if near > max {
      WholeGap(max, near, d);
      FartherBelow(d, near, asked, max, k);
    } else if near < k {
      WholeGap(near, k, d);
      FartherAbove(d, near, asked, near, k);
    } else if k < near {
      WholeGap(k, near, d);
      FartherBelow(d, near, asked, near, k);
    }
  }

  lemma FartherAbove(d: nat, near: nat, asked: nat, j: nat, k: nat)
    requires near <= asked + d / 2 < near + d && near + d <= k && near <= j <= k && (j == near || near + d <= j)
    ensures Distance(j, asked) <= Distance(k, asked)
  {
  }

  lemma FartherBelow(d: nat, near: nat, asked: nat, j: nat, k: nat)
    requires near <= asked + d / 2 < near + d && k + d <= near && k <= j <= near && (j == near || j + d <= near)
    ensures Distance(j, asked) <= Distance(k, asked)
  {
  }

  lemma MultipleAtLeast(x: nat, d: nat)
    requires d > 0 && Whole(x, d)
    ensures x == 0 || x >= d
  {
  }

  /** The block size comes out as zero, and is divided by. */
  predicate AsksForNothing(q: Request)
    requires ValidRequest(q)
  {
    var mult := FrameMultiple(q);
    q.rate < 1000 && (q.round + mult / 2 < mult || MaxFrames(q) < mult)
  }

  /** `audio_setpar` from the block size multiplier on */
  method SetPar(q: Request) returns (r: Result)
    requires WellFormed(q)
    ensures r.Enodev? <==> q.mult == 0
    ensures q.mult > 0 ==> (r.Eio? <==> !exists k: nat :: Allowed(q, FrameMultiple(q), k))
    ensures q.mult > 0 && !r.Eio? ==> (r.ZeroBlock? <==> AsksForNothing(q))
    ensures r.Ok? ==> Nearest(q, FrameMultiple(q), r.par.round)
    ensures r.Ok? && q.play.Some? ==>
      PlayFits(q.play.value, q.mult, r.par) && r.par.nblks == BlocksFor(q.play.value, r.par.playBlksz, q.nblks)
    ensures r.Ok? && q.rec.Some? ==> RecFits(q.rec.value, q.mult, r.par)
  {
    if q.mult == 0 {
      return Enodev;
    }
    var mult := FindMultiple(q);
    var ok, round := ChooseRound(q, mult);
    if !ok {
      return Eio;
    }
    if round == 0 {
      return ZeroBlock;
    }
    FrameMultipleIff(q, round);
    var p := Par(round, q.nblks, 0, 0, 0, 0);
    if q.play.Some? {
      p := SizePlay(q.play.value, q.mult, p);
    }
    if q.rec.Some? {
      p := SizeRec(q.rec.value, q.mult, p);
    }
    return Ok(p);
  }

  method FindMultiple(q: Request) returns (mult: nat)
    requires ValidRequest(q)
    ensures mult == FrameMultiple(q)
  {
    var np: nat, nr: nat := 0, 0;
    FramesForPositive(q);
    if q.play.Some? {
      GcdPositive(q.play.value.frame, q.mult);
      var g := AudioGcd(q.play.value.frame, q.mult);
      np := Quot(q.mult, g);
      if q.rec.None? {
        nr := np;
      }
    }
    if q.rec.Some? {
      GcdPositive(q.rec.value.frame, q.mult);
      var g := AudioGcd(q.rec.value.frame, q.mult);
      nr := Quot(q.mult, g);
      if q.play.None? {
        np := nr;
      }
    }
    GcdPositive(nr, np);
    var g := AudioGcd(nr, np);
    mult := Quot(Times(nr, np), g);
  }

  /** The block count asked for, but two at least and no more than fit. */
  function BlocksFor(s: Side, blksz: nat, asked: nat): nat
    requires blksz > 0
  {
    var max := Quot(s.datalen, blksz);
    if asked < 2 || max < 2 then 2 else if asked > max then max else asked
  }

  /** Of the counts of two at least that fit, it is the nearest to the one asked for. */
  lemma BlocksForNearest(s: Side, blksz: nat, asked: nat, n: nat)
    requires blksz > 0 && 2 <= n <= Quot(s.datalen, blksz)
    ensures 2 <= BlocksFor(s, blksz, asked) <= Quot(s.datalen, blksz)
    ensures Distance(BlocksFor(s, blksz, asked), asked) <= Distance(n, asked)
  {
  }

  method SizePlay(s: Side, mult: nat, p: Par) returns (p': Par)
    requires s.frame > 0 && 0 < p.round <= Room(s) && mult > 0 && Whole(Times(s.frame, p.round), mult)
    ensures p' == p.(nblks := p'.nblks, playBlksz := p'.playBlksz, playLen := p'.playLen)
    ensures PlayFits(s, mult, p') && p'.nblks == BlocksFor(s, p'.playBlksz, p.nblks)
  {
    var blksz := Times(s.frame, p.round);
    RoomFits(s, p.round);
    var max := Quot(s.datalen, blksz);
    QuotRem(s.datalen, blksz);
    var nblks := p.nblks;
    if nblks > max {
      nblks := max;
    }
    if nblks < 2 {
      nblks := 2;
    }
    Below(blksz, max, Rem(s.datalen, blksz), 2);
    assert Times(blksz, 2) == Times(blksz, 1) + blksz;
    assert Times(blksz, 1) == blksz;
    TimesAdds(blksz, nblks, max - nblks);
    return p.(nblks := nblks, playBlksz := blksz, playLen := Times(blksz, nblks));
  }

  method SizeRec(s: Side, mult: nat, p: Par) returns (p': Par)
    requires s.frame > 0 && 0 < p.round <= Room(s) && mult > 0 && Whole(Times(s.frame, p.round), mult)
    ensures p' == p.(recBlksz := p'.recBlksz, recLen := p'.recLen)
    ensures RecFits(s, mult, p')
  {
    var blksz := Times(s.frame, p.round);
    RoomFits(s, p.round);
    RoundsDown(s.datalen, blksz);
    var len := s.datalen - Rem(s.datalen, blksz);
    TimesWhole(blksz, 2);
    assert Times(blksz, 2) == Times(blksz, 1) + blksz;
    assert Times(blksz, 1) == blksz;
    if len < 2 * blksz {
      WholeGap(len, 2 * blksz, blksz);
    }
    return p.(recBlksz := blksz, recLen := len);
  }

  /** The sizes make rings that DMA may run on: full to play, empty to record. */
  lemma ParMakesRings(q: Request, p: Par)
    requires ValidRequest(q)
    ensures q.play.Some? && PlayFits(q.play.value, q.mult, p) && q.play.value.datalen < SIZE_MAX1 ==>
      PlayReady(Ring(p.playLen, p.playBlksz, 0, p.playLen, 0, 0))
    ensures q.rec.Some? && RecFits(q.rec.value, q.mult, p) && q.rec.value.datalen < SIZE_MAX1 ==>
      RecReady(Ring(p.recLen, p.recBlksz, 0, 0, 0, 0))
  {
    if q.play.Some? && PlayFits(q.play.value, q.mult, p) {
      TimesWhole(p.playBlksz, p.nblks);
      Below(p.playBlksz, 0, 0, p.nblks);
      MultipleAtLeast(p.playLen, p.playBlksz);
    }
  }

  /** A request at a slow rate that names no block size ends in the division by zero. */
  method SlowRateDividesByZero() returns (r: Result)
    ensures r == ZeroBlock
  {
    var q := Request(Some(Side(1, 4)), None, 1, 999, 0, 2);
    assert Gcd(1, 1) == 1 && FramesFor(1, 1) == 1 && Lcm(1, 1) == 1;
    assert FrameMultiple(q) == 1 && Divides(1, 0) && Allowed(q, 1, 0);
    r := SetPar(q);
  }
}
