/**
 * Non-repeating 32-bit identifiers (crypto/idgen.c): a counter is pushed through an
 * unbalanced Feistel network on 31 bits, and the top bit alternates with the key. The round
 * function, `idgen32_g` with the round number folded in, is a parameter: nothing below
 * depends on it. Clock and random numbers are read from streams.
 */
module IdGen {
  const ROUNDS: nat := 31
  const REKEY_LIMIT: nat := 0x6000_0000
  const REKEY_TIME: int := 600

  type u16 = x: nat | x < 0x1_0000
  type u15 = x: nat | x < 0x8000
  type u31 = x: nat | x < 0x8000_0000
  type u32 = x: nat | x < 0x1_0000_0000

  /** Exclusive or, bit by bit. */
  function Xor(x: nat, y: nat): nat {
    if x == 0 && y == 0 then 0 else 2 * Xor(x / 2, y / 2) + (x + y) % 2
  }

  lemma {:induction false} XorBack(x: nat, y: nat)
    ensures Xor(Xor(x, y), y) == x
  {
    if x != 0 || y != 0 {
      XorBack(x / 2, y / 2);
      var z := Xor(x, y);
      assert z / 2 == Xor(x / 2, y / 2) && z % 2 == (x + y) % 2;
      Parity(x, y, z);
    }
  }

  lemma Parity(x: nat, y: nat, z: nat)
    requires z % 2 == (x + y) % 2
    ensures (z + y) % 2 == x % 2
  {
  }

  lemma {:induction false} XorBelow(x: nat, y: nat, bits: nat)
    requires x < Power(bits) && y < Power(bits)
    ensures Xor(x, y) < Power(bits)
  {
    if bits == 0 {
    } else {
      XorBelow(x / 2, y / 2, bits - 1);
    }
  }

  function Power(bits: nat): (p: nat)
    ensures p >= 1
  {
    if bits == 0 then 1 else 2 * Power(bits - 1)
  }

  lemma Powers()
    ensures Power(15) == 0x8000 && Power(16) == 0x1_0000
  {
    assert Power(4) == 0x10;
    assert Power(8) == 0x100;
    assert Power(12) == 0x1000;
  }

  /** `x ^= y` on the right half */
  function Xor16(x: u16, y: u16): u16 {
    Powers();
    XorBelow(x, y, 16);
    Xor(x, y)
  }

  /** `x ^= y & 0x7fff` on the left half */
  function Xor15(x: u15, y: u16): u15 {
    Powers();
    XorBelow(x, y % 0x8000, 15);
    Xor(x, y % 0x8000)
  }

  /** The two halves of a 31-bit word, of 15 and 16 bits. */
  datatype Halves = Halves(l: u15, r: u16)

  function Split(x: u31): Halves {
    Halves(x / 0x1_0000, x % 0x1_0000)
  }

  function Join(h: Halves): u31 {
    h.l * 0x1_0000 + h.r
  }

  lemma SplitJoin(x: u31, h: Halves)
    ensures Join(Split(x)) == x && Split(Join(h)) == h
  {
  }

  /** Round `k`: an even one changes the right half, an odd one the left half. */
  function Round(f: (nat, u16) -> u16, k: nat, h: Halves): Halves {
    if k % 2 == 0 then h.(r := Xor16(h.r, f(k, h.l))) else h.(l := Xor15(h.l, f(k, h.r)))
  }

  function Rounds(f: (nat, u16) -> u16, n: nat, h: Halves): Halves {
    if n == 0 then h else Round(f, n - 1, Rounds(f, n - 1, h))
  }

  function Unrounds(f: (nat, u16) -> u16, n: nat, h: Halves): Halves
    decreases n
  {
    if n == 0 then h else Unrounds(f, n - 1, Round(f, n - 1, h))
  }

  /** Every round undoes itself. */
  lemma RoundTwice(f: (nat, u16) -> u16, k: nat, h: Halves)
    ensures Round(f, k, Round(f, k, h)) == h
  {
    XorBack(h.r, f(k, h.l));
    XorBack(h.l, f(k, h.r) % 0x8000);
  }

  lemma {:induction false} UnroundsRounds(f: (nat, u16) -> u16, n: nat, h: Halves)
    ensures Unrounds(f, n, Rounds(f, n, h)) == h
    decreases n
  {
    if n == 0 {
    } else {
      RoundTwice(f, n - 1, Rounds(f, n - 1, h));
      UnroundsRounds(f, n - 1, h);
    }
  }

  lemma {:induction false} RoundsUnrounds(f: (nat, u16) -> u16, n: nat, h: Halves)
    ensures Rounds(f, n, Unrounds(f, n, h)) == h
    decreases n
  {
    if n == 0 {
    } else {
      RoundTwice(f, n - 1, h);
      RoundsUnrounds(f, n - 1, Round(f, n - 1, h));
    }
  }

  function Permute(f: (nat, u16) -> u16, x: u31): u31 {
    Join(Rounds(f, ROUNDS, Split(x)))
  }

  function Unpermute(f: (nat, u16) -> u16, y: u31): u31 {
    Join(Unrounds(f, ROUNDS, Split(y)))
  }

  /** The network is a bijection on 31-bit words, whatever the round function. */
  lemma PermuteBijective(f: (nat, u16) -> u16, x: u31)
    ensures Unpermute(f, Permute(f, x)) == x
    ensures Permute(f, Unpermute(f, x)) == x
  {
    var h := Split(x);
    SplitJoin(x, Rounds(f, ROUNDS, h));
    SplitJoin(x, Unrounds(f, ROUNDS, h));
    UnroundsRounds(f, ROUNDS, h);
    RoundsUnrounds(f, ROUNDS, h);
  }

  /** The words the network runs through, right half first: each is the one before last, masked by the last. */
  function Word(f: (nat, u16) -> u16, h: Halves, k: nat): u16 {
    if k == 0 then h.r
    else if k == 1 then h.l
    else
      var w: u16, mask: u16 := Word(f, h, k - 2), f(k - 2, Word(f, h, k - 1));
      if k % 2 == 0 then Xor16(w, mask) else if w < 0x8000 then Xor15(w, mask) else w
  }

  /** The halves `z` are words `n` and `n + 1`, the odd one on the left. */
  predicate AreWords(f: (nat, u16) -> u16, h: Halves, n: nat, z: Halves) {
    if n % 2 == 0 then z.r == Word(f, h, n) && z.l == Word(f, h, n + 1)
    else z.l == Word(f, h, n) && z.r == Word(f, h, n + 1)
  }

  lemma WordsOn(f: (nat, u16) -> u16, h: Halves, n: nat, z: Halves)
    requires AreWords(f, h, n, z)
    ensures AreWords(f, h, n + 1, Round(f, n, z))
  {
    if n % 2 == 0 {
      WordNext(f, h, n, z.r, z.l);
    } else {
      WordNext(f, h, n, z.l, z.r);
    }
  }

  lemma WordNext(f: (nat, u16) -> u16, h: Halves, n: nat, a: u16, b: u16)
    requires a == Word(f, h, n) && b == Word(f, h, n + 1)
    ensures n % 2 == 0 ==> Word(f, h, n + 2) == Xor16(a, f(n, b))
    ensures n % 2 == 1 && a < 0x8000 ==> Word(f, h, n + 2) == Xor15(a, f(n, b))
  {
  }

  /** For every number of rounds. */
  lemma {:induction false} RoundsAreWords(f: (nat, u16) -> u16, h: Halves, n: nat)
    ensures AreWords(f, h, n, Rounds(f, n, h))
  {
    if n == 0 {
    } else {
      RoundsAreWords(f, h, n - 1);
      WordsOn(f, h, n - 1, Rounds(f, n - 1, h));
    }
  }

  /** `idgen32_permute`: rounds in pairs, and one more at the end. */
  method PermuteLoop(f: (nat, u16) -> u16, x: u31) returns (y: u31)
    ensures y == Permute(f, x)
  {
    var h := Split(x);
    var wl, wr := h.l, h.r;
    var i: nat, r: nat := 0, 0;
    while i < ROUNDS / 2
      invariant i <= ROUNDS / 2 && r == 2 * i
      invariant Halves(wl, wr) == Rounds(f, r, h)
    {
      wl, wr := TwoRounds(f, r, wl, wr, h);
      r := r + 2;
      i := i + 1;
    }
    wr := LastRound(f, r, wl, wr, h);
    y := Join(Halves(wl, wr));
  }

  /** The odd round out. */
  method LastRound(f: (nat, u16) -> u16, r: nat, l0: u15, r0: u16, ghost h: Halves) returns (wr: u16)
    requires r % 2 == 0 && Halves(l0, r0) == Rounds(f, r, h)
    ensures Halves(l0, wr) == Rounds(f, r + 1, h)
  {
    wr := Xor16(r0, f(r, l0));
  }

  /** The body of the loop: an even round and an odd one. */
  method TwoRounds(f: (nat, u16) -> u16, r: nat, l0: u15, r0: u16, ghost h: Halves) returns (wl: u15, wr: u16)
    requires r % 2 == 0 && Halves(l0, r0) == Rounds(f, r, h)
    ensures Halves(wl, wr) == Rounds(f, r + 2, h)
  {
    wr := Xor16(r0, f(r, l0));
    assert Halves(l0, wr) == Rounds(f, r + 1, h);
    wl := Xor15(l0, f(r + 1, wr));
  }

  /** `hibit | x` */
  function Compose(high: bool, x: u31): (r: u32)
    ensures r % 0x8000_0000 == x && (r >= 0x8000_0000 <==> high)
  {
    if high then 0x8000_0000 + x else x
  }

  /** What a rekey draws: offset and key. */
  datatype Seed<K> = Seed(offset: u32, key: K)

  /** What goes into the network at a count. */
  function Input(offset: u32, count: nat): u31 {
    (offset + count) % 0x8000_0000
  }

  /** The offset is where the count starts from. */
  lemma InputOffset(o: u32, d: nat, c: nat)
    requires o + d < 0x1_0000_0000
    ensures Input(o + d, c) == Input(o, c + d) && Input(0, c) == c % 0x8000_0000
  {
  }

  lemma InputsApart(o: u32, c: nat, d: nat)
    requires c < d < 0x8000_0000
    ensures Input(o, c) != Input(o, d)
  {
  }

  /** The low 31 bits of the identifier at a count. */
  function LowBits<K>(f: K -> (nat, u16) -> u16, s: Seed<K>, count: nat): u31 {
    Permute(f(s.key), Input(s.offset, count))
  }

  lemma LowBitsApart<K>(f: K -> (nat, u16) -> u16, s: Seed<K>, c: nat, d: nat)
    requires c < d < 0x8000_0000
    ensures LowBits(f, s, c) != LowBits(f, s, d)
  {
    var g, x, y := f(s.key), Input(s.offset, c), Input(s.offset, d);
    InputsApart(s.offset, c, d);
    PermuteBijective(g, x);
    PermuteBijective(g, y);
  }

  // ----- The history of a generator -----

  /** The context, and how many keys it has had. */
  datatype State<K> = State(period: nat, counter: nat, deadline: int, high: bool, seed: Seed<K>)

  /** The test at the head of the loop: a new key past the limit or the time. */
  function Turned<K>(st: State<K>, now: int, spare: Seed<K>): State<K> {
    if st.counter > REKEY_LIMIT || st.deadline < now
    then State(st.period + 1, 0, now + REKEY_TIME, !st.high, spare)
    else st
  }

  /** An identifier made: in which state, and when. */
  datatype Issue<K> = Issue(st: State<K>, now: int)

  function Id<K>(f: K -> (nat, u16) -> u16, e: Issue<K>): u32 {
    Compose(e.st.high, LowBits(f, e.st.seed, e.st.counter))
  }

  function StateBefore<K>(origin: State<K>, log: seq<Issue<K>>, i: nat): State<K>
    requires i <= |log|
  {
    if i == 0 then origin else log[i - 1].st.(counter := log[i - 1].st.counter + 1)
  }

  /** Each identifier is made from the state the one before it left, after the test. */
  predicate Follows<K(==)>(origin: State<K>, log: seq<Issue<K>>, i: nat)
    requires i < |log|
  {
    log[i].st == Turned(StateBefore(origin, log, i), log[i].now, log[i].st.seed)
  }

  ghost predicate Lawful<K>(origin: State<K>, log: seq<Issue<K>>) {
    forall i :: 0 <= i < |log| ==> Follows(origin, log, i)
  }

  lemma LawfulOn<K>(origin: State<K>, log: seq<Issue<K>>, e: Issue<K>)
    requires Lawful(origin, log)
    requires e.st == Turned(StateBefore(origin, log, |log|), e.now, e.st.seed)
    ensures Lawful(origin, log + [e])
  {
    var log' := log + [e];
    forall i | 0 <= i < |log'| ensures Follows(origin, log', i) {
      assert i < |log| ==> Follows(origin, log, i);
    }
  }

  /** Periods never fall; one lasts as long as the count goes up under one key, and the top bit alternates. */
  lemma {:induction false} PeriodsRise<K>(origin: State<K>, log: seq<Issue<K>>, i: nat, j: nat)
    requires Lawful(origin, log) && i <= j < |log|
    ensures var a, b := log[i].st, log[j].st;
      && a.period <= b.period && b.counter <= REKEY_LIMIT
      && b.high == (a.high == ((b.period - a.period) % 2 == 0))
      && (a.period == b.period ==> a.seed == b.seed && b.counter == a.counter + (j - i))
  {
    assert Follows(origin, log, j);
    if i < j {
      PeriodsRise(origin, log, i, j - 1);
    }
  }

  /** A period lasts 600 seconds from its first identifier and no longer, and begins with a count of zero. */
  lemma {:induction false} PeriodsEnd<K>(origin: State<K>, log: seq<Issue<K>>, i: nat, j: nat)
    requires Lawful(origin, log) && 0 < i <= j < |log|
    requires log[i - 1].st.period < log[i].st.period == log[j].st.period
    ensures log[j].now <= log[j].st.deadline == log[i].now + 600 && log[i].st.counter == 0
  {
    assert Follows(origin, log, j);
    if i < j {
      PeriodsRise(origin, log, i, j - 1);
      PeriodsRise(origin, log, j - 1, j);
      PeriodsEnd(origin, log, i, j - 1);
    }
  }

  /** Within one key period, and from one period to the next, no identifier comes back. */
  lemma NoRepeats<K>(f: K -> (nat, u16) -> u16, origin: State<K>, log: seq<Issue<K>>, i: nat, j: nat)
    requires Lawful(origin, log) && i < j < |log| && log[j].st.period <= log[i].st.period + 1
    ensures Id(f, log[i]) != Id(f, log[j])
  {
    var a, b := log[i].st, log[j].st;
    PeriodsRise(origin, log, i, j);
    PeriodsRise(origin, log, i, i);
    if a.period == b.period {
      LowBitsApart(f, a.seed, a.counter, b.counter);
    }
  }

  /** Entry `i` is what a turn of the loop makes at this time with this randomness at hand. */
  predicate Tick<K(==)>(origin: State<K>, log: seq<Issue<K>>, i: nat, now: int, spare: Seed<K>)
    requires i < |log|
  {
    log[i] == Issue(Turned(StateBefore(origin, log, i), now, spare), now)
  }

  /** Entries `lo..hi` are one call of `idgen32`: one turn, or a second one after making zero. */
  predicate Call<K(==)>(f: K -> (nat, u16) -> u16, origin: State<K>, log: seq<Issue<K>>, lo: nat, hi: nat,
                        now: nat -> int, seeds: nat -> Seed<K>, ret: u32)
  {
    && lo < hi <= |log| && hi <= lo + 2
    && Tick(origin, log, lo, now(0), seeds(0))
    && (hi == lo + 2 ==> Id(f, log[lo]) == 0 && Tick(origin, log, lo + 1, now(1), seeds(1)))
    && Id(f, log[hi - 1]) == ret && ret != 0
  }

  // ----- The generator -----

  class Generator<K> {
    const f: K -> (nat, u16) -> u16
    var counter: nat
    var high: bool
    var seed: Seed<K>
    var rekeyTime: int
    ghost const origin: State<K>
    ghost var period: nat
    ghost var log: seq<Issue<K>>

    ghost function Now(): State<K>
      reads this
    {
      State(period, counter, rekeyTime, high, seed)
    }

    ghost predicate Valid()
      reads this
    {
      Lawful(origin, log) && Now() == StateBefore(origin, log, |log|)
    }

    /** `idgen32_init` */
    constructor (f: K -> (nat, u16) -> u16, random: bool, s: Seed<K>, now: int)
      ensures Valid() && this.f == f && log == []
      ensures Now() == State(0, 0, now + REKEY_TIME, !random, s)
    {
      this.f := f;
      counter, seed, high, rekeyTime := 0, s, !random, now + REKEY_TIME;
      origin, period, log := State(0, 0, now + REKEY_TIME, !random, s), 0, [];
    }

    /** `idgen32_rekey` */
    method Rekey(s: Seed<K>, now: int)
      modifies this`counter, this`high, this`seed, this`rekeyTime, this`period
      ensures Now() == State(old(period) + 1, 0, now + REKEY_TIME, !old(high), s)
    {
      counter := 0;
      high := !high;
      seed := s;
      rekeyTime := now + REKEY_TIME;
      period := period + 1;
    }

    /** One turn of the loop in `idgen32`. */
    method Attempt(now: int, s: Seed<K>) returns (ret: u32, ghost e: Issue<K>)
      requires Valid()
      modifies this
      ensures Valid() && log == old(log) + [e] && Id(f, e) == ret
      ensures e == Issue(Turned(old(Now()), now, s), now)
    {
      if counter > REKEY_LIMIT || rekeyTime < now {
        Rekey(s, now);
      }
      var low := PermuteLoop(f(seed.key), Input(seed.offset, counter));
      ret := Compose(high, low);
      e := Issue(Now(), now);
      LawfulOn(origin, log, e);
      counter := counter + 1;
      log := log + [e];
    }

    /**
     * `idgen32`; `now` and `seeds` give the clock and fresh randomness at each turn of the
     * loop, of which there are at most two.
     */
    method Next(now: nat -> int, seeds: nat -> Seed<K>) returns (ret: u32)
      requires Valid()
      modifies this
      ensures Valid() && old(log) <= log
      ensures Call(f, origin, log, |old(log)|, |log|, now, seeds, ret)
    {
      ghost var e, first;
      ret, first := Attempt(now(0), seeds(0));
      ghost var log1, turns: nat := log, 1;
      while ret == 0
        invariant Valid() && turns <= 2 && (turns == 1 ==> log == log1 && ret == Id(f, first))
        invariant turns == 2 ==> log1 <= log && Call(f, origin, log, |old(log)|, |log|, now, seeds, ret)
        decreases 2 - turns
      {
        ret, e := Attempt(now(1), seeds(1));
        assert log[|log| - 1] == e && log[|log| - 2] == first;
        Retry(|log| - 2);
        turns := turns + 1;
      }
    }

    /** A second turn cannot make zero again. */
    lemma Retry(lo: nat)
      requires Valid() && lo + 2 == |log| && Id(f, log[lo]) == 0
      ensures Id(f, log[lo + 1]) != 0
    {
      assert Follows(origin, log, lo + 1);
      NoRepeats(f, origin, log, lo, lo + 1);
    }
  }

  // ----- Runs -----

  lemma CallKept<K>(f: K -> (nat, u16) -> u16, origin: State<K>, log: seq<Issue<K>>, log': seq<Issue<K>>,
                    lo: nat, hi: nat, now: nat -> int, seeds: nat -> Seed<K>, ret: u32)
    requires Call(f, origin, log, lo, hi, now, seeds, ret) && log <= log'
    ensures Call(f, origin, log', lo, hi, now, seeds, ret)
  {
    assert log'[lo] == log[lo] && log'[hi - 1] == log[hi - 1];
    assert lo > 0 ==> log'[lo - 1] == log[lo - 1];
  }

  /** Result `k` of a run is one call, which ends at `ends[k]` in the history. */
  predicate CallNo<K(==)>(f: K -> (nat, u16) -> u16, origin: State<K>, log: seq<Issue<K>>, base: nat, ends: seq<nat>,
                          now: nat -> nat -> int, seeds: nat -> nat -> Seed<K>, ids: seq<u32>, k: nat)
    requires k < |ids| == |ends|
  {
    Call(f, origin, log, if k == 0 then base else ends[k - 1], ends[k], now(k), seeds(k), ids[k])
  }

  ghost predicate Calls<K>(f: K -> (nat, u16) -> u16, origin: State<K>, log: seq<Issue<K>>, base: nat, ends: seq<nat>,
                           now: nat -> nat -> int, seeds: nat -> nat -> Seed<K>, ids: seq<u32>)
  {
    |ends| == |ids| && forall k :: 0 <= k < |ids| ==> CallNo(f, origin, log, base, ends, now, seeds, ids, k)
  }

  lemma CallsOn<K>(f: K -> (nat, u16) -> u16, origin: State<K>, log: seq<Issue<K>>, log': seq<Issue<K>>, base: nat,
                   ends: seq<nat>, now: nat -> nat -> int, seeds: nat -> nat -> Seed<K>, ids: seq<u32>, ret: u32)
    requires Calls(f, origin, log, base, ends, now, seeds, ids) && log <= log'
    requires |log| == if ends == [] then base else ends[|ends| - 1]
    requires Call(f, origin, log', |log|, |log'|, now(|ids|), seeds(|ids|), ret)
    ensures Calls(f, origin, log', base, ends + [|log'|], now, seeds, ids + [ret])
  {
    var ends', ids' := ends + [|log'|], ids + [ret];
    forall k | 0 <= k < |ids'| ensures CallNo(f, origin, log', base, ends', now, seeds, ids', k) {
      assert k > 0 ==> ends'[k - 1] == ends[k - 1];
      if k < |ids| {
        assert CallNo(f, origin, log, base, ends, now, seeds, ids, k);
        CallKept(f, origin, log, log', if k == 0 then base else ends[k - 1], ends[k], now(k), seeds(k), ids[k]);
      }
    }
  }

  lemma CallAt<K>(f: K -> (nat, u16) -> u16, origin: State<K>, log: seq<Issue<K>>, base: nat, ends: seq<nat>,
                  now: nat -> nat -> int, seeds: nat -> nat -> Seed<K>, ids: seq<u32>, k: nat)
    requires Calls(f, origin, log, base, ends, now, seeds, ids) && k < |ids|
    ensures 0 < ends[k] <= |log| && Id(f, log[ends[k] - 1]) == ids[k] && ids[k] != 0
    ensures k > 0 ==> ends[k - 1] < ends[k]
  {
    assert CallNo(f, origin, log, base, ends, now, seeds, ids, k);
  }

  lemma {:induction false} EndsRise<K>(f: K -> (nat, u16) -> u16, origin: State<K>, log: seq<Issue<K>>, base: nat,
                                       ends: seq<nat>, now: nat -> nat -> int, seeds: nat -> nat -> Seed<K>,
                                       ids: seq<u32>, i: nat, j: nat)
    requires Calls(f, origin, log, base, ends, now, seeds, ids) && i < j < |ids|
    ensures ends[i] < ends[j]
    decreases j
  {
    CallAt(f, origin, log, base, ends, now, seeds, ids, j);
    if i < j - 1 {
      EndsRise(f, origin, log, base, ends, now, seeds, ids, i, j - 1);
    }
  }

  /** The key period of the identifier that call `k` returned. */
  ghost function PeriodOf<K>(log: seq<Issue<K>>, ends: seq<nat>, k: nat): nat {
    if k < |ends| && 0 < ends[k] <= |log| then log[ends[k] - 1].st.period else 0
  }

  lemma IssuesDistinct<K>(f: K -> (nat, u16) -> u16, origin: State<K>, log: seq<Issue<K>>, a: nat, b: nat)
    requires Lawful(origin, log) && a < b < |log|
    ensures log[a].st.period <= log[b].st.period
    ensures log[b].st.period <= log[a].st.period + 1 ==> Id(f, log[a]) != Id(f, log[b])
  {
    PeriodsRise(origin, log, a, b);
    if log[b].st.period <= log[a].st.period + 1 {
      NoRepeats(f, origin, log, a, b);
    }
  }

  /** No result of a run is zero, and none equals an earlier one of the same or the previous key period. */
  lemma RunDistinct<K>(f: K -> (nat, u16) -> u16, origin: State<K>, log: seq<Issue<K>>, base: nat, ends: seq<nat>,
                       now: nat -> nat -> int, seeds: nat -> nat -> Seed<K>, ids: seq<u32>, i: nat, j: nat)
    requires Lawful(origin, log) && Calls(f, origin, log, base, ends, now, seeds, ids) && i < j < |ids|
    ensures PeriodOf(log, ends, i) <= PeriodOf(log, ends, j)
    ensures PeriodOf(log, ends, j) <= PeriodOf(log, ends, i) + 1 ==> ids[i] != ids[j]
  {
    CallAt(f, origin, log, base, ends, now, seeds, ids, i);
    CallAt(f, origin, log, base, ends, now, seeds, ids, j);
    EndsRise(f, origin, log, base, ends, now, seeds, ids, i, j);
    IssuesDistinct(f, origin, log, ends[i] - 1, ends[j] - 1);
  }

  /**
   * Any number of calls, whatever clock and randomness do. The history that explains the results obeys the
   * generator's law from the state it started in: a period ends exactly past the limit or the time.
   */
  method Run<K>(g: Generator<K>, n: nat, now: nat -> nat -> int, seeds: nat -> nat -> Seed<K>)
    returns (ids: seq<u32>, ghost ends: seq<nat>)
    requires g.Valid()
    modifies g
    ensures g.Valid() && |ids| == n && old(g.log) <= g.log
    ensures Lawful(g.origin, g.log) && Calls(g.f, g.origin, g.log, |old(g.log)|, ends, now, seeds, ids)
    ensures forall i :: 0 <= i < n ==> ids[i] != 0
    ensures forall i, j :: 0 <= i < j < n ==> PeriodOf(g.log, ends, i) <= PeriodOf(g.log, ends, j)
    ensures forall i, j :: 0 <= i < j < n && PeriodOf(g.log, ends, j) <= PeriodOf(g.log, ends, i) + 1 ==>
      ids[i] != ids[j]
  {
    ids, ends := [], [];
    ghost var base := |g.log|;
    for k := 0 to n
      invariant g.Valid() && |ids| == k && old(g.log) <= g.log
      invariant Calls(g.f, g.origin, g.log, base, ends, now, seeds, ids)
      invariant |g.log| == if ends == [] then base else ends[|ends| - 1]
    {
      ghost var log := g.log;
      var ret := g.Next(now(k), seeds(k));
      CallsOn(g.f, g.origin, log, g.log, base, ends, now, seeds, ids, ret);
      ids, ends := ids + [ret], ends + [|g.log|];
    }
    forall i | 0 <= i < n ensures ids[i] != 0 {
      CallAt(g.f, g.origin, g.log, base, ends, now, seeds, ids, i);
    }
    forall i, j | 0 <= i < j < n
      ensures PeriodOf(g.log, ends, i) <= PeriodOf(g.log, ends, j)
      ensures PeriodOf(g.log, ends, j) <= PeriodOf(g.log, ends, i) + 1 ==> ids[i] != ids[j]
    {
      RunDistinct(g.f, g.origin, g.log, base, ends, now, seeds, ids, i, j);
    }
  }
}
