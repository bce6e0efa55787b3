/**
 * The kernel's keystream generator (dev/rnd.c): `rs_buf` is filled from a stream cipher,
 * its first KEYSZ + IVSZ bytes immediately key the cipher again, and the rest is handed out
 * once and wiped. The cipher is a function from seed and position to a byte; extracted
 * entropy is a parameter.
 */
module Keystream {
  import opened Bytes

  const SEEDSZ: nat := 40
  const RSBUFSZ: nat := 1024
  const RESEED: nat := 1600000
  const BOOT: nat := 1024 * 1024 * 1024

  /** What the cipher context was set up from; before that it is all zero, the cipher's constants included. */
  datatype Key = Unset | Key(bytes: seq<byte>)

  type Stream = (Key, nat) -> byte

  // ----- The fills of the buffer -----

  /** One fill of the buffer: the seed it was made from, and the data mixed into its head. */
  datatype Fill = Fill(seed: Key, mixed: seq<byte>)

  /** The seed that a fill leaves: the head of the keystream, with optional data mixed in. */
  function KeyBytes(stream: Stream, f: Fill): (r: Key)
    ensures r.Key? && |r.bytes| == SEEDSZ
  {
    Key(seq(SEEDSZ, i requires 0 <= i < SEEDSZ =>
      if i < |f.mixed| then stream(f.seed, i) ^ f.mixed[i] else stream(f.seed, i)))
  }

  function ZeroSeed(): (r: Key)
    ensures r.Key? && |r.bytes| == SEEDSZ
  {
    Key(seq(SEEDSZ, _ => 0))
  }

  /**
   * The seed of the next fill: what the last one left, or none to begin with. The one exception is
   * the first request, which takes the head of the buffer: the boot loader's bytes, or zeros if the
   * buffer was used before.
   */
  ghost function NextSeed(stream: Stream, boot: seq<byte>, fills: seq<Fill>, restart: Option<nat>): Key
    requires |boot| == RSBUFSZ
  {
    if restart == Some(|fills|) then (if fills == [] then Key(boot[..SEEDSZ]) else ZeroSeed())
    else if fills == [] then Unset
    else KeyBytes(stream, fills[|fills| - 1])
  }

  /** Every fill has the seed that follows from those before it. */
  ghost predicate Chained(stream: Stream, boot: seq<byte>, fills: seq<Fill>, restart: Option<nat>)
    requires |boot| == RSBUFSZ
  {
    fills != [] ==>
      var before := fills[..|fills| - 1];
      fills[|fills| - 1].seed == NextSeed(stream, boot, before, restart) && Chained(stream, boot, before, restart)
  }

  ghost function Chains(stream: Stream, boot: seq<byte>, restart: Option<nat>): iset<seq<Fill>>
    requires |boot| == RSBUFSZ
  {
    iset fills: seq<Fill> | Chained(stream, boot, fills, restart)
  }

  ghost predicate Keyed(stream: Stream, boot: seq<byte>, fills: seq<Fill>, restart: Option<nat>, init: bool, seed: Key)
    requires |boot| == RSBUFSZ
  {
    && fills in Chains(stream, boot, restart) && seed == NextSeed(stream, boot, fills, restart)
    && (restart.Some? ==> init && restart.value <= |fills|)
  }

  lemma KeyedOn(stream: Stream, boot: seq<byte>, fills: seq<Fill>, restart: Option<nat>, init: bool, f: Fill)
    requires |boot| == RSBUFSZ && Keyed(stream, boot, fills, restart, init, f.seed)
    ensures Keyed(stream, boot, fills + [f], restart, init, KeyBytes(stream, f))
  {
    assert (fills + [f])[..|fills|] == fills;
  }

  lemma {:induction false} ChainedAnew(stream: Stream, boot: seq<byte>, fills: seq<Fill>, r: nat)
    requires |boot| == RSBUFSZ && Chained(stream, boot, fills, None) && r >= |fills|
    ensures Chained(stream, boot, fills, Some(r))
  {
    if fills == [] {
    } else {
      ChainedAnew(stream, boot, fills[..|fills| - 1], r);
    }
  }

  lemma ChainsAnew(stream: Stream, boot: seq<byte>, fills: seq<Fill>, r: nat)
    requires |boot| == RSBUFSZ && fills in Chains(stream, boot, None) && r >= |fills|
    ensures fills in Chains(stream, boot, Some(r))
  {
    ChainedAnew(stream, boot, fills, r);
  }

  /** The fills made since: the first one with the data given, if any, the rest with none. */
  ghost predicate Grown(before: seq<Fill>, after: seq<Fill>, data: Option<seq<byte>>) {
    && before <= after
    && (data.Some? ==> |before| < |after| && after[|before|].mixed == data.value)
    && forall k :: |before| + (if data.Some? then 1 else 0) <= k < |after| ==> after[k].mixed == []
  }

  lemma GrownOn(a: seq<Fill>, b: seq<Fill>, c: seq<Fill>, data: Option<seq<byte>>)
    requires Grown(a, b, data) && Grown(b, c, None)
    ensures Grown(a, c, data)
  {
  }

  // ----- The bytes delivered -----

  /** One delivered byte: which fill it came from, and where. */
  datatype Drawn = Drawn(fill: nat, offset: nat)

  predicate Before(d: Drawn, fill: int, offset: nat) {
    d.fill < fill || (d.fill == fill && d.offset < offset)
  }

  /**
   * The history is strictly increasing in (fill, offset), ends before this point, and stays clear of
   * the bytes that key the cipher.
   */
  ghost predicate History(log: seq<Drawn>, fill: int, offset: nat) {
    log != [] ==>
      var d := log[|log| - 1];
      SEEDSZ <= d.offset < RSBUFSZ && Before(d, fill, offset) && History(log[..|log| - 1], d.fill, d.offset)
  }

  /** All of them, as a set: a method can then carry one along without unrolling it. */
  ghost function Histories(fill: int, offset: nat): iset<seq<Drawn>> {
    iset log: seq<Drawn> | History(log, fill, offset)
  }

  lemma HistoryGrows(log: seq<Drawn>, fill: int, offset: nat, fill': int, offset': nat)
    requires log in Histories(fill, offset) && (fill < fill' || (fill == fill' && offset <= offset'))
    ensures log in Histories(fill', offset')
  {
  }

  lemma {:induction false} HistoryAt(log: seq<Drawn>, fill: int, offset: nat, i: nat)
    requires History(log, fill, offset) && i < |log|
    ensures SEEDSZ <= log[i].offset < RSBUFSZ && Before(log[i], fill, offset)
  {
    if i < |log| - 1 {
      var d := log[|log| - 1];
      HistoryAt(log[..|log| - 1], d.fill, d.offset, i);
    }
  }

  /** The next `n` bytes of a fill, from `from` on. */
  ghost function Draw(fill: nat, from: nat, n: nat): (r: seq<Drawn>)
    ensures |r| == n
  {
    if n == 0 then [] else Draw(fill, from, n - 1) + [Drawn(fill, from + n - 1)]
  }

  lemma {:induction false} DrawKeepsOrder(log: seq<Drawn>, fill: nat, from: nat, n: nat)
    requires History(log, fill, from) && SEEDSZ <= from && from + n <= RSBUFSZ
    ensures History(log + Draw(fill, from, n), fill, from + n)
  {
    if n == 0 {
      assert log + Draw(fill, from, 0) == log;
    } else {
      DrawKeepsOrder(log, fill, from, n - 1);
      var r := log + Draw(fill, from, n);
      assert r[..|r| - 1] == log + Draw(fill, from, n - 1);
    }
  }

  lemma DrawKeepsHistory(log: seq<Drawn>, fill: nat, from: nat, n: nat)
    requires log in Histories(fill, from) && SEEDSZ <= from && from + n <= RSBUFSZ
    ensures log + Draw(fill, from, n) in Histories(fill, from + n)
  {
    DrawKeepsOrder(log, fill, from, n);
  }

  /** Such a history names no byte twice. */
  lemma {:induction false} NoneTwice(log: seq<Drawn>, fill: int, offset: nat, i: nat, j: nat)
    requires History(log, fill, offset) && i < j < |log|
    ensures log[i] != log[j]
  {
    var d := log[|log| - 1];
    if j < |log| - 1 {
      NoneTwice(log[..|log| - 1], d.fill, d.offset, i, j);
    } else {
      HistoryAt(log[..|log| - 1], d.fill, d.offset, i);
    }
  }

  /** The keystream byte drawn: of the seed that its fill was made from. */
  function ByteOf(stream: Stream, fills: seq<Fill>, d: Drawn): byte {
    if d.fill < |fills| then stream(fills[d.fill].seed, d.offset) else 0
  }

  ghost function Values(stream: Stream, fills: seq<Fill>, drawn: seq<Drawn>): (r: seq<byte>)
    ensures |r| == |drawn|
    ensures forall i :: 0 <= i < |drawn| ==> r[i] == ByteOf(stream, fills, drawn[i])
  {
    seq(|drawn|, i requires 0 <= i < |drawn| => ByteOf(stream, fills, drawn[i]))
  }

  /** What was delivered is the bytes drawn, all of them of fills already made. */
  ghost predicate Got(stream: Stream, fills: seq<Fill>, drawn: seq<Drawn>, out: seq<byte>) {
    && |drawn| == |out|
    && (drawn != [] ==>
          var n := |drawn| - 1;
          && drawn[n].fill < |fills| && out[n] == ByteOf(stream, fills, drawn[n])
          && Got(stream, fills, drawn[..n], out[..n]))
  }

  lemma {:induction false} GotValues(stream: Stream, fills: seq<Fill>, drawn: seq<Drawn>, out: seq<byte>)
    requires Got(stream, fills, drawn, out)
    ensures out == Values(stream, fills, drawn)
  {
    if drawn == [] {
    } else {
      var n := |drawn| - 1;
      GotValues(stream, fills, drawn[..n], out[..n]);
      assert out == out[..n] + [out[n]];
      assert Values(stream, fills, drawn) == Values(stream, fills, drawn[..n]) + [ByteOf(stream, fills, drawn[n])];
    }
  }

  /** Later fills do not change what was drawn. */
  lemma {:induction false} GotKept(stream: Stream, fills: seq<Fill>, fills': seq<Fill>,
                                   drawn: seq<Drawn>, out: seq<byte>)
    requires Got(stream, fills, drawn, out) && fills <= fills'
    ensures Got(stream, fills', drawn, out)
  {
    if drawn == [] {
    } else {
      var n := |drawn| - 1;
      GotKept(stream, fills, fills', drawn[..n], out[..n]);
    }
  }

  lemma {:induction false} GotJoin(stream: Stream, fills: seq<Fill>, drawn: seq<Drawn>, out: seq<byte>,
                                   more: seq<Drawn>, piece: seq<byte>)
    requires Got(stream, fills, drawn, out) && Got(stream, fills, more, piece)
    ensures Got(stream, fills, drawn + more, out + piece)
  {
    if more == [] {
      assert drawn + more == drawn && out + piece == out;
    } else {
      var n := |more| - 1;
      GotJoin(stream, fills, drawn, out, more[..n], piece[..n]);
      assert (drawn + more)[..|drawn| + n] == drawn + more[..n] && (out + piece)[..|out| + n] == out + piece[..n];
    }
  }

  ghost function Deliveries(stream: Stream, fills: seq<Fill>): iset<(seq<Drawn>, seq<byte>)> {
    iset drawn: seq<Drawn>, out: seq<byte> | Got(stream, fills, drawn, out) :: (drawn, out)
  }

  lemma DeliveriesKept(stream: Stream, fills: seq<Fill>, fills': seq<Fill>, drawn: seq<Drawn>, out: seq<byte>)
    requires (drawn, out) in Deliveries(stream, fills) && fills <= fills'
    ensures (drawn, out) in Deliveries(stream, fills')
  {
    GotKept(stream, fills, fills', drawn, out);
  }

  lemma DeliveriesMore(stream: Stream, fills: seq<Fill>, fills': seq<Fill>, drawn: seq<Drawn>, out: seq<byte>,
                       more: seq<Drawn>, piece: seq<byte>)
    requires (drawn, out) in Deliveries(stream, fills) && fills <= fills' && (more, piece) in Deliveries(stream, fills')
    ensures (drawn + more, out + piece) in Deliveries(stream, fills')
  {
    GotKept(stream, fills, fills', drawn, out);
    GotJoin(stream, fills', drawn, out, more, piece);
  }

  /** `out` is the keystream of a seed from `from` on. */
  ghost predicate Slice(stream: Stream, source: Key, from: nat, out: seq<byte>) {
    forall i :: 0 <= i < |out| ==> out[i] == stream(source, from + i)
  }

  lemma {:induction false} GotDrawn(stream: Stream, fills: seq<Fill>, k: nat, from: nat, n: nat, out: seq<byte>)
    requires k < |fills| && n == |out| && Slice(stream, fills[k].seed, from, out)
    ensures Got(stream, fills, Draw(k, from, n), out)
  {
    if n == 0 {
    } else {
      GotDrawn(stream, fills, k, from, n - 1, out[..n - 1]);
      assert Draw(k, from, n)[..n - 1] == Draw(k, from, n - 1);
    }
  }

  lemma DeliveriesDrawn(stream: Stream, fills: seq<Fill>, k: nat, from: nat, n: nat, out: seq<byte>)
    requires k < |fills| && n == |out| && Slice(stream, fills[k].seed, from, out)
    ensures (Draw(k, from, n), out) in Deliveries(stream, fills)
  {
    GotDrawn(stream, fills, k, from, n, out);
  }

  /** All of these bytes are of fills from `low` on. */
  predicate NotBefore(drawn: seq<Drawn>, low: int) {
    forall i :: 0 <= i < |drawn| ==> drawn[i].fill >= low
  }

  /** The first fill that bytes may still come from. */
  function Low(fills: seq<Fill>, have: nat): int {
    if have > 0 then |fills| - 1 else |fills|
  }

  lemma {:induction false} DrawNotBefore(fill: nat, from: nat, n: nat)
    ensures NotBefore(Draw(fill, from, n), fill)
  {
    if n == 0 {
    } else {
      DrawNotBefore(fill, from, n - 1);
    }
  }

  lemma {:induction false} GotMade(stream: Stream, fills: seq<Fill>, drawn: seq<Drawn>, out: seq<byte>, i: nat)
    requires Got(stream, fills, drawn, out) && i < |drawn|
    ensures drawn[i].fill < |fills|
  {
    var n := |drawn| - 1;
    if i < n {
      GotMade(stream, fills, drawn[..n], out[..n], i);
    }
  }

  // ----- Reseeding -----

  datatype Event = Buf(n: nat) | Word | Stir | Start | Suspend

  /** Bytes an event is to deliver. */
  function Wants(e: Event): nat {
    match e
    case Buf(n) => n
    case Word => 4
    case _ => 0
  }

  /** `rs_initialized` and `rs_count` */
  datatype Account = Account(initialized: bool, count: nat)

  /** What a request, or another event, does to the cipher first. */
  datatype Effect = Boot | Reseed | Spend

  /** `_rs_stir_if_needed` */
  function Request(a: Account, n: nat): (Account, Effect) {
    if !a.initialized then (Account(true, BOOT), Boot)
    else if a.count <= n then (Account(true, RESEED), Reseed)
    else (Account(true, a.count - n), Spend)
  }

  function Step(a: Account, e: Event): (Account, Effect) {
    match e
    case Buf(n) => Request(a, n)
    case Word => Request(a, 4)
    case Stir => (a.(count := RESEED), Reseed)
    case Start => (Account(true, RESEED), Reseed)
    case Suspend => (a.(count := 0), Spend)
  }

  function AccountAt(es: seq<Event>, k: nat): Account
    requires k <= |es|
  {
    if k == 0 then Account(false, 0) else Step(AccountAt(es, k - 1), es[k - 1]).0
  }

  function EffectAt(es: seq<Event>, k: nat): Effect
    requires k < |es|
  {
    Step(AccountAt(es, k), es[k]).1
  }

  /** The bytes that events `i` up to `j` ask for. */
  function Asked(es: seq<Event>, i: nat, j: nat): nat
    requires i <= j <= |es|
  {
    if i == j then 0 else Asked(es, i, j - 1) + Wants(es[j - 1])
  }

  ghost predicate SpendsOnly(es: seq<Event>, i: nat, j: nat)
    requires i <= j <= |es|
  {
    forall k :: i <= k < j ==> EffectAt(es, k) == Spend
  }

  /** What may be asked for after event `i` before the next reseed. */
  function Limit(es: seq<Event>, i: nat): nat
    requires i < |es|
  {
    if EffectAt(es, i) == Reseed then RESEED else BOOT
  }

  /** Until the next reseed, requests after a reseed total less than it allows. */
  lemma {:induction false} AskedUnderLimit(es: seq<Event>, i: nat, j: nat)
    requires i < j <= |es| && EffectAt(es, i) != Spend && SpendsOnly(es, i + 1, j)
    ensures Asked(es, i + 1, j) < Limit(es, i)
    ensures Asked(es, i + 1, j) + AccountAt(es, j).count <= Limit(es, i)
    decreases j
  {
    if j > i + 1 {
      AskedUnderLimit(es, i, j - 1);
      assert EffectAt(es, j - 1) == Spend;
    }
  }

  // ----- The generator -----

  /** The buffer with the last `have` bytes of a fill undelivered: all else is wiped. */
  ghost function Image(stream: Stream, source: Key, have: nat): seq<byte> {
    seq(RSBUFSZ, i requires 0 <= i < RSBUFSZ => ImageByte(stream, source, have, i))
  }

  function ImageByte(stream: Stream, source: Key, have: nat, i: nat): byte {
    if i + have < RSBUFSZ then 0 else stream(source, i)
  }

  /** The data an event mixes into the seed. */
  function DataOf(e: Effect, entropy: seq<byte>): Option<seq<byte>> {
    if e == Reseed then Some(entropy) else None
  }

  /** The first fill that an event may serve from: the last one there was, or one made after its reseed. */
  function Floor(before: nat, e: Effect): int {
    if e == Reseed then before + 1 else before - 1
  }

  class Generator {
    const stream: Stream
    const buf: array<byte>
    var have: nat
    var count: nat
    var initialized: bool
    // The cipher context.
    var seed: Key
    var position: nat

    ghost const boot: seq<byte>
    ghost var fills: seq<Fill>
    ghost var restart: Option<nat>
    ghost var log: seq<Drawn>

    /** `rs_buf` holds what the boot loader put there, the context is all zero. */
    constructor (stream: Stream, boot: seq<byte>)
      requires |boot| == RSBUFSZ
      ensures Valid() && fresh(buf) && log == [] && fills == [] && restart == None
      ensures this.stream == stream && this.boot == boot && State() == Account(false, 0)
    {
      this.stream, this.boot := stream, boot;
      buf := new byte[RSBUFSZ](i requires 0 <= i < RSBUFSZ => boot[i]);
      have, count, initialized := 0, 0, false;
      seed, position := Unset, 0;
      fills, restart, log := [], None, [];
      new;
      assert buf[..] == boot;
    }

    ghost predicate Valid()
      reads this, buf
    {
      && buf.Length == RSBUFSZ && have <= RSBUFSZ - SEEDSZ && |boot| == RSBUFSZ
      && position == 0 && Keyed(stream, boot, fills, restart, initialized, seed)
      && log in Histories(|fills| - 1, RSBUFSZ - have)
      && (if fills == [] then have == 0 && buf[..] == boot else Wiped(fills[|fills| - 1].seed))
    }

    ghost predicate Wiped(source: Key)
      reads this, buf
    {
      buf[..] == Image(stream, source, have)
    }

    function State(): Account
      reads this
    {
      Account(initialized, count)
    }

    /** `_rs_init` on the head of the buffer */
    method Init()
      requires buf.Length == RSBUFSZ
      modifies this`seed, this`position
      ensures seed == Key(buf[..SEEDSZ]) && position == 0
    {
      seed, position := Key(buf[..SEEDSZ]), 0;
    }

    /** `chacha_encrypt_bytes` in its keystream-only form */
    method EncryptBytes()
      requires buf.Length == RSBUFSZ
      modifies buf, this`position
      ensures position == old(position) + RSBUFSZ
      ensures forall i :: 0 <= i < RSBUFSZ ==> buf[i] == stream(seed, old(position) + i)
    {
      for i := 0 to RSBUFSZ
        invariant position == old(position)
        invariant forall k :: 0 <= k < i ==> buf[k] == stream(seed, old(position) + k)
      {
        buf[i] := stream(seed, position + i);
      }
      position := position + RSBUFSZ;
    }

    method MixIn(dat: seq<byte>)
      requires buf.Length == RSBUFSZ
      modifies buf
      ensures forall i :: 0 <= i < RSBUFSZ ==>
        buf[i] == if i < SEEDSZ && i < |dat| then old(buf[i]) ^ dat[i] else old(buf[i])
    {
      var m := if |dat| < SEEDSZ then |dat| else SEEDSZ;
      for i := 0 to m
        invariant forall k :: 0 <= k < i ==> buf[k] == old(buf[k]) ^ dat[k]
        invariant forall k :: i <= k < RSBUFSZ ==> buf[k] == old(buf[k])
      {
        buf[i] := buf[i] ^ dat[i];
      }
    }

    method Refill(dat: seq<byte>)
      requires buf.Length == RSBUFSZ && position == 0
      modifies buf, this`position
      ensures forall i :: 0 <= i < RSBUFSZ ==>
        buf[i] == if i < SEEDSZ && i < |dat| then stream(seed, i) ^ dat[i] else stream(seed, i)
    {
      EncryptBytes();
      MixIn(dat);
    }

    /** `memset(rs_buf + from, 0, n)` */
    method Wipe(from: nat, n: nat)
      requires buf.Length == RSBUFSZ && from + n <= RSBUFSZ
      modifies buf
      ensures forall i :: 0 <= i < RSBUFSZ ==> buf[i] == if from <= i < from + n then 0 else old(buf[i])
    {
      forall i | from <= i < from + n {
        buf[i] := 0;
      }
    }

    /** The buffer part of `_rs_rekey`. */
    method RekeyBuffer(dat: seq<byte>)
      requires buf.Length == RSBUFSZ && position == 0
      modifies this`seed, this`position, this`have, buf
      ensures have == RSBUFSZ - SEEDSZ && position == 0 && seed == KeyBytes(stream, Fill(old(seed), dat))
      ensures Wiped(old(seed))
    {
      ghost var f := Fill(seed, dat);
      Refill(dat);
      Init();
      assert seed == KeyBytes(stream, f);
      Wipe(0, SEEDSZ);
      have := RSBUFSZ - SEEDSZ;
      assert buf[..] == Image(stream, f.seed, have);
    }

    /** `_rs_rekey`; no data is the empty string. */
    method Rekey(dat: seq<byte>)
      requires Valid()
      modifies this`seed, this`position, this`have, this`fills, buf
      ensures Valid() && have == RSBUFSZ - SEEDSZ
      ensures fills == old(fills) + [Fill(old(seed), dat)] && seed == KeyBytes(stream, Fill(old(seed), dat))
    {
      ghost var f := Fill(seed, dat);
      KeyedOn(stream, boot, fills, restart, initialized, f);
      HistoryGrows(log, |fills| - 1, RSBUFSZ - have, |fills|, SEEDSZ);
      RekeyBuffer(dat);
      fills := fills + [f];
    }

    /** `_rs_seed` */
    method Seed(dat: seq<byte>)
      requires Valid()
      modifies this`seed, this`position, this`have, this`fills, this`count, buf
      ensures Valid() && have == 0 && count == RESEED
      ensures fills == old(fills) + [Fill(old(seed), dat)] && seed == KeyBytes(stream, Fill(old(seed), dat))
    {
      Rekey(dat);
      have := 0;
      Wipe(0, RSBUFSZ);
      assert buf[..] == Image(stream, fills[|fills| - 1].seed, 0);
      count := RESEED;
    }

    lemma HeadOfBuffer()
      requires Valid()
      ensures Key(buf[..SEEDSZ]) == if fills == [] then Key(boot[..SEEDSZ]) else ZeroSeed()
    {
      if fills == [] {
        assert buf[..SEEDSZ] == buf[..][..SEEDSZ];
      } else {
        var image := buf[..];
        forall i | 0 <= i < SEEDSZ ensures buf[i] == 0 {
          assert image[i] == ImageByte(stream, fills[|fills| - 1].seed, have, i);
        }
      }
    }

    /** The first request takes its seed from the buffer. */
    method BootSeed()
      requires Valid() && !initialized
      modifies this`seed, this`position, this`count, this`initialized, this`restart
      ensures Valid() && State() == Account(true, BOOT) && restart == Some(|fills|)
      ensures seed == if fills == [] then Key(boot[..SEEDSZ]) else ZeroSeed()
    {
      HeadOfBuffer();
      ChainsAnew(stream, boot, fills, |fills|);
      Init();
      restart := Some(|fills|);
      count, initialized := BOOT, true;
    }

    /** `_rs_stir_if_needed`, with the entropy it would extract */
    method StirIfNeeded(len: nat, entropy: seq<byte>)
      requires Valid()
      modifies this, buf
      ensures Valid() && log == old(log)
      ensures State() == Request(old(State()), len).0
      ensures var e := Request(old(State()), len).1;
        && Grown(old(fills), fills, DataOf(e, entropy))
        && |fills| == |old(fills)| + (if e == Reseed then 1 else 0)
        && restart == (if e == Boot then Some(|fills|) else old(restart))
        && have == (if e == Reseed then 0 else old(have))
    {
      if !initialized {
        BootSeed();
      } else if count <= len {
        Seed(entropy);
      } else {
        count := count - len;
      }
    }

    /** `memcpy` and `memset` of the next `m` bytes */
    method TakeBytes(m: nat, ghost source: Key, ghost from: nat) returns (out: seq<byte>)
      requires buf.Length == RSBUFSZ && m <= have <= RSBUFSZ && from == RSBUFSZ - have && Wiped(source)
      modifies this`have, buf
      ensures have == old(have) - m && Wiped(source) && |out| == m && Slice(stream, source, from, out)
    {
      out := buf[RSBUFSZ - have..RSBUFSZ - have + m];
      ghost var image := buf[..];
      forall i | 0 <= i < m ensures out[i] == stream(source, from + i) {
        assert out[i] == image[from + i];
      }
      Wipe(RSBUFSZ - have, m);
      have := have - m;
      forall i | 0 <= i < RSBUFSZ ensures buf[i] == ImageByte(stream, source, have, i) {
        assert image[i] == ImageByte(stream, source, have + m, i);
      }
    }

    /** Copies `m` bytes out and wipes them. */
    method Take(m: nat) returns (out: seq<byte>, ghost drawn: seq<Drawn>)
      requires Valid() && fills != [] && m <= have
      modifies this`have, this`log, buf
      ensures Valid() && have == old(have) - m && |out| == m
      ensures drawn == Draw(|fills| - 1, RSBUFSZ - old(have), m) && NotBefore(drawn, |fills| - 1)
      ensures log == old(log) + drawn && (drawn, out) in Deliveries(stream, fills)
    {
      ghost var from: nat, k: nat := RSBUFSZ - have, |fills| - 1;
      DrawKeepsHistory(log, k, from, m);
      out := TakeBytes(m, fills[k].seed, from);
      DeliveriesDrawn(stream, fills, k, from, m, out);
      DrawNotBefore(k, from, m);
      drawn := Draw(k, from, m);
      log := log + drawn;
    }

    /** `_rs_random_buf`: every request is served in full, from bytes not served before. */
    method RandomBuf(n: nat, entropy: seq<byte>) returns (out: seq<byte>, ghost drawn: seq<Drawn>)
      requires Valid()
      modifies this, buf
      ensures Valid() && State() == Request(old(State()), n).0
      ensures |out| == n && log == old(log) + drawn && (drawn, out) in Deliveries(stream, fills)
      ensures var e := Request(old(State()), n).1;
        && Grown(old(fills), fills, DataOf(e, entropy)) && NotBefore(drawn, Floor(|old(fills)|, e))
        && restart == (if e == Boot then Some(|old(fills)|) else old(restart))
    {
      ghost var f0, e := fills, Request(State(), n).1;
      StirIfNeeded(n, entropy);
      ghost var f1 := fills;
      out, drawn := Deliver(n);
      GrownOn(f0, f1, fills, DataOf(e, entropy));
    }

    method Deliver(n: nat) returns (out: seq<byte>, ghost drawn: seq<Drawn>)
      requires Valid()
      modifies this`seed, this`position, this`have, this`fills, this`log, buf
      ensures Valid() && Grown(old(fills), fills, None) && NotBefore(drawn, Low(old(fills), old(have)))
      ensures |out| == n && log == old(log) + drawn && (drawn, out) in Deliveries(stream, fills)
    {
      out, drawn := [], [];
      var left: nat := n;
      ghost var low := Low(fills, have);
      while left > 0
        invariant Valid() && left <= n && Grown(old(fills), fills, None)
        invariant NotBefore(drawn, low) && low <= Low(fills, have)
        invariant |out| == n - left && log == old(log) + drawn && (drawn, out) in Deliveries(stream, fills)
        decreases left, have == 0
      {
        ghost var f, before, log0 := fills, old(fills), old(log);
        var piece, more := Turn(left);
        GrownOn(before, f, fills, None);
        DeliveriesMore(stream, f, fills, drawn, out, more, piece);
        Regrouped(log0, drawn, more);
        out, drawn := out + piece, drawn + more;
        left := left - |piece|;
      }
    }

    /** One turn of the delivery loop. */
    method Turn(left: nat) returns (out: seq<byte>, ghost drawn: seq<Drawn>)
      requires Valid() && left > 0
      modifies this`seed, this`position, this`have, this`fills, this`log, buf
      ensures Valid() && have > 0 && Grown(old(fills), fills, None)
      ensures |out| <= left && (old(have) > 0 ==> |out| > 0)
      ensures log == old(log) + drawn && (drawn, out) in Deliveries(stream, fills)
      ensures NotBefore(drawn, Low(old(fills), old(have))) && Low(old(fills), old(have)) <= Low(fills, have)
    {
      out, drawn := [], [];
      if have > 0 {
        out, drawn := Take(if left < have then left else have);
      }
      if have == 0 {
        ghost var f := fills;
        Rekey([]);
        DeliveriesKept(stream, f, fills, drawn, out);
      }
    }

    /** `_rs_random_u32`, as its four bytes */
    method RandomU32(entropy: seq<byte>) returns (out: seq<byte>, ghost drawn: seq<Drawn>)
      requires Valid()
      modifies this, buf
      ensures Valid() && State() == Request(old(State()), 4).0
      ensures |out| == 4 && log == old(log) + drawn && (drawn, out) in Deliveries(stream, fills)
      ensures var e := Request(old(State()), 4).1;
        && Grown(old(fills), fills, DataOf(e, entropy)) && NotBefore(drawn, Floor(|old(fills)|, e))
        && restart == (if e == Boot then Some(|old(fills)|) else old(restart))
    {
      ghost var f0, e := fills, Request(State(), 4).1;
      StirIfNeeded(4, entropy);
      ghost var f1 := fills;
      out, drawn := DeliverWord();
      GrownOn(f0, f1, fills, DataOf(e, entropy));
    }

    method DeliverWord() returns (out: seq<byte>, ghost drawn: seq<Drawn>)
      requires Valid()
      modifies this`seed, this`position, this`have, this`fills, this`log, buf
      ensures Valid() && Grown(old(fills), fills, None) && NotBefore(drawn, Low(old(fills), old(have)))
      ensures |out| == 4 && log == old(log) + drawn && (drawn, out) in Deliveries(stream, fills)
    {
      EnsureWord();
      out, drawn := Take(4);
    }

    method EnsureWord()
      requires Valid()
      modifies this`seed, this`position, this`have, this`fills, buf
      ensures Valid() && have >= 4 && fills != [] && Grown(old(fills), fills, None)
      ensures Low(old(fills), old(have)) <= Low(fills, have)
    {
      if have < 4 {
        Rekey([]);
      }
    }

    /** `suspend_randomness` and `resume_randomness` force a reseed. */
    method Expire()
      requires Valid()
      modifies this`count
      ensures Valid() && count == 0
    {
      count := 0;
    }

    /** `random_start` marks the generator initialised, whether or not it was seeded, and stirs. */
    method RandomStart(entropy: seq<byte>)
      requires Valid()
      modifies this`initialized, this`seed, this`position, this`have, this`fills, this`count, buf
      ensures Valid() && State() == Account(true, RESEED) && have == 0
      ensures fills == old(fills) + [Fill(old(seed), entropy)]
    {
      initialized := true;
      Seed(entropy);
    }
  }

  method Handle(g: Generator, e: Event, entropy: seq<byte>) returns (out: seq<byte>, ghost drawn: seq<Drawn>)
    requires g.Valid()
    modifies g, g.buf
    ensures g.Valid() && |out| == Wants(e) && g.log == old(g.log) + drawn
    ensures (drawn, out) in Deliveries(g.stream, g.fills) && g.State() == Step(old(g.State()), e).0
    ensures var eff := Step(old(g.State()), e).1;
      && Grown(old(g.fills), g.fills, DataOf(eff, entropy)) && NotBefore(drawn, Floor(|old(g.fills)|, eff))
      && g.restart == if eff == Boot then Some(|old(g.fills)|) else old(g.restart)
  {
    out, drawn := [], [];
    match e {
      case Buf(n) => out, drawn := g.RandomBuf(n, entropy);
      case Word => out, drawn := g.RandomU32(entropy);
      case Stir => g.Seed(entropy);
      case Start => g.RandomStart(entropy);
      case Suspend => g.Expire();
    }
  }

  /**
   * What a run shows: which bytes of which fills were delivered, how the fills came about, how many
   * there were before each event, and what is left in the buffer.
   */
  datatype Trace = Trace(
    drawn: seq<Drawn>, fills: seq<Fill>, marks: seq<nat>, restart: Option<nat>, buf: seq<byte>, have: nat)

  /**
   * The fills made in the first `n` events, `marks[k]` of them before event `k`: a reseed mixes its
   * entropy into the first fill it makes, no other fill has anything mixed in, and the buffer's head is
   * taken for a seed by the first request and never again.
   */
  ghost predicate FillsFollow(es: seq<Event>, entropy: seq<seq<byte>>, n: nat,
                              fills: seq<Fill>, marks: seq<nat>, restart: Option<nat>)
    requires n <= |es| == |entropy|
  {
    && |marks| == n + 1 && marks[n] == |fills|
    && if n == 0 then fills == [] && restart == None
       else
         var e, before := EffectAt(es, n - 1), marks[n - 1];
         && before <= |fills| && Grown(fills[..before], fills, DataOf(e, entropy[n - 1]))
         && (e == Boot ==> restart == Some(before))
         && FillsFollow(es, entropy, n - 1, fills[..before], marks[..n], if e == Boot then None else restart)
  }

  lemma FillsFollowOn(es: seq<Event>, entropy: seq<seq<byte>>, n: nat, fills: seq<Fill>, marks: seq<nat>,
                      restart: Option<nat>, fills': seq<Fill>, restart': Option<nat>)
    requires n < |es| == |entropy| && FillsFollow(es, entropy, n, fills, marks, restart)
    requires Grown(fills, fills', DataOf(EffectAt(es, n), entropy[n]))
    requires restart' == if EffectAt(es, n) == Boot then Some(|fills|) else restart
    requires EffectAt(es, n) == Boot ==> restart == None
    ensures FillsFollow(es, entropy, n + 1, fills', marks + [|fills'|], restart')
  {
    assert (marks + [|fills'|])[..n + 1] == marks && fills'[..|fills|] == fills;
  }

  /**
   * The bytes delivered in the first `n` events: those of event `k` are of fills made by its end, and not
   * of any but the last one made before it; after a reseed, only of fills made later than that.
   */
  ghost predicate Served(es: seq<Event>, drawn: seq<Drawn>, marks: seq<nat>, n: nat)
    requires n <= |es|
    decreases n
  {
    && |marks| == n + 1 && |drawn| == Asked(es, 0, n)
    && (n > 0 ==>
          var from := Asked(es, 0, n - 1);
          && Span(drawn[from..], Floor(marks[n - 1], EffectAt(es, n - 1)), marks[n])
          && Served(es, drawn[..from], marks[..n], n - 1))
  }

  ghost predicate Span(drawn: seq<Drawn>, low: int, high: nat) {
    forall i :: 0 <= i < |drawn| ==> low <= drawn[i].fill < high
  }

  lemma GotSpan(stream: Stream, fills: seq<Fill>, drawn: seq<Drawn>, out: seq<byte>, low: int)
    requires (drawn, out) in Deliveries(stream, fills) && NotBefore(drawn, low)
    ensures Span(drawn, low, |fills|)
  {
    forall i | 0 <= i < |drawn| ensures low <= drawn[i].fill < |fills| {
      GotMade(stream, fills, drawn, out, i);
    }
  }

  lemma ServedOn(es: seq<Event>, drawn: seq<Drawn>, marks: seq<nat>, n: nat, more: seq<Drawn>, high: nat)
    requires n < |es| && Served(es, drawn, marks, n) && |more| == Wants(es[n])
    requires Span(more, Floor(marks[n], EffectAt(es, n)), high)
    ensures Served(es, drawn + more, marks + [high], n + 1)
  {
    var all, marks' := drawn + more, marks + [high];
    assert all[..|drawn|] == drawn && all[|drawn|..] == more && marks'[..n + 1] == marks;
  }

  /** Of the last fill, what lies outside the last `have` bytes is wiped, and nothing else was delivered. */
  ghost predicate LeftOver(stream: Stream, t: Trace) {
    && |t.buf| == RSBUFSZ && t.have <= RSBUFSZ - SEEDSZ
    && (t.fills != [] ==> t.buf == Image(stream, t.fills[|t.fills| - 1].seed, t.have))
    && History(t.drawn, |t.fills| - 1, RSBUFSZ - t.have)
  }

  /** No byte of any fill is delivered twice, and none of those that key the cipher at all. */
  ghost predicate UsedOnce(t: Trace) {
    && (forall i, j :: 0 <= i < j < |t.drawn| ==> t.drawn[i] != t.drawn[j])
    && (forall i :: 0 <= i < |t.drawn| ==> SEEDSZ <= t.drawn[i].offset < RSBUFSZ && t.drawn[i].fill < |t.fills|)
  }

  /** One more event, and what it adds. */
  method RunEvent(g: Generator, es: seq<Event>, entropy: seq<seq<byte>>, k: nat, ghost marks: seq<nat>)
    returns (out: seq<byte>, ghost drawn: seq<Drawn>, ghost marks': seq<nat>)
    requires g.Valid() && k < |es| == |entropy| && g.State() == AccountAt(es, k)
    requires FillsFollow(es, entropy, k, g.fills, marks, g.restart) && Served(es, g.log, marks, k)
    modifies g, g.buf
    ensures g.Valid() && g.State() == AccountAt(es, k + 1) && |out| == Wants(es[k])
    ensures g.log == old(g.log) + drawn && (drawn, out) in Deliveries(g.stream, g.fills) && old(g.fills) <= g.fills
    ensures FillsFollow(es, entropy, k + 1, g.fills, marks', g.restart) && Served(es, g.log, marks', k + 1)
  {
    ghost var f, r, log, eff := g.fills, g.restart, g.log, EffectAt(es, k);
    assert eff == Step(g.State(), es[k]).1;
    out, drawn := Handle(g, es[k], entropy[k]);
    FillsFollowOn(es, entropy, k, f, marks, r, g.fills, g.restart);
    ghost var made: nat := |g.fills|;
    GotSpan(g.stream, g.fills, drawn, out, Floor(|f|, eff));
    ServedOn(es, log, marks, k, drawn, made);
    marks' := marks + [made];
  }

  method RunEvents(g: Generator, es: seq<Event>, entropy: seq<seq<byte>>)
    returns (out: seq<byte>, ghost marks: seq<nat>)
    requires g.Valid() && g.fills == [] && g.log == [] && g.restart == None
    requires g.State() == Account(false, 0) && |entropy| == |es|
    modifies g, g.buf
    ensures g.Valid() && |out| == Asked(es, 0, |es|) && (g.log, out) in Deliveries(g.stream, g.fills)
    ensures FillsFollow(es, entropy, |es|, g.fills, marks, g.restart) && Served(es, g.log, marks, |es|)
  {
    out, marks := [], [0];
    for k := 0 to |es|
      invariant g.Valid() && g.State() == AccountAt(es, k)
      invariant |out| == Asked(es, 0, k) && (g.log, out) in Deliveries(g.stream, g.fills)
      invariant FillsFollow(es, entropy, k, g.fills, marks, g.restart) && Served(es, g.log, marks, k)
    {
      ghost var f, log, more := g.fills, g.log, [];
      var piece;
      piece, more, marks := RunEvent(g, es, entropy, k, marks);
      DeliveriesMore(g.stream, f, g.fills, log, out, more, piece);
      out := out + piece;
    }
  }

  /** Event `i` seeds, and what is asked for until event `j`, with no seeding in between, is under its limit. */
  ghost predicate UnderLimit(es: seq<Event>, i: nat, j: nat)
    requires i < j <= |es|
  {
    EffectAt(es, i) != Spend && SpendsOnly(es, i + 1, j) ==> Asked(es, i + 1, j) < Limit(es, i)
  }

  /** Any run of a fresh generator: all that was asked for is delivered, from bytes used once. */
  method RunAll(stream: Stream, boot: seq<byte>, es: seq<Event>, entropy: seq<seq<byte>>)
    returns (out: seq<byte>, ghost t: Trace)
    requires |boot| == RSBUFSZ && |entropy| == |es|
    ensures |out| == Asked(es, 0, |es|) && out == Values(stream, t.fills, t.drawn)
    ensures UsedOnce(t) && LeftOver(stream, t) && Chained(stream, boot, t.fills, t.restart)
    ensures FillsFollow(es, entropy, |es|, t.fills, t.marks, t.restart) && Served(es, t.drawn, t.marks, |es|)
    ensures forall i, j :: 0 <= i < j <= |es| ==> UnderLimit(es, i, j)
  {
    var g := new Generator(stream, boot);
    ghost var marks;
    out, marks := RunEvents(g, es, entropy);
    t := Trace(g.log, g.fills, marks, g.restart, g.buf[..], g.have);
    GotValues(stream, g.fills, g.log, out);
    TraceIsSound(t);
    forall i, j | 0 <= i < j <= |es| ensures UnderLimit(es, i, j) {
      if EffectAt(es, i) != Spend && SpendsOnly(es, i + 1, j) {
        AskedUnderLimit(es, i, j);
      }
    }
  }

  lemma TraceIsSound(t: Trace)
    requires t.have <= RSBUFSZ - SEEDSZ && History(t.drawn, |t.fills| - 1, RSBUFSZ - t.have)
    ensures UsedOnce(t)
  {
    forall i | 0 <= i < |t.drawn|
      ensures SEEDSZ <= t.drawn[i].offset < RSBUFSZ && Before(t.drawn[i], |t.fills| - 1, RSBUFSZ - t.have)
    {
      HistoryAt(t.drawn, |t.fills| - 1, RSBUFSZ - t.have, i);
    }
    forall i, j | 0 <= i < j < |t.drawn| ensures t.drawn[i] != t.drawn[j] {
      NoneTwice(t.drawn, |t.fills| - 1, RSBUFSZ - t.have, i, j);
    }
  }
}
