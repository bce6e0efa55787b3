/**
 * What a reseed does for the keys of the generator (dev/rnd.c): over whole runs, the entropy of a reseed decides the
 * key of the next fill, unless the first request of all comes later and takes its key from a wiped buffer.
 */
module Reseeding {
  import opened Bytes
  import opened Keystream

  /** The part of the data that counts: its first bytes, filled up with zeros. */
  function Head(data: seq<byte>): (r: seq<byte>)
    ensures |r| == SEEDSZ
  {
    seq(SEEDSZ, i requires 0 <= i < SEEDSZ => if i < |data| then data[i] else 0)
  }

  /** The head of the keystream that a fill is made of. */
  function StreamHead(stream: Stream, seed: Key): (r: seq<byte>)
    ensures |r| == SEEDSZ
  {
    seq(SEEDSZ, i requires 0 <= i < SEEDSZ => stream(seed, i))
  }

  lemma MaskCommutes(x: byte, y: byte)
    ensures x ^ y == y ^ x && x == 0 ^ x
  {
  }

  /** The next key is the keystream masked with the data. */
  lemma KeyIsMasked(stream: Stream, f: Fill)
    ensures KeyBytes(stream, f) == Key(Xor(Head(f.mixed), StreamHead(stream, f.seed)))
  {
    var k, m := KeyBytes(stream, f).bytes, Xor(Head(f.mixed), StreamHead(stream, f.seed));
    forall i | 0 <= i < SEEDSZ ensures k[i] == m[i] {
      MaskCommutes(stream(f.seed, i), Head(f.mixed)[i]);
    }
    assert k == m;
  }

  /** From one seed, two lots of data lead to the same key if and only if their heads are equal. */
  lemma KeysEqualIff(stream: Stream, seed: Key, a: seq<byte>, b: seq<byte>)
    ensures KeyBytes(stream, Fill(seed, a)) == KeyBytes(stream, Fill(seed, b)) <==> Head(a) == Head(b)
    ensures |a| >= SEEDSZ && |b| >= SEEDSZ ==> (Head(a) == Head(b) <==> a[..SEEDSZ] == b[..SEEDSZ])
  {
    if |a| >= SEEDSZ && |b| >= SEEDSZ {
      HeadIsPrefix(a);
      HeadIsPrefix(b);
    }
    KeyIsMasked(stream, Fill(seed, a));
    KeyIsMasked(stream, Fill(seed, b));
    XorCancels(Head(a), StreamHead(stream, seed));
    XorCancels(Head(b), StreamHead(stream, seed));
  }

  lemma HeadIsPrefix(a: seq<byte>)
    requires |a| >= SEEDSZ
    ensures Head(a) == a[..SEEDSZ]
  {
  }

  // ----- Over runs -----

  lemma {:induction false} ChainedAt(stream: Stream, boot: seq<byte>, fills: seq<Fill>, restart: Option<nat>, i: nat)
    requires |boot| == RSBUFSZ && Chained(stream, boot, fills, restart) && i < |fills|
    ensures fills[i].seed == NextSeed(stream, boot, fills[..i], restart)
  {
    var before := fills[..|fills| - 1];
    if i < |before| {
      ChainedAt(stream, boot, before, restart, i);
      assert before[..i] == fills[..i];
    }
  }

  /** The first fill that a reseed makes has its entropy mixed in. */
  lemma {:induction false} ReseedMixes(es: seq<Event>, entropy: seq<seq<byte>>, n: nat, fills: seq<Fill>,
                                       marks: seq<nat>, restart: Option<nat>, k: nat)
    requires k < n <= |es| == |entropy| && FillsFollow(es, entropy, n, fills, marks, restart)
    requires EffectAt(es, k) == Reseed
    ensures marks[k] < |fills| && fills[marks[k]].mixed == entropy[k]
    decreases n
  {
    var before := marks[n - 1];
    if k < n - 1 {
      var e := EffectAt(es, n - 1);
      ReseedMixes(es, entropy, n - 1, fills[..before], marks[..n], if e == Boot then None else restart, k);
    }
  }

  /** A run, as `RunAll` describes it. */
  ghost predicate IsRun(stream: Stream, boot: seq<byte>, es: seq<Event>, entropy: seq<seq<byte>>, t: Trace) {
    && |boot| == RSBUFSZ && |entropy| == |es| && Chained(stream, boot, t.fills, t.restart)
    && FillsFollow(es, entropy, |es|, t.fills, t.marks, t.restart)
  }

  /** No first request comes when that reseed's fill is the last one made: its key stays in use. */
  predicate Stays(t: Trace, k: nat)
    requires k < |t.marks|
  {
    t.restart != Some(t.marks[k] + 1)
  }

  /** The fill after a reseed is made from the key that the reseed's entropy led to; failing that, from zeros. */
  lemma KeyAfterReseed(stream: Stream, boot: seq<byte>, es: seq<Event>, entropy: seq<seq<byte>>, t: Trace, k: nat)
    requires IsRun(stream, boot, es, entropy, t) && k < |es| && EffectAt(es, k) == Reseed
    requires t.marks[k] + 1 < |t.fills|
    ensures t.fills[t.marks[k] + 1].seed
      == if Stays(t, k) then KeyBytes(stream, Fill(t.fills[t.marks[k]].seed, entropy[k])) else ZeroSeed()
  {
    var f := t.marks[k];
    ReseedMixes(es, entropy, |es|, t.fills, t.marks, t.restart, k);
    ChainedAt(stream, boot, t.fills, t.restart, f + 1);
    assert t.fills[..f + 1][f] == t.fills[f];
  }

  /**
   * Two runs, of whatever events, that reach a reseed with the same key: the next fills are made from the same key if
   * and only if the heads of the entropy drawn there are equal.
   */
  lemma EntropyDecides(stream: Stream, boot: seq<byte>, es: seq<Event>, entropy: seq<seq<byte>>, t: Trace, k: nat,
                       boot': seq<byte>, es': seq<Event>, entropy': seq<seq<byte>>, t': Trace, k': nat)
    requires IsRun(stream, boot, es, entropy, t) && IsRun(stream, boot', es', entropy', t')
    requires k < |es| && EffectAt(es, k) == Reseed && t.marks[k] + 1 < |t.fills| && Stays(t, k)
    requires k' < |es'| && EffectAt(es', k') == Reseed && t'.marks[k'] + 1 < |t'.fills| && Stays(t', k')
    requires t.fills[t.marks[k]].seed == t'.fills[t'.marks[k']].seed
    ensures t.fills[t.marks[k] + 1].seed == t'.fills[t'.marks[k'] + 1].seed <==> Head(entropy[k]) == Head(entropy'[k'])
  {
    KeyAfterReseed(stream, boot, es, entropy, t, k);
    KeyAfterReseed(stream, boot', es', entropy', t', k');
    KeysEqualIff(stream, t.fills[t.marks[k]].seed, entropy[k], entropy'[k']);
  }

  // ----- When the key stays -----

  lemma {:induction false} StaysInitialized(es: seq<Event>, k: nat, n: nat)
    requires k <= n <= |es| && AccountAt(es, k).initialized
    ensures AccountAt(es, n).initialized
  {
    if k < n {
      StaysInitialized(es, k, n - 1);
    }
  }

  /** The buffer's head is taken for a key by the first request, and by nothing else. */
  lemma {:induction false} RestartIsBoot(es: seq<Event>, entropy: seq<seq<byte>>, n: nat, fills: seq<Fill>,
                                         marks: seq<nat>, restart: Option<nat>) returns (j: nat)
    requires n <= |es| == |entropy| && FillsFollow(es, entropy, n, fills, marks, restart) && restart.Some?
    ensures j < n && EffectAt(es, j) == Boot && !AccountAt(es, j).initialized && marks[j] == restart.value
    decreases n
  {
    if EffectAt(es, n - 1) == Boot {
      j := n - 1;
    } else {
      j := RestartIsBoot(es, entropy, n - 1, fills[..marks[n - 1]], marks[..n], restart);
    }
  }

  lemma {:induction false} MarksRise(es: seq<Event>, entropy: seq<seq<byte>>, n: nat, fills: seq<Fill>,
                                     marks: seq<nat>, restart: Option<nat>, i: nat, j: nat)
    requires i <= j <= n <= |es| == |entropy| && FillsFollow(es, entropy, n, fills, marks, restart)
    ensures marks[i] <= marks[j] <= |fills|
    decreases n
  {
    if i < n {
      var e, before := EffectAt(es, n - 1), marks[n - 1];
      var r := if e == Boot then None else restart;
      MarksRise(es, entropy, n - 1, fills[..before], marks[..n], r, i, if j < n then j else n - 1);
    }
  }

  /** After a reseed of an initialised generator it always does. */
  lemma InitializedStays(stream: Stream, boot: seq<byte>, es: seq<Event>, entropy: seq<seq<byte>>, t: Trace, k: nat)
    requires IsRun(stream, boot, es, entropy, t) && k < |es| && AccountAt(es, k + 1).initialized
    ensures Stays(t, k)
  {
    if t.restart.Some? {
      var j := RestartIsBoot(es, entropy, |es|, t.fills, t.marks, t.restart);
      if j > k {
        StaysInitialized(es, k + 1, j);
      } else {
        MarksRise(es, entropy, |es|, t.fills, t.marks, t.restart, j, k);
      }
    }
  }

  /** Stirred before its first request, the generator is keyed with zeros by that request, whatever the entropy. */
  lemma EntropyLost(stream: Stream, boot: seq<byte>, entropy: seq<seq<byte>>, t: Trace)
    requires IsRun(stream, boot, [Stir, Word], entropy, t) && t.marks[0] + 1 == t.marks[1] < |t.fills|
    ensures EffectAt([Stir, Word], 0) == Reseed && !Stays(t, 0)
    ensures t.fills[t.marks[1]].seed == ZeroSeed()
  {
    var es := [Stir, Word];
    assert AccountAt(es, 1) == Step(AccountAt(es, 0), es[0]).0;
    assert EffectAt(es, 1) == Boot;
    KeyAfterReseed(stream, boot, es, entropy, t, 0);
  }
}
