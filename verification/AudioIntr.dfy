/**
 * What interrupts keep (dev/audio.c): the balance of bytes in and out of a ring, and what a writer or
 * reader was given before it copied without holding the lock.
 */
module AudioIntr {
  import opened Bytes
  import opened Division
  import opened AudioRing

  /** Blocks in the ring. */
  function Nblk(b: Ring): (n: int)
    ensures n >= 0
  {
    if b.blksz == 0 then 0 else Quot(b.len, b.blksz)
  }

  // ----- Conservation -----

  /** Blocks played, bytes put into the ring by the writer, bytes put in by underruns. */
  datatype Account = Account(played: nat, wrote: nat, lost: nat)

  ghost predicate Balanced(b: Ring, a: Account) {
    && b.used + Times(b.blksz, a.played) == a.wrote + a.lost
    && b.pos == Wrap(Times(b.blksz, a.played)) && b.xrun == Wrap(a.lost)
  }

  ghost function Tally(b: Ring, a: Account): Account {
    Account(a.played + 1, a.wrote, a.lost + if Underruns(b) then b.blksz else 0)
  }

  lemma WrapAdds(m: nat, n: nat)
    ensures Wrap(Wrap(m) + n) == Wrap(m + n)
  {
  }

  lemma BalancedStep(b: Ring, a: Account)
    requires PlayReady(b) && Balanced(b, a)
    ensures Balanced(PlayBlock(b), Tally(b, a))
  {
    PlayBlockKeeps(b);
    WrapAdds(Times(b.blksz, a.played), b.blksz);
    WrapAdds(a.lost, b.blksz);
  }

  /** On the counters the driver has: all that went in is in the ring or was played. */
  lemma CountersBalance(b: Ring, a: Account)
    requires Balanced(b, a)
    ensures Wrap(b.used + b.pos) == Wrap(a.wrote + b.xrun)
  {
    WrapAdds(Times(b.blksz, a.played), b.used);
    WrapAdds(a.lost, a.wrote);
  }

  /** Blocks recorded, bytes read and bytes dropped by overruns, and what was there to begin with. */
  datatype RecAccount = RecAccount(recorded: nat, read: nat, dropped: nat, initial: nat)

  ghost predicate RecBalanced(b: Ring, a: RecAccount) {
    && b.used + a.read + a.dropped == a.initial + Times(b.blksz, a.recorded)
    && b.pos == Wrap(Times(b.blksz, a.recorded)) && b.xrun == Wrap(a.dropped)
  }

  ghost function RecTally(b: Ring, a: RecAccount): RecAccount {
    a.(recorded := a.recorded + 1, dropped := a.dropped + if Overruns(b) then b.blksz else 0)
  }

  lemma RecBalancedStep(b: Ring, a: RecAccount)
    requires Frame(b) && RecBalanced(b, a)
    ensures RecBalanced(RecBlock(b), RecTally(b, a))
  {
    RecBlockMoves(b);
    WrapAdds(Times(b.blksz, a.recorded), b.blksz);
    WrapAdds(a.dropped, b.blksz);
  }

  // ----- The unlocked writer and reader -----

  /** A range handed out: where, how much, and how often the ring has moved from under it since. */
  datatype Hold = Free | Held(at: nat, count: nat, slips: nat)

  function AdvanceBy(b: Ring, p: nat, n: nat): nat {
    if n == 0 then p else Advance(b, AdvanceBy(b, p, n - 1))
  }

  lemma {:induction false} AdvanceSame(b: Ring, c: Ring, p: nat, n: nat)
    requires b.len == c.len && b.blksz == c.blksz
    ensures AdvanceBy(b, p, n) == AdvanceBy(c, p, n)
  {
    if n == 0 {
    } else {
      AdvanceSame(b, c, p, n - 1);
    }
  }

  /** The reservation still fits, and the ring's end has moved on by a block for every underrun. */
  ghost predicate Honours(b: Ring, h: Hold)
    requires b.start < b.len && b.used <= b.len
  {
    h.Held? ==>
      && h.at + h.count <= b.len && h.at < b.len && h.count <= b.len - b.used
      && End(b) == AdvanceBy(b, h.at, h.slips)
  }

  function Slip(b: Ring, h: Hold): Hold {
    if h.Held? && Underruns(b) then h.(slips := h.slips + 1) else h
  }

  lemma HonoursStep(b: Ring, h: Hold)
    requires PlayReady(b) && Honours(b, h)
    ensures PlayReady(PlayBlock(b)) && Honours(PlayBlock(b), Slip(b, h))
  {
    PlayBlockKeeps(b);
    if h.Held? {
      AdvanceSame(b, PlayBlock(b), h.at, h.slips);
    }
  }

  lemma {:induction false} AdvanceWithin(b: Ring, p: nat, n: nat)
    requires Frame(b) && p < b.len && n <= Nblk(b)
    ensures AdvanceBy(b, p, n)
      == if p + Times(b.blksz, n) >= b.len then p + Times(b.blksz, n) - b.len else p + Times(b.blksz, n)
  {
    BlocksFit(b, n);
    if n == 0 {
    } else {
      AdvanceWithin(b, p, n - 1);
    }
  }

  lemma {:induction false} AdvanceSplit(b: Ring, p: nat, m: nat, n: nat)
    ensures AdvanceBy(b, p, m + n) == AdvanceBy(b, AdvanceBy(b, p, m), n)
  {
    if n == 0 {
    } else {
      AdvanceSplit(b, p, m, n - 1);
    }
  }

  /** Moving on by blocks comes back to the same place exactly after whole turns of the ring. */
  lemma {:induction false} AdvanceReturnsIff(b: Ring, p: nat, n: nat)
    requires Frame(b) && p < b.len && Nblk(b) > 0
    ensures AdvanceBy(b, p, n) == p <==> Rem(n, Nblk(b)) == 0
    decreases n
  {
    var turn := Nblk(b);
    BlocksFit(b, turn);
    if n < turn {
      BlocksFit(b, n);
      AdvanceWithin(b, p, n);
      if n > 0 {
        TimesAdds(b.blksz, 1, n - 1);
      }
    } else {
      AdvanceWithin(b, p, turn);
      AdvanceSplit(b, p, turn, n - turn);
      AdvanceReturnsIff(b, p, n - turn);
    }
  }

  /** The range the writer fills is still the one at the end of the ring: the exact condition. */
  lemma ReservationCurrentIff(b: Ring, h: Hold)
    requires Shape(b) && Honours(b, h) && h.Held?
    ensures Nblk(b) > 0 && (h.at == End(b) <==> Rem(h.slips, Nblk(b)) == 0)
  {
    BlocksFit(b, 0);
    AdvanceReturnsIff(b, h.at, h.slips);
  }

  lemma SlipMoves(b: Ring, h: Hold)
    requires PlayReady(b) && Honours(b, h) && h.Held? && h.at == End(b) && Underruns(b) && b.blksz < b.len
    ensures PlayReady(PlayBlock(b)) && Honours(PlayBlock(b), Slip(b, h)) && h.at != End(PlayBlock(b))
  {
    HonoursStep(b, h);
    PlayBlockKeeps(b);
  }

  lemma TwoBlocks(b: Ring, h: Hold)
    requires 0 < b.blksz < b.len < SIZE_MAX1 && b.len == b.blksz + b.blksz && b.start == 0 && b.used == b.blksz
    requires h == Held(b.blksz, b.blksz, 0)
    ensures PlayReady(b) && Honours(b, h) && h.at == End(b) && Underruns(b)
  {
    assert Whole(b.blksz, b.blksz);
  }

  /** One underrun during the copy, and the data lands where the ring no longer ends. */
  lemma ReservationLost() returns (b: Ring, h: Hold)
    ensures b == Ring(8, 4, 0, 4, 0, 0) && h == Held(4, 4, 0)
    ensures PlayReady(b) && Honours(b, h) && h.at == End(b)
    ensures PlayReady(PlayBlock(b)) && Honours(PlayBlock(b), Slip(b, h)) && h.at != End(PlayBlock(b))
  {
    b, h := Ring(8, 4, 0, 4, 0, 0), Held(4, 4, 0);
    TwoBlocks(b, h);
    SlipMoves(b, h);
  }

  /** What the reader was given is still there to be discarded, and the start has moved by a block per overrun. */
  ghost predicate RecHonours(b: Ring, h: Hold) {
    h.Held? ==>
      && h.at + h.count <= b.len && h.at < b.len && h.count <= b.used
      && b.start == AdvanceBy(b, h.at, h.slips)
  }

  function RecSlip(b: Ring, h: Hold): Hold {
    if h.Held? && Overruns(b) then h.(slips := h.slips + 1) else h
  }

  lemma RecHonoursStep(b: Ring, h: Hold)
    requires Frame(b) && RecHonours(b, h)
    ensures Frame(RecBlock(b)) && RecHonours(RecBlock(b), RecSlip(b, h))
  {
    RecBlockMoves(b);
    if h.Held? {
      AdvanceSame(b, RecBlock(b), h.at, h.slips);
    }
  }

  /** What was copied out is what is discarded: the exact condition. */
  lemma ReadCurrentIff(b: Ring, h: Hold)
    requires Frame(b) && RecHonours(b, h) && h.Held?
    ensures Nblk(b) > 0 && (h.at == b.start <==> Rem(h.slips, Nblk(b)) == 0)
  {
    BlocksFit(b, 0);
    AdvanceReturnsIff(b, h.at, h.slips);
  }

  /** One overrun during the copy, and blocks never copied are discarded; the readable piece has shrunk, too. */
  lemma ReadLost()
    ensures var b, h := Ring(12, 4, 4, 8, 0, 0), Held(4, 8, 0);
      && RecReady(b) && RecHonours(b, h) && ReadBlock(b) == (h.at, h.count)
      && RecHonours(RecBlock(b), RecSlip(b, h)) && ReadBlock(RecBlock(b)) == (8, 4)
  {
    assert Whole(0, 4) && Whole(4, 4) && Whole(8, 4) && Whole(12, 4);
    RecHonoursStep(Ring(12, 4, 4, 8, 0, 0), Held(4, 8, 0));
  }
}
