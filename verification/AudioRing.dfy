/**
 * The DMA rings of the audio driver (dev/audio.c: `struct audio_buf` and the functions on it),
 * and what one interrupt does to a ring. Byte contents are not part of the model, positions are.
 */
module AudioRing {
  import opened Bytes
  import opened Division

  const SIZE_MAX1: nat := 0x1_0000_0000_0000_0000
  const UINT_MAX1: nat := 0x1_0000_0000

  datatype Ring = Ring(len: nat, blksz: nat, start: nat, used: nat, pos: nat, xrun: nat)

  /** `pos` and `xrun` are 32-bit counters. */
  function Wrap(n: nat): nat {
    n % UINT_MAX1
  }

  /** A ring of whole blocks. */
  ghost predicate Frame(b: Ring) {
    0 < b.blksz <= b.len < SIZE_MAX1 && Whole(b.len, b.blksz) && b.start < b.len
  }

  /** And no more used than there is. */
  ghost predicate Shape(b: Ring) {
    Frame(b) && b.used <= b.len
  }

  /** `audio_buf_rdiscard`; the subtraction is on `size_t`. */
  function Discard(b: Ring, count: nat): Ring {
    var used: int := if count <= b.used then b.used - count else b.used - count + SIZE_MAX1;
    var start: int := b.start + count;
    b.(used := if used < 0 then 0 else used, start := if start >= b.len then start - b.len else start)
  }

  /** `audio_buf_wcommit` */
  function Commit(b: Ring, count: nat): Ring {
    b.(used := b.used + count)
  }

  /** The write position. */
  function End(b: Ring): nat
    requires b.start < b.len && b.used <= b.len
  {
    if b.start + b.used >= b.len then b.start + b.used - b.len else b.start + b.used
  }

  /** `audio_buf_wgetblk`: where the writer may write, and how much in one piece. */
  function WriteBlock(b: Ring): (r: (nat, nat))
    requires b.start < b.len && b.used <= b.len
    ensures r.0 == End(b) < b.len && r.0 + r.1 <= b.len && r.1 <= b.len - b.used
    ensures r.1 == 0 <==> b.used == b.len
  {
    var avail, room := b.len - b.used, b.len - End(b);
    (End(b), if room > avail then avail else room)
  }

  /** `audio_buf_rgetblk` */
  function ReadBlock(b: Ring): (r: (nat, nat))
    requires b.start < b.len
    ensures r.0 == b.start && r.0 + r.1 <= b.len && r.1 <= b.used
    ensures r.1 == 0 <==> b.used == 0
  {
    var room := b.len - b.start;
    (b.start, if room > b.used then b.used else room)
  }

  // ----- Playing -----

  /** A ring that DMA plays from: at least one block ready, blocks starting on block boundaries. */
  ghost predicate PlayReady(b: Ring) {
    Shape(b) && Whole(b.start, b.blksz) && b.blksz <= b.used
  }

  predicate Underruns(b: Ring) {
    b.used < 2 * b.blksz
  }

  /** What `audio_pintr` does to the ring: one block is consumed, and made up for if none is left. */
  function PlayBlock(b: Ring): Ring {
    var c := Discard(b.(pos := Wrap(b.pos + b.blksz)), b.blksz);
    if c.used < c.blksz then Commit(c.(xrun := Wrap(c.xrun + c.blksz)), c.blksz) else c
  }

  /** The next block position. */
  function Advance(b: Ring, p: nat): nat {
    if p + b.blksz >= b.len then p + b.blksz - b.len else p + b.blksz
  }

  /** Everything one play interrupt does to the ring. */
  lemma PlayBlockKeeps(b: Ring)
    requires PlayReady(b)
    ensures var c := PlayBlock(b);
      && PlayReady(c) && c.len == b.len && c.blksz == b.blksz
      && c.start == Advance(b, b.start)
      && c.used == (if Underruns(b) then b.used else b.used - b.blksz)
      && End(c) == (if Underruns(b) then Advance(b, End(b)) else End(b))
      && c.pos == Wrap(b.pos + b.blksz)
      && c.xrun == (if Underruns(b) then Wrap(b.xrun + b.blksz) else b.xrun)
  {
    WholeGap(b.start, b.len, b.blksz);
  }

  /**
   * The interrupt leaves a sound ring exactly when a whole block was ready: with less, the
   * `size_t` subtraction wraps and `used` exceeds the ring.
   */
  lemma PlayNeedsBlock(b: Ring)
    requires Shape(b) && Whole(b.start, b.blksz) && b.len < SIZE_MAX1 / 2
    ensures PlayReady(PlayBlock(b)) <==> b.used >= b.blksz
  {
    WholeGap(b.start, b.len, b.blksz);
  }

  /** The empty ring that a start from `audio_read` leaves playing: `used` wraps past the ring. */
  lemma PlayUnderfed()
    ensures var b := Ring(8, 4, 0, 0, 0, 0); Shape(b) && PlayBlock(b).used > b.len
  {
    assert Whole(4, 4) && Whole(8, 4);
  }

  function PlayBlocks(b: Ring, n: nat): Ring {
    if n == 0 then b else PlayBlock(PlayBlocks(b, n - 1))
  }

  lemma {:induction false} PlayBlocksMove(b: Ring, n: nat)
    requires PlayReady(b) && n <= Quot(b.len, b.blksz)
    ensures var c := PlayBlocks(b, n);
      && PlayReady(c) && c.len == b.len && c.blksz == b.blksz
      && c.start == (if b.start + Times(b.blksz, n) >= b.len then b.start + Times(b.blksz, n) - b.len
                     else b.start + Times(b.blksz, n))
      && Times(b.blksz, n) <= b.len
  {
    BlocksFit(b, n);
    if n == 0 {
    } else {
      PlayBlocksMove(b, n - 1);
      PlayBlockKeeps(PlayBlocks(b, n - 1));
    }
  }

  lemma BlocksFit(b: Ring, n: nat)
    requires Frame(b) && n <= Quot(b.len, b.blksz)
    ensures Times(b.blksz, n) <= b.len
    ensures n == Quot(b.len, b.blksz) <==> Times(b.blksz, n) == b.len
    ensures 0 < Quot(b.len, b.blksz)
  {
    var q := Quot(b.len, b.blksz);
    QuotRem(b.len, b.blksz);
    WholeNoRem(b.len, b.blksz);
    TimesAdds(b.blksz, n, q - n);
    if n < q {
      TimesAdds(b.blksz, 1, q - n - 1);
    }
  }

  /** Playing as many blocks as the ring holds comes back to the same start. */
  lemma PlayAround(b: Ring)
    requires PlayReady(b)
    ensures PlayReady(PlayBlocks(b, Quot(b.len, b.blksz)))
    ensures PlayBlocks(b, Quot(b.len, b.blksz)).start == b.start
  {
    var n := Quot(b.len, b.blksz);
    PlayBlocksMove(b, n);
    BlocksFit(b, n);
  }

  // ----- Recording -----

  /** A ring that DMA records to, read in whole blocks: room for one more block. */
  ghost predicate RecReady(b: Ring) {
    Shape(b) && Whole(b.start, b.blksz) && Whole(b.used, b.blksz) && b.used < b.len
  }

  predicate Overruns(b: Ring) {
    b.used + b.blksz == b.len
  }

  /** What `audio_rintr` does to the ring: one block is added, and the oldest dropped when full. */
  function RecBlock(b: Ring): Ring {
    var c := Commit(b.(pos := Wrap(b.pos + b.blksz)), b.blksz);
    if c.used == c.len then Discard(c.(xrun := Wrap(c.xrun + c.blksz)), c.blksz) else c
  }

  /** Everything one record interrupt does to the ring, whatever readers have left in it. */
  lemma RecBlockMoves(b: Ring)
    requires Frame(b)
    ensures var c := RecBlock(b);
      && Frame(c) && c.len == b.len && c.blksz == b.blksz
      && c.used == (if Overruns(b) then b.used else b.used + b.blksz)
      && c.start == (if Overruns(b) then Advance(b, b.start) else b.start)
      && c.pos == Wrap(b.pos + b.blksz)
      && c.xrun == (if Overruns(b) then Wrap(b.xrun + b.blksz) else b.xrun)
  {
  }

  /** And to one that is read in whole blocks. */
  lemma RecBlockKeeps(b: Ring)
    requires RecReady(b)
    ensures RecReady(RecBlock(b)) && End(RecBlock(b)) == Advance(b, End(b))
  {
    RecBlockMoves(b);
    WholeGap(b.start, b.len, b.blksz);
    WholeGap(b.used, b.len, b.blksz);
  }

  lemma RecOverfills()
    ensures var b := Ring(8, 4, 0, 5, 0, 0); Shape(b) && RecBlock(b).used > b.len
  {
    assert Whole(4, 4) && Whole(8, 4);
  }

  function RecBlocks(b: Ring, n: nat): Ring {
    if n == 0 then b else RecBlock(RecBlocks(b, n - 1))
  }

  lemma {:induction false} RecBlocksFrame(b: Ring, n: nat)
    requires Frame(b)
    ensures var c := RecBlocks(b, n); Frame(c) && c.len == b.len && c.blksz == b.blksz
  {
    if n == 0 {
    } else {
      RecBlocksFrame(b, n - 1);
      RecBlockMoves(RecBlocks(b, n - 1));
    }
  }

  /** Whole blocks with room for one more. */
  predicate HasRoom(used: nat, len: nat, blksz: nat)
    requires blksz > 0
  {
    Whole(used, blksz) && used < len
  }

  lemma HasRoomOn(b: Ring)
    requires Frame(b)
    ensures HasRoom(b.used, b.len, b.blksz) ==> HasRoom(RecBlock(b).used, b.len, b.blksz)
    ensures !HasRoom(b.used, b.len, b.blksz) ==>
      && RecBlock(b).used == b.used + b.blksz
      && (RecBlock(b).used > b.len || !HasRoom(RecBlock(b).used, b.len, b.blksz))
  {
    RecBlockMoves(b);
    WholeSubtracts(b.len, b.blksz, b.blksz);
    if HasRoom(b.used, b.len, b.blksz) {
      WholeGap(b.used, b.len, b.blksz);
    }
  }

  lemma {:induction false} RecBlocksFit(b: Ring, n: nat)
    requires Frame(b) && HasRoom(b.used, b.len, b.blksz)
    ensures HasRoom(RecBlocks(b, n).used, b.len, b.blksz)
  {
    if n == 0 {
    } else {
      RecBlocksFit(b, n - 1);
      RecBlocksFrame(b, n - 1);
      HasRoomOn(RecBlocks(b, n - 1));
    }
  }

  lemma {:induction false} RecBlocksFirst(b: Ring, n: nat)
    ensures RecBlocks(RecBlock(b), n) == RecBlocks(b, n + 1)
  {
    if n == 0 {
    } else {
      RecBlocksFirst(b, n - 1);
    }
  }

  /** After so many interrupts the ring holds more than there is. */
  lemma {:induction false} RecSpills(b: Ring) returns (n: nat)
    requires Frame(b) && !HasRoom(b.used, b.len, b.blksz)
    ensures RecBlocks(b, n).used > b.len
    decreases if b.used > b.len then 0 else b.len - b.used + 1
  {
    if b.used > b.len {
      n := 0;
    } else {
      RecBlockMoves(b);
      HasRoomOn(b);
      if RecBlock(b).used > b.len {
        RecBlocksFirst(b, 0);
        n := 1;
      } else {
        n := RecSpills(RecBlock(b));
        RecBlocksFirst(b, n);
        n := n + 1;
      }
    }
  }

  /**
   * The test for a full ring is an equality: every number of interrupts leaves the ring within its size
   * if and only if it holds whole blocks, with room for one more.
   */
  lemma RecNeedsWholeBlocks(b: Ring)
    requires Frame(b)
    ensures (forall n: nat :: RecBlocks(b, n).used <= b.len) <==> Whole(b.used, b.blksz) && b.used < b.len
  {
    if HasRoom(b.used, b.len, b.blksz) {
      forall n: nat ensures RecBlocks(b, n).used <= b.len {
        RecBlocksFit(b, n);
      }
    } else {
      var n := RecSpills(b);
    }
  }

  lemma {:induction false} RecBlocksMove(b: Ring, n: nat)
    requires RecReady(b) && n <= Quot(b.len, b.blksz)
    ensures var c := RecBlocks(b, n);
      && RecReady(c) && c.len == b.len && c.blksz == b.blksz
      && End(c) == (if End(b) + Times(b.blksz, n) >= b.len then End(b) + Times(b.blksz, n) - b.len
                    else End(b) + Times(b.blksz, n))
  {
    BlocksFit(b, n);
    if n == 0 {
    } else {
      RecBlocksMove(b, n - 1);
      RecBlockMoves(RecBlocks(b, n - 1));
      RecBlockKeeps(RecBlocks(b, n - 1));
      BlocksFit(b, n - 1);
    }
  }

  /** Recording as many blocks as the ring holds comes back to the same write position. */
  lemma RecAround(b: Ring)
    requires RecReady(b)
    ensures RecReady(RecBlocks(b, Quot(b.len, b.blksz)))
    ensures End(RecBlocks(b, Quot(b.len, b.blksz))) == End(b)
  {
    var n := Quot(b.len, b.blksz);
    RecBlocksMove(b, n);
    BlocksFit(b, n);
  }
}
