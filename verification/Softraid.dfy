/** What the disciplines share (dev/softraid.c): transfers, and the checks on requests and strip sizes. */
module Softraid {
  import opened Bytes

  const DEV_BSIZE := 512
  const MAXPHYS := 65536

  /** A byte on a chunk. */
  datatype Loc = Loc(chunk: nat, offset: nat)

  /** A transfer handed to a chunk: where there, how much, and from which byte of the request. */
  datatype Piece = Piece(chunk: nat, offset: nat, length: nat, data: nat)

  // ----- Strip sizes -----

  function Pow2(k: nat): (p: nat)
    ensures p > 0
  {
    if k == 0 then 1 else 2 * Pow2(k - 1)
  }

  /** The exponent of a power of two, or -1. */
  function Exponent(b: nat): (s: int)
    ensures s >= -1
  {
    if b == 0 then -1
    else if b % 2 == 1 then (if b == 1 then 0 else -1)
    else Up(Exponent(b / 2))
  }

  function Up(s: int): int {
    if s < 0 then -1 else s + 1
  }

  lemma {:induction false} ExponentIsPower(b: nat)
    requires Exponent(b) >= 0
    ensures b == Pow2(Exponent(b))
  {
    if b % 2 == 0 {
      ExponentIsPower(b / 2);
    }
  }

  lemma ExponentOfDouble(p: nat)
    requires p > 0
    ensures Exponent(2 * p) == Up(Exponent(p))
  {
    var b := 2 * p;
    assert b % 2 == 0 && b / 2 == p;
  }

  lemma {:induction false} ExponentOfPower(k: nat)
    ensures Exponent(Pow2(k)) == k
  {
    if k == 0 {
    } else {
      ExponentOfPower(k - 1);
      ExponentOfDouble(Pow2(k - 1));
    }
  }

  /** `sr_validate_stripsize`; a size of zero would not end. */
  method ValidateStripSize(size: nat) returns (s: int)
    requires size > 0
    ensures s == if size % DEV_BSIZE == 0 then Exponent(size) else -1
  {
    if size % DEV_BSIZE != 0 {
      return -1;
    }
    var b: nat := size;
    s := 0;
    while b % 2 == 0
      invariant b > 0 && s >= 0
      invariant Exponent(size) == if Exponent(b) < 0 then -1 else Exponent(b) + s
      decreases b
    {
      b := b / 2;
      s := s + 1;
    }
    b := b / 2;
    if b != 0 {
      return -1;
    }
  }

  // ----- Requests -----

  /** `sr_validate_io`'s range test, on sectors */
  predicate Accepts(blkno: nat, datalen: nat, size: nat) {
    datalen > 0 && blkno + datalen / DEV_BSIZE - 1 <= size
  }

  predicate Inside(blkno: nat, datalen: nat, size: nat) {
    blkno * DEV_BSIZE + datalen <= size * DEV_BSIZE
  }

  /** The test accepts exactly the requests that end less than two sectors past the volume. */
  lemma AcceptsIff(blkno: nat, datalen: nat, size: nat)
    ensures Accepts(blkno, datalen, size) <==>
      datalen > 0 && blkno * DEV_BSIZE + datalen < (size + 2) * DEV_BSIZE
    ensures datalen > 0 && datalen % DEV_BSIZE == 0 ==>
      (Accepts(blkno, datalen, size) <==>
        Inside(blkno, datalen, size) || blkno + datalen / DEV_BSIZE == size + 1)
  {
  }

  lemma AcceptsTooMuch()
    ensures Accepts(1024, 512, 1024) && !Inside(1024, 512, 1024)
  {
  }
}
