/**
 * Concatenation of chunks (dev/softraid_concat.c). For every request the volume address is
 * looked up by scanning the chunks; the scan's guard lets the address just past the volume
 * through, and the model says exactly when that happens. Sizes and addresses are in bytes.
 */
module Concat {
  import opened Bytes
  import opened Softraid

  /** The bytes in the first `n` chunks; `sr_concat_create` sets the volume size to all of them. */
  function Before(sizes: seq<nat>, n: nat): nat
    requires n <= |sizes|
  {
    if n == 0 then 0 else Before(sizes, n - 1) + sizes[n - 1]
  }

  lemma {:induction false} BeforeMonotone(sizes: seq<nat>, m: nat, n: nat)
    requires m <= n <= |sizes|
    ensures Before(sizes, m) <= Before(sizes, n)
  {
    if m < n {
      BeforeMonotone(sizes, m, n - 1);
    }
  }

  function Size(sizes: seq<nat>): nat {
    Before(sizes, |sizes|)
  }

  /** Volume byte `b` is byte `l.offset` of chunk `l.chunk`. */
  predicate Maps(sizes: seq<nat>, b: nat, l: Loc) {
    l.chunk < |sizes| && l.offset < sizes[l.chunk] && b == Before(sizes, l.chunk) + l.offset
  }

  /** A byte has one place. */
  lemma MapsUnique(sizes: seq<nat>, b: nat, l: Loc, l': Loc)
    requires Maps(sizes, b, l) && Maps(sizes, b, l')
    ensures l == l'
  {
    if l.chunk < l'.chunk {
      BeforeMonotone(sizes, l.chunk + 1, l'.chunk);
    } else if l'.chunk < l.chunk {
      BeforeMonotone(sizes, l'.chunk + 1, l.chunk);
    }
  }

  /** Exactly the bytes inside the volume have a place, and every place on a chunk is taken by one. */
  lemma {:induction false} MapsTotal(sizes: seq<nat>, b: nat, n: nat) returns (l: Loc)
    requires n <= |sizes| && b < Before(sizes, n)
    ensures Maps(sizes, b, l)
  {
    if b < Before(sizes, n - 1) {
      l := MapsTotal(sizes, b, n - 1);
    } else {
      l := Loc(n - 1, b - Before(sizes, n - 1));
    }
  }

  lemma MapsInside(sizes: seq<nat>, b: nat, l: Loc)
    requires Maps(sizes, b, l)
    ensures b < Size(sizes)
  {
    BeforeMonotone(sizes, l.chunk + 1, |sizes|);
  }

  /** `sr_concat_create` */
  method Create(sizes: seq<nat>) returns (r: Option<nat>)
    ensures r == if |sizes| < 2 then None else Some(Size(sizes))
  {
    if |sizes| < 2 {
      return None;
    }
    var size := 0;
    for i := 0 to |sizes|
      invariant size == Before(sizes, i)
    {
      size := size + sizes[i];
    }
    return Some(size);
  }

  /** The inner loop: the first chunk that ends after the address. */
  method Scan(sizes: seq<nat>, lba: nat) returns (chunk: nat, chunkend: nat, offset: nat)
    ensures chunk <= |sizes|
    ensures lba < Size(sizes) <==> chunk < |sizes|
    ensures chunk < |sizes| ==> Maps(sizes, lba, Loc(chunk, offset)) && chunkend == Before(sizes, chunk + 1)
    ensures chunk == |sizes| ==> chunkend == Size(sizes) <= lba
  {
    chunkend, offset, chunk := 0, lba, 0;
    while chunk < |sizes|
      invariant chunk <= |sizes| && chunkend == Before(sizes, chunk) <= lba
      invariant offset == lba - chunkend
    {
      chunkend := chunkend + sizes[chunk];
      if lba < chunkend {
        BeforeMonotone(sizes, chunk + 1, |sizes|);
        return;
      }
      offset := offset - sizes[chunk];
      chunk := chunk + 1;
    }
  }

  predicate ByteMapped(sizes: seq<nat>, lba: nat, p: Piece, b: nat)
    requires b >= lba + p.data
  {
    Maps(sizes, b, Loc(p.chunk, p.offset + (b - lba - p.data)))
  }

  /** Every byte of the piece sits where the map puts it. */
  ghost predicate Mapped(sizes: seq<nat>, lba: nat, p: Piece) {
    p.length > 0
    && forall b :: lba + p.data <= b < lba + p.data + p.length ==> ByteMapped(sizes, lba, p, b)
  }

  lemma PieceMapped(sizes: seq<nat>, lba: nat, p: Piece)
    requires Maps(sizes, lba + p.data, Loc(p.chunk, p.offset))
    requires 0 < p.length <= sizes[p.chunk] - p.offset
    ensures Mapped(sizes, lba, p)
  {
  }

  /** The pieces follow one another, make up the first `total` bytes, and are all mapped right. */
  ghost predicate Tiles(sizes: seq<nat>, lba: nat, ps: seq<Piece>, total: nat) {
    if ps == [] then total == 0
    else
      var p := ps[|ps| - 1];
      Mapped(sizes, lba, p) && p.data + p.length == total && Tiles(sizes, lba, ps[..|ps| - 1], p.data)
  }

  lemma TilesMore(sizes: seq<nat>, lba: nat, ps: seq<Piece>, p: Piece)
    requires Tiles(sizes, lba, ps, p.data) && Mapped(sizes, lba, p)
    ensures Tiles(sizes, lba, ps + [p], p.data + p.length)
  {
    assert (ps + [p])[..|ps|] == ps;
  }

  /** Each byte of the request lies in a piece, at its place. */
  lemma {:induction false} TilesCover(sizes: seq<nat>, lba: nat, ps: seq<Piece>, total: nat, k: nat) returns (i: nat)
    requires Tiles(sizes, lba, ps, total) && k < total
    ensures i < |ps| && ps[i].data <= k < ps[i].data + ps[i].length
    ensures Maps(sizes, lba + k, Loc(ps[i].chunk, ps[i].offset + (k - ps[i].data)))
    decreases |ps|
  {
    i := |ps| - 1;
    assert k >= ps[i].data ==> ByteMapped(sizes, lba, ps[i], lba + k);
    if k < ps[i].data {
      i := TilesCover(sizes, lba, ps[..i], ps[i].data, k);
    }
  }

  /** No piece reaches past the end of its chunk. */
  lemma {:induction false} PiecesInside(sizes: seq<nat>, lba: nat, ps: seq<Piece>, total: nat, i: nat)
    requires Tiles(sizes, lba, ps, total) && i < |ps|
    ensures ps[i].chunk < |sizes| && ps[i].offset + ps[i].length <= sizes[ps[i].chunk]
    decreases |ps|
  {
    var p := ps[|ps| - 1];
    if i < |ps| - 1 {
      PiecesInside(sizes, lba, ps[..|ps| - 1], p.data, i);
    } else {
      var b := lba + p.data + p.length - 1;
      assert ByteMapped(sizes, lba, p, b);
    }
  }

  /** How a request ends; `NoSuchChunk` is the access to the chunk table one past its end. */
  datatype Outcome = Done | OutOfRange | Offline | NoSuchChunk

  predicate Holds(sizes: seq<nat>, c: nat, b: nat) {
    c < |sizes| && Before(sizes, c) <= b < Before(sizes, c + 1)
  }

  /** The chunks that hold a byte of the `n` bytes from `lba` on are online. */
  ghost predicate TouchedOnline(sizes: seq<nat>, lba: nat, n: nat, online: seq<bool>)
    requires |online| == |sizes|
  {
    forall c: nat, b: nat :: Holds(sizes, c, b) && lba <= b < lba + n ==> online[c]
  }

  lemma TouchedMore(sizes: seq<nat>, lba: nat, data: nat, leftover: nat, p: Piece, online: seq<bool>)
    requires |online| == |sizes| && TouchedOnline(sizes, lba, data, online)
    requires Longest(sizes, lba, data, leftover, p) && online[p.chunk]
    ensures TouchedOnline(sizes, lba, data + p.length, online)
  {
    forall c: nat, b: nat | Holds(sizes, c, b) && lba <= b < lba + (data + p.length) ensures online[c] {
      if b >= lba + data {
        MapsUnique(sizes, b, Loc(c, b - Before(sizes, c)), Loc(p.chunk, b - Before(sizes, p.chunk)));
      }
    }
  }

  /** Behind the volume there is nothing more to touch. */
  lemma TouchedAll(sizes: seq<nat>, lba: nat, data: nat, n: nat, online: seq<bool>)
    requires |online| == |sizes| && TouchedOnline(sizes, lba, data, online) && Size(sizes) <= lba + data
    ensures TouchedOnline(sizes, lba, n, online)
  {
    forall c: nat, b: nat | Holds(sizes, c, b) && lba <= b < lba + n ensures online[c] {
      BeforeMonotone(sizes, c + 1, |sizes|);
    }
  }

  /**
   * `sr_concat_rw` after validation. The pieces queued so far are right in every case. A request that
   * touches a chunk that is not online fails there; of the others, one inside the volume completes, one
   * that starts past the end is refused, and one that runs into the end goes on to a chunk that does not exist.
   */
  method Rw(sizes: seq<nat>, lba: nat, datalen: nat, online: seq<bool>)
    returns (out: Outcome, ps: seq<Piece>, ghost done: nat)
    requires datalen > 0 && |online| == |sizes|
    ensures Tiles(sizes, lba, ps, done)
    ensures out == Offline <==> !TouchedOnline(sizes, lba, datalen, online)
    ensures out != Offline ==>
      && (out == Done <==> lba + datalen <= Size(sizes))
      && (out == OutOfRange <==> lba > Size(sizes))
      && (out == NoSuchChunk <==> lba <= Size(sizes) < lba + datalen)
    ensures out == Done ==> done == datalen
    ensures datalen <= MAXPHYS ==> |ps| <= |sizes| && Rising(ps)
  {
    var lbaoffs: nat, leftover: nat, data: nat := lba, datalen, 0;
    ps := [];
    while true
      invariant data + leftover == datalen && leftover > 0 && lbaoffs == lba + data
      invariant Tiles(sizes, lba, ps, data) && TouchedOnline(sizes, lba, data, online)
      invariant data > 0 ==> lbaoffs <= Size(sizes)
      invariant datalen <= MAXPHYS ==> Increasing(sizes, ps, lbaoffs)
      decreases leftover
    {
      var p;
      out, p := NextPiece(sizes, lba, data, leftover, online);
      if out != Done {
        Stopped(sizes, lba, data, datalen, online, out);
        IncreasingCount(sizes, ps, lbaoffs, datalen);
        return out, ps, data;
      }
      TilesMore(sizes, lba, ps, p);
      TouchedMore(sizes, lba, data, leftover, p, online);
      if datalen <= MAXPHYS {
        IncreasingMore(sizes, ps, p, lbaoffs);
      }
      ps := ps + [p];
      leftover := leftover - p.length;
      if leftover == 0 {
        return Done, ps, datalen;
      }
      data := data + p.length;
      lbaoffs := lbaoffs + p.length;
    }
  }

  /** What made the loop stop short is decided by where it had got to. */
  lemma Stopped(sizes: seq<nat>, lba: nat, data: nat, datalen: nat, online: seq<bool>, out: Outcome)
    requires |online| == |sizes| && data < datalen && TouchedOnline(sizes, lba, data, online) && out != Done
    requires data > 0 ==> lba + data <= Size(sizes)
    requires out == OutOfRange <==> lba + data > Size(sizes)
    requires out == NoSuchChunk <==> lba + data == Size(sizes)
    requires out == Offline ==> exists c: nat :: Holds(sizes, c, lba + data) && !online[c]
    ensures out == Offline <==> !TouchedOnline(sizes, lba, datalen, online)
    ensures out != Offline ==> (out == OutOfRange <==> lba > Size(sizes)) && lba + datalen > Size(sizes)
  {
    if out != Offline {
      TouchedAll(sizes, lba, data, datalen, online);
    }
  }

  /** With all chunks online the outcome depends on where the request lies, and on nothing else. */
  method RwOnline(sizes: seq<nat>, lba: nat, datalen: nat) returns (out: Outcome, ps: seq<Piece>)
    requires datalen > 0
    ensures out == Done <==> lba + datalen <= Size(sizes)
    ensures out == NoSuchChunk <==> lba <= Size(sizes) < lba + datalen
    ensures out == OutOfRange <==> lba > Size(sizes)
    ensures out == Done ==> Tiles(sizes, lba, ps, datalen)
  {
    ghost var done;
    out, ps, done := Rw(sizes, lba, datalen, seq(|sizes|, _ => true));
  }

  /**
   * A request behind the range test, on a volume of `size` sectors. It may still run into the end of the volume,
   * or start behind it; one of whole sectors does so exactly when it ends one sector past the volume.
   */
  method RwAccepted(sizes: seq<nat>, size: nat, blkno: nat, datalen: nat) returns (out: Outcome, ps: seq<Piece>)
    requires Size(sizes) == size * DEV_BSIZE && Accepts(blkno, datalen, size)
    ensures out == Done <==> Inside(blkno, datalen, size)
    ensures out == NoSuchChunk <==> !Inside(blkno, datalen, size) && blkno <= size
    ensures out == OutOfRange <==> blkno == size + 1 && datalen < DEV_BSIZE
    ensures datalen % DEV_BSIZE == 0 ==> (out == NoSuchChunk <==> blkno + datalen / DEV_BSIZE == size + 1)
    ensures out == Done ==> Tiles(sizes, blkno * DEV_BSIZE, ps, datalen)
  {
    AcceptsIff(blkno, datalen, size);
    out, ps := RwOnline(sizes, blkno * DEV_BSIZE, datalen);
  }

  /** One turn of the loop, up to the transfer it queues. */
  method NextPiece(sizes: seq<nat>, lba: nat, data: nat, leftover: nat, online: seq<bool>)
    returns (out: Outcome, p: Piece)
    requires leftover > 0 && |online| == |sizes|
    ensures out == OutOfRange <==> lba + data > Size(sizes)
    ensures out == NoSuchChunk <==> lba + data == Size(sizes)
    ensures out == Offline ==> exists c: nat :: Holds(sizes, c, lba + data) && !online[c]
    ensures out == Done ==> Mapped(sizes, lba, p) && Longest(sizes, lba, data, leftover, p) && online[p.chunk]
  {
    var lbaoffs := lba + data;
    p := Piece(0, 0, 0, 0);
    var chunk, chunkend, offset := Scan(sizes, lbaoffs);
    if lbaoffs > chunkend {
      return OutOfRange, p;
    }
    var length := Min(Min(leftover, chunkend - lbaoffs), MAXPHYS);
    if chunk == |sizes| {
      return NoSuchChunk, p;
    }
    if !online[chunk] {
      assert Holds(sizes, chunk, lba + data);
      return Offline, p;
    }
    p := Piece(chunk, offset, length, data);
    PieceMapped(sizes, lba, p);
    BeforeMonotone(sizes, chunk + 1, |sizes|);
    return Done, p;
  }

  /** The piece goes as far as request, chunk and MAXPHYS allow. */
  predicate Longest(sizes: seq<nat>, lba: nat, data: nat, leftover: nat, p: Piece) {
    && p.data == data && p.length <= leftover && p.length <= MAXPHYS
    && Maps(sizes, lba + data, Loc(p.chunk, p.offset))
    && lba + data + p.length <= Before(sizes, p.chunk + 1) <= Size(sizes)
    && (p.length < leftover && p.length < MAXPHYS ==> lba + data + p.length == Before(sizes, p.chunk + 1))
  }

  /** Chunks go up from piece to piece, and the last one is used up. */
  ghost predicate Rising(ps: seq<Piece>) {
    |ps| > 1 ==> ps[|ps| - 2].chunk < ps[|ps| - 1].chunk && Rising(ps[..|ps| - 1])
  }

  ghost predicate Increasing(sizes: seq<nat>, ps: seq<Piece>, lba: nat) {
    Rising(ps)
    && (ps != [] ==>
          var c := ps[|ps| - 1].chunk;
          c < |sizes| && Before(sizes, c + 1) <= lba && |ps| <= c + 1)
  }

  lemma IncreasingCount(sizes: seq<nat>, ps: seq<Piece>, lba: nat, datalen: nat)
    requires datalen <= MAXPHYS ==> Increasing(sizes, ps, lba)
    ensures datalen <= MAXPHYS ==> |ps| <= |sizes| && Rising(ps)
  {
  }

  lemma IncreasingMore(sizes: seq<nat>, ps: seq<Piece>, p: Piece, lba: nat)
    requires Increasing(sizes, ps, lba) && Maps(sizes, lba, Loc(p.chunk, p.offset))
    ensures Rising(ps + [p]) && |ps| < p.chunk + 1
    ensures lba + p.length == Before(sizes, p.chunk + 1) ==> Increasing(sizes, ps + [p], lba + p.length)
  {
    assert (ps + [p])[..|ps|] == ps;
    if ps != [] {
      var c := ps[|ps| - 1].chunk;
      if p.chunk <= c {
        BeforeMonotone(sizes, p.chunk + 1, c + 1);
      }
    }
  }
}
