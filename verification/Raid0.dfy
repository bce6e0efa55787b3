/**
 * RAID 0 address mapping (dev/softraid_raid0.c, with the validation helpers of
 * dev/softraid.c). The request loop moves chunk and offset along incrementally; it is shown
 * to agree, byte for byte, with the direct division of the volume into strips. Offsets are
 * mathematical integers. Shifts and masks by a power of two are written as `/` and `%`.
 */
module Raid0 {
  import opened Bytes
  import opened Division
  import opened Softraid

  /** Strip size and number of chunks. */
  datatype Geometry = Geometry(strip: nat, chunks: nat)

  predicate ValidGeometry(g: Geometry) {
    g.strip > 0 && g.chunks > 0
  }

  /** The direct mapping of a volume byte: strips go round the chunks. */
  function Map(g: Geometry, b: nat): (l: Loc)
    requires ValidGeometry(g)
    ensures l.chunk < g.chunks
  {
    var strip := Quot(b, g.strip);
    Loc(Rem(strip, g.chunks), Times(g.strip, Quot(strip, g.chunks)) + Rem(b, g.strip))
  }

  lemma MapIsDivMod(g: Geometry, b: nat)
    requires ValidGeometry(g)
    ensures Map(g, b).chunk == b / g.strip % g.chunks
    ensures Map(g, b).offset == g.strip * (b / g.strip / g.chunks) + b % g.strip
  {
    QuotRemIsDivMod(b, g.strip);
    QuotRemIsDivMod(Quot(b, g.strip), g.chunks);
    TimesIsProduct(g.strip, Quot(Quot(b, g.strip), g.chunks));
  }

  function Unmap(g: Geometry, l: Loc): nat
    requires ValidGeometry(g)
  {
    Times(g.strip, Times(g.chunks, Quot(l.offset, g.strip)) + l.chunk) + Rem(l.offset, g.strip)
  }

  /** Byte `b` is byte `r` of strip `q`, which lies in row `row` on chunk `chunk`. */
  ghost predicate At(g: Geometry, b: nat, q: nat, row: nat, chunk: nat, r: nat) {
    chunk < g.chunks && r < g.strip && q == Times(g.chunks, row) + chunk && b == Times(g.strip, q) + r
  }

  lemma FindAt(g: Geometry, b: nat)
    requires ValidGeometry(g)
    ensures var q := Quot(b, g.strip);
      At(g, b, q, Quot(q, g.chunks), Rem(q, g.chunks), Rem(b, g.strip))
  {
    QuotRem(b, g.strip);
    QuotRem(Quot(b, g.strip), g.chunks);
  }

  lemma MapAt(g: Geometry, b: nat, q: nat, row: nat, chunk: nat, r: nat)
    requires ValidGeometry(g) && At(g, b, q, row, chunk, r)
    ensures Map(g, b) == Loc(chunk, Times(g.strip, row) + r)
    ensures Quot(b, g.strip) == q && Rem(q, g.chunks) == chunk
  {
    QuotRemUnique(b, g.strip, q, r);
    QuotRemUnique(q, g.chunks, row, chunk);
  }

  /** The map is a bijection between volume bytes and bytes of chunks. */
  lemma MapBijective(g: Geometry, b: nat, l: Loc)
    requires ValidGeometry(g) && l.chunk < g.chunks
    ensures Unmap(g, Map(g, b)) == b
    ensures Map(g, Unmap(g, l)) == l
  {
    FindAt(g, b);
    QuotRemUnique(Map(g, b).offset, g.strip, Quot(Quot(b, g.strip), g.chunks), Rem(b, g.strip));
    var row, r := Quot(l.offset, g.strip), Rem(l.offset, g.strip);
    QuotRem(l.offset, g.strip);
    MapAt(g, Unmap(g, l), Times(g.chunks, row) + l.chunk, row, l.chunk, r);
  }

  lemma AtNext(g: Geometry, b: nat, q: nat, row: nat, chunk: nat, r: nat)
    requires ValidGeometry(g) && At(g, b, q, row, chunk, r)
    ensures chunk + 1 < g.chunks ==> At(g, b + (g.strip - r), q + 1, row, chunk + 1, 0)
    ensures chunk + 1 == g.chunks ==> At(g, b + (g.strip - r), q + 1, row + 1, 0, 0)
    ensures Times(g.strip, row + 1) == Times(g.strip, row) + g.strip
  {
  }

  // ----- The request loop -----

  /** Every byte of the piece sits where the direct map puts it. */
  ghost predicate Mapped(g: Geometry, lba: nat, p: Piece)
    requires ValidGeometry(g)
  {
    p.length > 0
    && forall b :: lba + p.data <= b < lba + p.data + p.length ==>
         Map(g, b) == Loc(p.chunk, p.offset + (b - lba - p.data))
  }

  /** The pieces follow one another, make up the first `total` bytes, and are all mapped right. */
  ghost predicate Tiles(g: Geometry, lba: nat, ps: seq<Piece>, total: nat)
    requires ValidGeometry(g)
  {
    if ps == [] then total == 0
    else
      var p := ps[|ps| - 1];
      Mapped(g, lba, p) && p.data + p.length == total && Tiles(g, lba, ps[..|ps| - 1], p.data)
  }

  lemma TilesMore(g: Geometry, lba: nat, ps: seq<Piece>, p: Piece)
    requires ValidGeometry(g) && Tiles(g, lba, ps, p.data) && Mapped(g, lba, p)
    ensures Tiles(g, lba, ps + [p], p.data + p.length)
  {
    assert (ps + [p])[..|ps|] == ps;
  }

  /** Each byte of the request lies in a piece, at the place the direct map gives. */
  lemma {:induction false} TilesCover(g: Geometry, lba: nat, ps: seq<Piece>, total: nat, k: nat) returns (i: nat)
    requires ValidGeometry(g) && Tiles(g, lba, ps, total) && k < total
    ensures i < |ps| && ps[i].data <= k < ps[i].data + ps[i].length
    ensures Map(g, lba + k) == Loc(ps[i].chunk, ps[i].offset + (k - ps[i].data))
    decreases |ps|
  {
    i := |ps| - 1;
    if k < ps[i].data {
      i := TilesCover(g, lba, ps[..i], ps[i].data, k);
    }
  }

  lemma PieceMapped(g: Geometry, lba: nat, data: nat, q: nat, row: nat, chunk: nat, r: nat, length: nat)
    requires ValidGeometry(g) && At(g, lba + data, q, row, chunk, r) && 0 < length <= g.strip - r
    ensures Mapped(g, lba, Piece(chunk, Times(g.strip, row) + r, length, data))
  {
    forall b | lba + data <= b < lba + data + length
      ensures Map(g, b) == Loc(chunk, Times(g.strip, row) + r + (b - lba - data))
    {
      MapAt(g, b, q, row, chunk, r + (b - lba - data));
    }
  }

  lemma PieceTiles(g: Geometry, lba: nat, ps: seq<Piece>, data: nat, q: nat, row: nat, chunk: nat, r: nat, length: nat)
    requires ValidGeometry(g) && At(g, lba + data, q, row, chunk, r) && 0 < length <= g.strip - r
    requires Tiles(g, lba, ps, data)
    ensures Tiles(g, lba, ps + [Piece(chunk, Times(g.strip, row) + r, length, data)], data + length)
  {
    PieceMapped(g, lba, data, q, row, chunk, r, length);
    TilesMore(g, lba, ps, Piece(chunk, Times(g.strip, row) + r, length, data));
  }

  /** The chunks of strips `from` up to `to` are online. */
  predicate AllOnline(g: Geometry, online: seq<bool>, from: nat, to: nat)
    requires ValidGeometry(g) && |online| == g.chunks
  {
    from < to ==> AllOnline(g, online, from, to - 1) && online[Rem(to - 1, g.chunks)]
  }

  lemma {:induction false} OfflineSeen(g: Geometry, online: seq<bool>, from: nat, q: nat, to: nat)
    requires ValidGeometry(g) && |online| == g.chunks && from <= q < to
    requires !online[Rem(q, g.chunks)]
    ensures !AllOnline(g, online, from, to)
  {
    if q < to - 1 {
      OfflineSeen(g, online, from, q, to - 1);
    }
  }

  /** The strips a request touches. */
  function FirstStrip(g: Geometry, lba: nat): nat
    requires ValidGeometry(g)
  {
    Quot(lba, g.strip)
  }

  function LastStrip(g: Geometry, lba: nat, datalen: nat): nat
    requires ValidGeometry(g) && datalen > 0
  {
    Quot(lba + datalen - 1, g.strip)
  }

  /** The variables of the loop. */
  datatype Cursor = Cursor(chunk: nat, offset: nat, length: nat, leftover: nat, data: nat)

  /** The cursor is at strip `q`, in row `row`, `r` bytes into it, with a piece of it to transfer. */
  ghost predicate AtStrip(g: Geometry, lba: nat, datalen: nat, c: Cursor, q: nat, row: nat, r: nat) {
    && c.data + c.leftover == datalen && c.leftover > 0
    && At(g, lba + c.data, q, row, c.chunk, r) && c.offset == Times(g.strip, row) + r
    && c.length == Min(c.leftover, g.strip - r)
  }

  function StartCursor(g: Geometry, lba: nat, datalen: nat): Cursor
    requires ValidGeometry(g)
  {
    var stripNo, stripoffs := Quot(lba, g.strip), Rem(lba, g.strip);
    var chunkoffs := Times(g.strip, Quot(stripNo, g.chunks));
    Cursor(Rem(stripNo, g.chunks), chunkoffs + stripoffs, Min(datalen, g.strip - stripoffs), datalen, 0)
  }

  /** `sr_raid0_rw` after validation, on the byte address; `swu_io_count` is the number of pieces. */
  method Rw(g: Geometry, lba: nat, datalen: nat, online: seq<bool>)
    returns (ok: bool, ps: seq<Piece>, ghost done: nat)
    requires ValidGeometry(g) && datalen > 0 && |online| == g.chunks
    ensures ok <==> AllOnline(g, online, FirstStrip(g, lba), LastStrip(g, lba, datalen) + 1)
    ensures Tiles(g, lba, ps, done) && (ok ==> done == datalen)
    ensures ok ==> |ps| == LastStrip(g, lba, datalen) - FirstStrip(g, lba) + 1
  {
    var c, stripoffs := StartCursor(g, lba, datalen), Rem(lba, g.strip);
    ps := [];
    ghost var first := FirstStrip(g, lba);
    ghost var q: nat, row: nat, r: nat := first, Quot(first, g.chunks), stripoffs;
    FindAt(g, lba);
    while true
      invariant AtStrip(g, lba, datalen, c, q, row, r) && q == first + |ps|
      invariant r == if |ps| == 0 then stripoffs else 0
      invariant Tiles(g, lba, ps, c.data) && AllOnline(g, online, first, q)
      decreases c.leftover
    {
      StripOnline(g, lba, datalen, c, q, row, r, online);
      if !online[c.chunk] {
        return false, ps, c.data;
      }
      PieceTiles(g, lba, ps, c.data, q, row, c.chunk, r, c.length);
      ps := ps + [Piece(c.chunk, c.offset, c.length, c.data)];
      if c.leftover == c.length {
        return true, ps, datalen;
      }
      c, row := Advance(g, lba, datalen, c, stripoffs, |ps|, q, row, r);
      q, r := q + 1, 0;
    }
  }

  /** The incremental update at the end of the loop body: it lands on the next strip. */
  method Advance(g: Geometry, lba: nat, datalen: nat, c: Cursor, stripoffs: nat, count: nat,
                 ghost q: nat, ghost row: nat, ghost r: nat)
    returns (c': Cursor, ghost row': nat)
    requires ValidGeometry(g) && AtStrip(g, lba, datalen, c, q, row, r) && c.length < c.leftover
    requires r == if count == 1 then stripoffs else 0
    ensures AtStrip(g, lba, datalen, c', q + 1, row', 0) && c'.data == c.data + c.length
  {
    AtNext(g, lba + c.data, q, row, c.chunk, r);
    var leftover := c.leftover - c.length;
    var chunk, offset := c.chunk + 1, c.offset;
    row' := row;
    if chunk > g.chunks - 1 {
      chunk := 0;
      offset := offset + c.length;
      row' := row + 1;
    } else if count == 1 {
      offset := offset - stripoffs;
    }
    c' := Cursor(chunk, offset, Min(leftover, g.strip), leftover, c.data + c.length);
  }

  /** An offline chunk fails the request; otherwise one more strip, perhaps the last, is online. */
  lemma StripOnline(g: Geometry, lba: nat, datalen: nat, c: Cursor, q: nat, row: nat, r: nat, online: seq<bool>)
    requires ValidGeometry(g) && AtStrip(g, lba, datalen, c, q, row, r) && |online| == g.chunks
    requires FirstStrip(g, lba) <= q && AllOnline(g, online, FirstStrip(g, lba), q)
    ensures !online[c.chunk] ==> !AllOnline(g, online, FirstStrip(g, lba), LastStrip(g, lba, datalen) + 1)
    ensures online[c.chunk] ==> AllOnline(g, online, FirstStrip(g, lba), q + 1)
    ensures c.leftover == c.length ==> LastStrip(g, lba, datalen) == q
  {
    MapAt(g, lba + c.data, q, row, c.chunk, r);
    if !online[c.chunk] {
      QuotMonotone(lba + c.data, lba + datalen - 1, g.strip);
      OfflineSeen(g, online, FirstStrip(g, lba), q, LastStrip(g, lba, datalen) + 1);
    }
    if c.leftover == c.length {
      MapAt(g, lba + datalen - 1, q, row, c.chunk, r + c.length - 1);
    }
  }

  // ----- How many pieces -----

  lemma {:induction false} PowersDivide(a: nat, b: nat)
    ensures Pow2(a + b) == Times(Pow2(a), Pow2(b))
  {
    if b > 0 {
      PowersDivide(a, b - 1);
      TimesAdds(Pow2(a), Pow2(b - 1), Pow2(b - 1));
    } else {
      assert Times(Pow2(a), 1) == Times(Pow2(a), 0) + Pow2(a);
    }
  }

  lemma MaxPhysIsPower()
    ensures Pow2(16) == MAXPHYS
  {
    assert Pow2(4) == 16;
    assert Pow2(8) == 256;
    assert Pow2(12) == 4096;
  }

  function Count(g: Geometry, lba: nat, datalen: nat): int
    requires ValidGeometry(g) && datalen > 0
  {
    LastStrip(g, lba, datalen) - FirstStrip(g, lba) + 1
  }

  /** With strips of which `m` make up MAXPHYS, a request needs at most `m + 1` pieces. */
  lemma CountAtMost(g: Geometry, lba: nat, datalen: nat, m: nat)
    requires ValidGeometry(g) && 0 < datalen <= Times(g.strip, m)
    ensures Count(g, lba, datalen) <= m + 1
  {
    var q, r := Quot(lba, g.strip), Rem(lba, g.strip);
    QuotRem(lba, g.strip);
    TimesAdds(g.strip, q + 1, m);
    var e := lba + datalen - 1;
    QuotRem(e, g.strip);
    Below(g.strip, Quot(e, g.strip), Rem(e, g.strip), q + 1 + m);
  }

  /** No request up to MAXPHYS takes more than MAXPHYS / strip + 1 pieces. */
  ghost predicate StripBound(g: Geometry)
    requires ValidGeometry(g)
  {
    forall lba: nat, datalen: nat ::
      0 < datalen <= MAXPHYS ==> Count(g, lba, datalen) <= Quot(MAXPHYS, g.strip) + 1
  }

  lemma SmallStrips(g: Geometry, bits: nat)
    requires ValidGeometry(g) && g.strip == Pow2(bits) && bits <= 16
    ensures g.strip <= MAXPHYS == Times(g.strip, Quot(MAXPHYS, g.strip))
  {
    MaxPhysIsPower();
    PowersDivide(bits, 16 - bits);
    var m := Pow2(16 - bits);
    QuotRemUnique(MAXPHYS, g.strip, m, 0);
    TimesAdds(g.strip, 1, m - 1);
    assert Times(g.strip, 1) == g.strip;
  }

  lemma LargeStrips(g: Geometry, bits: nat)
    requires ValidGeometry(g) && g.strip == Pow2(bits) && bits > 16
    ensures g.strip >= 2 * MAXPHYS && Quot(MAXPHYS, g.strip) == 0 && Count(g, g.strip - 1, 2) == 2
  {
    MaxPhysIsPower();
    PowersDivide(16, bits - 16);
    TimesAdds(MAXPHYS, 2, Pow2(bits - 16) - 2);
    assert Times(MAXPHYS, 2) == Times(MAXPHYS, 1) + MAXPHYS;
    assert Quot(g.strip - 1, g.strip) == 0 && Quot(g.strip, g.strip) == Quot(0, g.strip) + 1;
  }

  /** That bound holds exactly when a strip is no larger than MAXPHYS. */
  lemma StripBoundIff(g: Geometry, bits: nat)
    requires ValidGeometry(g) && g.strip == Pow2(bits)
    ensures StripBound(g) <==> g.strip <= MAXPHYS
  {
    if bits <= 16 {
      SmallStrips(g, bits);
      forall lba: nat, datalen: nat | 0 < datalen <= MAXPHYS
        ensures Count(g, lba, datalen) <= Quot(MAXPHYS, g.strip) + 1
      {
        CountAtMost(g, lba, datalen, Quot(MAXPHYS, g.strip));
      }
    } else {
      LargeStrips(g, bits);
    }
  }

  const SR_RAID0_NOWU: nat := 16

  /** `sd_max_ccb_per_wu` */
  function Reserve(g: Geometry): nat
    requires ValidGeometry(g)
  {
    (Quot(MAXPHYS, g.strip) + 1) * SR_RAID0_NOWU * g.chunks
  }

  /** The transfers reserved for a work unit cover every request up to MAXPHYS, for every strip size. */
  lemma ReserveSuffices(g: Geometry, bits: nat, lba: nat, datalen: nat)
    requires ValidGeometry(g) && g.strip == Pow2(bits) && g.chunks >= 2 && 0 < datalen <= MAXPHYS
    ensures Count(g, lba, datalen) <= Reserve(g)
  {
    var m := Quot(MAXPHYS, g.strip);
    if bits <= 16 {
      SmallStrips(g, bits);
      CountAtMost(g, lba, datalen, m);
    } else {
      LargeStrips(g, bits);
      assert Times(g.strip, 1) == g.strip;
      CountAtMost(g, lba, datalen, 1);
    }
    AtLeast(m + 1, g.chunks);
  }

  lemma AtLeast(a: nat, c: nat)
    requires a >= 1 && c >= 2
    ensures a * SR_RAID0_NOWU * c >= a + 1
  {
    assert a * SR_RAID0_NOWU * c == a * (16 * c);
    assert a * (16 * c) >= a * 32 by {
      assert a * (16 * c) - a * 32 == a * (16 * c - 32);
    }
  }

  // ----- The volume -----

  /** `sr_raid0_create`: the volume in sectors, of chunks of `coerced` sectors each. */
  function VolumeSize(coerced: nat, chunks: nat): Option<nat> {
    if chunks < 2 then None else Some(Times(coerced - coerced % (MAXPHYS / DEV_BSIZE), chunks))
  }

  /** Whole strips that fit on a chunk. */
  function ChunkStrips(coerced: nat): nat {
    coerced / (MAXPHYS / DEV_BSIZE)
  }

  /** The volume is exactly the bytes that map into the whole strips of the chunks. */
  lemma VolumeExact(coerced: nat, chunks: nat, b: nat)
    requires chunks >= 2
    ensures var g, size := Geometry(MAXPHYS, chunks), VolumeSize(coerced, chunks).value;
      && (b < size * DEV_BSIZE <==> Map(g, b).offset < ChunkStrips(coerced) * MAXPHYS)
      && ChunkStrips(coerced) * MAXPHYS <= coerced * DEV_BSIZE
  {
    var g, rows := Geometry(MAXPHYS, chunks), ChunkStrips(coerced);
    FindAt(g, b);
    var q := Quot(b, g.strip);
    Below(g.strip, q, Rem(b, g.strip), Times(chunks, rows));
    Below(chunks, Quot(q, chunks), Rem(q, chunks), rows);
    Below(g.strip, Quot(q, chunks), Rem(b, g.strip), rows);
    SizeInStrips(coerced, chunks);
    TimesIsProduct(MAXPHYS, rows);
  }

  lemma SizeInStrips(coerced: nat, chunks: nat)
    requires chunks >= 2
    ensures VolumeSize(coerced, chunks).value * DEV_BSIZE == Times(MAXPHYS, Times(chunks, ChunkStrips(coerced)))
  {
    var rows := ChunkStrips(coerced);
    assert coerced - coerced % 128 == 128 * rows;
    TimesIsProduct(128 * rows, chunks);
    TimesIsProduct(chunks, rows);
    TimesIsProduct(MAXPHYS, Times(chunks, rows));
    assert 128 * rows * chunks == 128 * (chunks * rows);
  }

  /** A request inside the volume stays, piece by piece, inside the strips of each chunk. */
  lemma {:induction false} PiecesInside(coerced: nat, chunks: nat, lba: nat, ps: seq<Piece>, total: nat)
    requires chunks >= 2 && Tiles(Geometry(MAXPHYS, chunks), lba, ps, total)
    requires lba + total <= VolumeSize(coerced, chunks).value * DEV_BSIZE
    ensures forall i :: 0 <= i < |ps| ==>
      ps[i].chunk < chunks && ps[i].offset + ps[i].length <= coerced * DEV_BSIZE
    decreases |ps|
  {
    if ps == [] {
    } else {
      var n := |ps| - 1;
      var p, g := ps[n], Geometry(MAXPHYS, chunks);
      PiecesInside(coerced, chunks, lba, ps[..n], p.data);
      var b := lba + p.data + p.length - 1;
      assert Map(g, b) == Loc(p.chunk, p.offset + (b - lba - p.data));
      VolumeExact(coerced, chunks, b);
      assert ps == ps[..n] + [p];
    }
  }

  /** The bytes that the range test lets through behind the volume fall on the first chunk, behind its strips. */
  lemma BehindVolume(coerced: nat, chunks: nat, k: nat)
    requires chunks >= 2 && k < MAXPHYS
    ensures Map(Geometry(MAXPHYS, chunks), VolumeSize(coerced, chunks).value * DEV_BSIZE + k)
      == Loc(0, ChunkStrips(coerced) * MAXPHYS + k)
  {
    var g, rows := Geometry(MAXPHYS, chunks), ChunkStrips(coerced);
    SizeInStrips(coerced, chunks);
    MapAt(g, Times(MAXPHYS, Times(chunks, rows)) + k, Times(chunks, rows), rows, 0, k);
    TimesIsProduct(MAXPHYS, rows);
  }

  /** An accepted request that ends one sector too far leaves its chunk exactly when the chunk is all strips. */
  lemma AcceptedLeavesChunkIff(coerced: nat, chunks: nat, blkno: nat, datalen: nat)
    requires chunks >= 2 && Accepts(blkno, datalen, VolumeSize(coerced, chunks).value)
    requires blkno + datalen / DEV_BSIZE == VolumeSize(coerced, chunks).value + 1 && datalen % DEV_BSIZE == 0
    ensures datalen >= DEV_BSIZE
    ensures var l := Map(Geometry(MAXPHYS, chunks), blkno * DEV_BSIZE + datalen - 1);
      l.offset >= coerced * DEV_BSIZE <==> coerced % (MAXPHYS / DEV_BSIZE) == 0
  {
    assert blkno * DEV_BSIZE + datalen - 1 == VolumeSize(coerced, chunks).value * DEV_BSIZE + 511;
    BehindVolume(coerced, chunks, 511);
  }
}
