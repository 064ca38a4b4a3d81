/** Routing of high-error blocks through the second encoder (ProcessWithGPU of BlockDataGPU.cpp): the
    worst blocks are selected, laid out as tiles of one square image, encoded, and their words are
    replaced. The second encoder is a parameter: a word for every upright 4 x 4 tile, tile by tile in
    row-major order. */
module GpuRouting {
  import opened Pixels
  import opened Parts
  import opened BlockDecoder
  import opened BlockWalk

  /** What std::sort with cmp leaves behind: the same entries, by falling error. */
  ghost predicate SortsByError(pipe: seq<PixBlock>, sorted: seq<PixBlock>) {
    && multiset(sorted) == multiset(pipe)
    && forall i, j :: 0 <= i < j < |sorted| ==> sorted[i].error >= sorted[j].error
  }

  /** The whole part of the square root. */
  function Root(n: nat): (a: nat)
    ensures a * a <= n < (a + 1) * (a + 1)
  {
    if n == 0 then 0
    else
      var a := Root(n - 1);
      if (a + 1) * (a + 1) <= n then NextSquare(a, n); a + 1 else a
  }

  lemma NextSquare(a: nat, n: nat)
    requires n <= (a + 1) * (a + 1)
    ensures n < (a + 2) * (a + 2)
  {
    assert (a + 2) * (a + 2) == (a + 1) * (a + 1) + 2 * a + 3;
  }

  /** Tiles a side of the image for limit blocks. */
  function Side(limit: nat): (n: nat)
    ensures n >= 1
  {
    Root(limit) + 1
  }

  /** The image has room for all selected blocks and one more, and no smaller one has. */
  lemma SideHoldsAll(limit: nat)
    ensures BlockCount(Side(limit) - 1, Side(limit) - 1) <= limit < BlockCount(Side(limit), Side(limit))
  {
    LinesIsProduct(Side(limit), Side(limit));
    LinesIsProduct(Side(limit) - 1, Side(limit) - 1);
  }

  // ---------- tiles ----------

  /** Tile k of an image n tiles wide, row by row from the top. */
  function TileOf(img: seq<Rgb>, n: nat, k: nat): (tile: seq<Rgb>)
    requires 1 <= n && |img| == PixelCount(n, n) && k < BlockCount(n, n)
    ensures |tile| == 16
  {
    TileInImage(n, n, k);
    TileInside(TileStart(n, k), 4 * n, |img|);
    seq(16, q requires 0 <= q < 16 => img[At(TileStart(n, k), 4 * n, q % 4, q / 4)])
  }

  /** A block of the encoder's buffer, row by row from the top. */
  function UprightOf(b: Block): (tile: seq<Rgb>)
    ensures |tile| == 16
  {
    seq(16, q requires 0 <= q < 16 => ColorOf(b[4 * (q % 4) + q / 4]))
  }

  /** The pixels of a tile that holds the rows of a pipe entry, which come bottom row first. */
  ghost predicate HoldsEntry(img: seq<Rgb>, n: nat, k: nat, bgr: seq<Rgb>)
    requires 1 <= n && |bgr| == 16
  {
    forall x, r :: 0 <= x < 4 && 0 <= r < 4 && At(TileStart(n, k), 4 * n, x, r) < |img| ==>
      img[At(TileStart(n, k), 4 * n, x, r)] == bgr[4 * (3 - r) + x]
  }

  lemma FlippedTwice(x: nat, y: nat)
    requires x < 4 && y < 4
    ensures FlippedFrom(4 * y + x) == 4 * x + (3 - y)
  {
  }

  /** Packing, flipping and laying out give back the upright block. */
  lemma EntryIsUpright(img: seq<Rgb>, n: nat, k: nat, b: Block)
    requires 1 <= n && |img| == PixelCount(n, n) && k < BlockCount(n, n)
    requires HoldsEntry(img, n, k, BottomUp(b))
    ensures TileOf(img, n, k) == UprightOf(b)
  {
    hide TileStart, At, PixelCount, BlockCount, FlippedFrom, TileFits;
    TileInImage(n, n, k);
    TileInside(TileStart(n, k), 4 * n, |img|);
    forall q | 0 <= q < 16 ensures TileOf(img, n, k)[q] == UprightOf(b)[q] {
      FlippedTwice(q % 4, 3 - q / 4);
      assert img[At(TileStart(n, k), 4 * n, q % 4, q / 4)] == BottomUp(b)[4 * (3 - q / 4) + q % 4];
    }
  }

  /** One block copied into its tile: y0 and x0 are the running offsets of the tile. */
  method StoreTile(bgr: seq<Rgb>, img: array<Rgb>, y0: nat, x0: nat, n: nat, ghost k: nat)
    requires |bgr| == 16 && 1 <= n && img.Length == PixelCount(n, n) && k < BlockCount(n, n)
    requires y0 == 4 * WalkTo(n, k).y && x0 == 4 * WalkTo(n, k).x
    modifies img
    ensures HoldsEntry(img[..], n, k, bgr)
    ensures forall m :: 0 <= m < img.Length && !InTile(TileStart(n, k), 4 * n, m) ==> img[m] == old(img[m])
  {
    hide TileStart, At, PixelCount, BlockCount, TileFits, WalkTo, Lines;
    TileInImage(n, n, k);
    TileInside(TileStart(n, k), 4 * n, img.Length);
    for y := 0 to 4
      invariant forall x, r :: 0 <= x < 4 && 4 - y <= r < 4 ==>
                img[At(TileStart(n, k), 4 * n, x, r)] == bgr[4 * (3 - r) + x]
      invariant forall m :: 0 <= m < img.Length && !InTile(TileStart(n, k), 4 * n, m) ==> img[m] == old(img[m])
    {
      for x := 0 to 4
        invariant forall x2, r :: 0 <= x2 < 4 && 0 <= r < 4 && (r > 3 - y || (r == 3 - y && x2 < x)) ==>
                    img[At(TileStart(n, k), 4 * n, x2, r)] == bgr[4 * (3 - r) + x2]
        invariant forall m :: 0 <= m < img.Length && !InTile(TileStart(n, k), 4 * n, m) ==> img[m] == old(img[m])
      {
        TileAddress(n, k, x, 3 - y);
        LinesIsProduct(4 * n, y0 + (3 - y));
        TileApart(TileStart(n, k), 4 * n, x, 3 - y);
        var offset := (y0 + (3 - y)) * (4 * n) + (x0 + x);
        assert offset == At(TileStart(n, k), 4 * n, x, 3 - y);
        img[offset] := bgr[4 * y + x];
      }
    }
  }

  lemma OtherEntryKept(was: seq<Rgb>, now: seq<Rgb>, n: nat, k: nat, k2: nat, bgr: seq<Rgb>)
    requires 1 <= n && |bgr| == 16 && k != k2 && |was| == |now| && HoldsEntry(was, n, k, bgr)
    requires forall m :: 0 <= m < |now| && !InTile(TileStart(n, k2), 4 * n, m) ==> now[m] == was[m]
    ensures HoldsEntry(now, n, k, bgr)
  {
    hide TileStart, At, InTile;
    forall x, r | 0 <= x < 4 && 0 <= r < 4 && At(TileStart(n, k), 4 * n, x, r) < |now|
      ensures now[At(TileStart(n, k), 4 * n, x, r)] == bgr[4 * (3 - r) + x]
    {
      TilesDisjoint(n, k, k2, x, r);
    }
  }

  ghost predicate AreEntries(buf: seq<PixBlock>) {
    forall i :: 0 <= i < |buf| ==> |buf[i].bgr| == 16
  }

  /** The layout loop with its running offsets. */
  method LayOut(buf: seq<PixBlock>) returns (img: array<Rgb>)
    requires AreEntries(buf)
    ensures fresh(img) && img.Length == PixelCount(Side(|buf|), Side(|buf|))
    ensures forall i :: 0 <= i < |buf| ==> HoldsEntry(img[..], Side(|buf|), i, buf[i].bgr)
  {
    hide HoldsEntry, PixelCount, BlockCount, WalkTo, TileStart, InTile, Side;
    var n := Side(|buf|);
    SideHoldsAll(|buf|);
    img := new Rgb[PixelCount(n, n)](_ => Rgb(0, 0, 0));
    var imageOffsetX, imageOffsetY := 0, 0;
    FirstTile(n);
    for i := 0 to |buf|
      invariant imageOffsetY == 4 * WalkTo(n, i).y && imageOffsetX == 4 * WalkTo(n, i).x
      invariant forall k :: 0 <= k < i ==> HoldsEntry(img[..], n, k, buf[k].bgr)
    {
      ghost var was := img[..];
      StoreTile(buf[i].bgr, img, imageOffsetY, imageOffsetX, n, i);
      forall k | 0 <= k < i ensures HoldsEntry(img[..], n, k, buf[k].bgr) {
        OtherEntryKept(was, img[..], n, k, i, buf[k].bgr);
      }
      NextTile(n, i);
      imageOffsetX := imageOffsetX + 4;
      if imageOffsetX >= 4 * n {
        imageOffsetY := imageOffsetY + 4;
        imageOffsetX := 0;
      }
    }
  }

  lemma FirstTile(n: nat)
    requires 1 <= n
    ensures WalkTo(n, 0) == Coords(0, 0)
  {
  }

  lemma NextTile(n: nat, i: nat)
    requires 1 <= n
    ensures var c := WalkTo(n, i); WalkTo(n, i + 1) == if c.x + 1 >= n then Coords(c.y + 1, 0) else Coords(c.y, c.x + 1)
  {
  }

  // ---------- the second encoder and the way back ----------

  /** The download of the second encoder: a word for every tile, in order. */
  function Download(gpu: seq<Rgb> -> bv64, img: seq<Rgb>, n: nat): (words: seq<bv64>)
    requires 1 <= n && |img| == PixelCount(n, n)
    ensures |words| == BlockCount(n, n)
  {
    seq(BlockCount(n, n), k requires 0 <= k < BlockCount(n, n) => gpu(TileOf(img, n, k)))
  }

  /** The entries selected: the first limit, after sorting unless the quality is at its best. */
  ghost predicate Selects(pipe: seq<PixBlock>, sorted: seq<PixBlock>, best: bool, limit: nat, buf: seq<PixBlock>) {
    && limit <= |pipe|
    && (if best then sorted == pipe else SortsByError(pipe, sorted))
    && |sorted| == |pipe| && buf == sorted[..limit]
  }

  /** The addresses of the entries are those of different words of dst. */
  ghost predicate Addresses(pipe: seq<PixBlock>, len: nat) {
    && (forall i :: 0 <= i < |pipe| ==> pipe[i].address < len)
    && forall i, j :: 0 <= i < j < |pipe| ==> pipe[i].address != pipe[j].address
  }

  lemma {:induction false} TwoPlaces(s: seq<PixBlock>, e: PixBlock) returns (i: nat, j: nat)
    requires multiset(s)[e] >= 2
    ensures i < j < |s| && s[i] == e && s[j] == e
  {
    var n := |s| - 1;
    assert s == s[..n] + [s[n]];
    if s[n] == e {
      assert multiset(s[..n])[e] >= 1;
      assert e in s[..n];
      i :| 0 <= i < n && s[i] == e;
      j := n;
    } else {
      i, j := TwoPlaces(s[..n], e);
    }
  }

  lemma CountTwo(s: seq<PixBlock>, i: nat, j: nat)
    requires i < j < |s| && s[i] == s[j]
    ensures multiset(s)[s[i]] >= 2
  {
    assert s == s[..i] + [s[i]] + s[i + 1..j] + [s[j]] + s[j + 1..];
  }

  /** Sorting leaves the addresses different. */
  lemma SortKeepsAddresses(pipe: seq<PixBlock>, sorted: seq<PixBlock>, len: nat)
    requires Addresses(pipe, len) && multiset(sorted) == multiset(pipe)
    ensures Addresses(sorted, len)
  {
    forall i | 0 <= i < |sorted| ensures sorted[i].address < len && sorted[i] in pipe {
      assert sorted[i] in multiset(sorted);
    }
    forall i, j | 0 <= i < j < |sorted| ensures sorted[i].address != sorted[j].address {
      if sorted[i] == sorted[j] {
        CountTwo(sorted, i, j);
        var a, b := TwoPlaces(pipe, sorted[i]);
        assert false;
      } else {
        assert sorted[i] in pipe && sorted[j] in pipe;
        var a :| 0 <= a < |pipe| && pipe[a] == sorted[i];
        var b :| 0 <= b < |pipe| && pipe[b] == sorted[j];
      }
    }
  }

  /** The write-back loop: every selected address gets the word of its own tile, every other word
      stays. */
  method WriteBack(buf: seq<PixBlock>, result: seq<bv64>, dst: array<bv64>)
    requires |buf| <= |result| && Addresses(buf, dst.Length)
    modifies dst
    ensures forall i :: 0 <= i < |buf| ==> dst[buf[i].address] == result[i]
    ensures forall a :: 0 <= a < dst.Length && (forall i :: 0 <= i < |buf| ==> buf[i].address != a) ==>
              dst[a] == old(dst[a])
  {
    for i := 0 to |buf|
      invariant forall k :: 0 <= k < i ==> dst[buf[k].address] == result[k]
      invariant forall a :: 0 <= a < dst.Length && (forall k :: 0 <= k < i ==> buf[k].address != a) ==>
                dst[a] == old(dst[a])
    {
      dst[buf[i].address] := result[i];
    }
  }

  /** ProcessWithGPU on a pipe that has been sorted unless the quality is best; block(e) is the block
      an entry was made from. Each selected word is replaced by what the second encoder makes of its
      own upright block, no other word changes, and no entry left out has a larger error than one
      selected. */
  method ProcessWithGpu(ghost pipe: seq<PixBlock>, sorted: seq<PixBlock>, best: bool, limit: nat,
                        gpu: seq<Rgb> -> bv64, dst: array<bv64>, ghost block: PixBlock -> Block)
    returns (ghost buf: seq<PixBlock>)
    requires |sorted| == |pipe| && (if best then sorted == pipe else SortsByError(pipe, sorted)) && limit <= |pipe|
    requires Addresses(pipe, dst.Length)
    requires forall e :: e in pipe ==> e.bgr == BottomUp(block(e))
    modifies dst
    ensures Selects(pipe, sorted, best, limit, buf) && Addresses(buf, dst.Length)
    ensures forall i :: 0 <= i < |buf| ==> dst[buf[i].address] == gpu(UprightOf(block(buf[i])))
    ensures forall a :: 0 <= a < dst.Length && (forall i :: 0 <= i < |buf| ==> buf[i].address != a) ==>
              dst[a] == old(dst[a])
    ensures !best ==> forall i, j :: 0 <= i < limit <= j < |sorted| ==> sorted[i].error >= sorted[j].error
  {
    hide HoldsEntry, PixelCount, BlockCount, Side, TileOf, UprightOf, BottomUp;
    SortKeepsAddresses(pipe, sorted, dst.Length);
    var selected := sorted[..limit];
    buf := selected;
    var n := Side(limit);
    SideHoldsAll(limit);
    forall i | 0 <= i < limit ensures selected[i] in sorted && selected[i].bgr == BottomUp(block(selected[i])) {
      assert selected[i] == sorted[i];
      assert sorted[i] in multiset(sorted);
    }
    var img := LayOut(selected);
    var result := Download(gpu, img[..], n);
    forall i | 0 <= i < limit ensures result[i] == gpu(UprightOf(block(selected[i]))) {
      assert HoldsEntry(img[..], n, i, BottomUp(block(selected[i])));
      EntryIsUpright(img[..], n, i, block(selected[i]));
    }
    WriteBack(selected, result, dst);
  }

  /** The pipe a strip pass delivers has what the routing needs: different addresses, and the rows of
      the block at its address. */
  lemma {:induction false} PipeIsRoutable(img: seq<Pixel>, n: nat, rows: nat, enc: Block -> Encoded, count: nat)
    requires 1 <= n && |img| == PixelCount(n, rows) && count <= BlockCount(n, rows)
    ensures var pipe := PipeOf(img, n, rows, enc, 0, count);
            && Addresses(pipe, BlockCount(n, rows))
            && (forall i :: 0 <= i < |pipe| ==> pipe[i].address < count)
            && (forall e :: e in pipe ==>
                      e.address < BlockCount(n, rows) && e.bgr == BottomUp(BlockOf(img, n, rows, e.address)))
  {
    hide PixelCount, BlockCount, BlockOf, BottomUp;
    if count > 0 {
      PipeIsRoutable(img, n, rows, enc, count - 1);
    }
  }
}
