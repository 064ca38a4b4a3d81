/** How the encoder walks over an image block by block, and how the decoder puts the blocks back
    (scalar CompressEtc2Rgb of ProcessRGB.cpp, DecodeRGB of BlockData.cpp). An image is n blocks
    wide, its pixels lie row by row. What the encoder makes of a block is a parameter. */
module BlockWalk {
  import opened Pixels
  import opened Parts
  import opened Decoder
  import opened BlockDecoder

  /** What encoding one block yields: the word, and whether and how badly it missed the block. */
  datatype Encoded = Encoded(word: bv64, highError: bool, error: nat)

  /** A block whose error was high, for the second encoder: where its word is, the error, and its
      pixels, row by row, the bottom row first. */
  datatype PixBlock = PixBlock(address: nat, error: nat, bgr: seq<Rgb>)

  /** Row and column of a block. */
  datatype Coords = Coords(y: nat, x: nat)

  /** Block k in walking order, n blocks a row. */
  function WalkTo(n: nat, k: nat): (c: Coords)
    requires 1 <= n
    ensures c.x < n && RowStart(0, n, c.y) + c.x == k
  {
    if k == 0 then Coords(0, 0)
    else
      var c := WalkTo(n, k - 1);
      if c.x + 1 == n then Coords(c.y + 1, 0) else Coords(c.y, c.x + 1)
  }

  lemma RowsGrow(n: nat, y: nat, y2: nat)
    requires y < y2
    ensures RowStart(0, n, y) + n <= RowStart(0, n, y2)
  {
    LinesGrow(n, y, y2);
  }

  /** Block k of the walk is block (k / n, k mod n) of the image. */
  lemma WalkIsDivMod(n: nat, k: nat)
    requires 1 <= n
    ensures WalkTo(n, k) == Coords(k / n, k % n)
  {
    hide WalkTo, Lines;
    var c := WalkTo(n, k);
    DivisionWithRest(k, n);
    LinesIsProduct(n, k / n);
    if c.y < k / n {
      RowsGrow(n, c.y, k / n);
    } else if k / n < c.y {
      RowsGrow(n, k / n, c.y);
    }
  }

  // ---------- tiles ----------

  /** Where the first pixel of block k is. */
  function TileStart(n: nat, k: nat): nat
    requires 1 <= n
  {
    var c := WalkTo(n, k);
    RowStart(0, 4 * n, 4 * c.y) + 4 * c.x
  }

  lemma FourRows(off: nat, w: nat, j: nat)
    ensures RowStart(off, w, j + 4) == RowStart(off, w, j) + 4 * w
  {
    assert Lines(w, j + 2) == Lines(w, j) + 2 * w;
    assert Lines(w, j + 4) == Lines(w, j + 2) + 2 * w;
  }

  /** The step of the source pointer from one block to the next. */
  lemma TileStartNext(n: nat, k: nat)
    requires 1 <= n
    ensures TileStart(n, k + 1) == TileStart(n, k) + 4 + (if WalkTo(n, k).x + 1 == n then 12 * n else 0)
    ensures WalkTo(n, k + 1).x == if WalkTo(n, k).x + 1 == n then 0 else WalkTo(n, k).x + 1
  {
    FourRows(0, 4 * n, 4 * WalkTo(n, k).y);
    hide RowStart;
  }

  /** Number of pixels of an image of rows rows of n blocks. */
  function PixelCount(n: nat, rows: nat): nat {
    RowStart(0, 4 * n, 4 * rows)
  }

  function BlockCount(n: nat, rows: nat): nat {
    RowStart(0, n, rows)
  }

  /** Every block of the walk lies inside the image. */
  lemma TileInImage(n: nat, rows: nat, k: nat)
    requires 1 <= n && k < BlockCount(n, rows)
    ensures TileFits(TileStart(n, k), 4 * n, PixelCount(n, rows))
  {
    var c := WalkTo(n, k);
    var w := 4 * n;
    if rows <= c.y {
      if rows < c.y {
        RowsGrow(n, rows, c.y);
      }
      assert false;
    }
    LinesAdd(w, 4 * c.y, 3);
    FourRows(0, w, 4 * c.y);
    if c.y + 1 < rows {
      RowsGrow(w, 4 * (c.y + 1), 4 * rows);
    }
  }

  /** The tile at off as a block of the encoder's buffer. */
  function TileAt(img: seq<Pixel>, off: nat, w: nat): Block
    requires 4 <= w && TileFits(off, w, |img|)
  {
    TileInside(off, w, |img|);
    seq(16, p requires 0 <= p < 16 => img[At(off, w, p / 4, p % 4)])
  }

  /** Block k of an image. */
  function BlockOf(img: seq<Pixel>, n: nat, rows: nat, k: nat): Block
    requires 1 <= n && |img| == PixelCount(n, rows) && k < BlockCount(n, rows)
  {
    TileInImage(n, rows, k);
    TileAt(img, TileStart(n, k), 4 * n)
  }

  /** The transposing copy of one block into the buffer. */
  method FetchTile(img: seq<Pixel>, src: nat, w: nat, buf: array<Pixel>) returns (next: nat)
    requires 4 <= w && TileFits(src, w, |img|) && buf.Length == 16
    modifies buf
    ensures next == src + 4 && buf[..] == TileAt(img, src, w)
  {
    TileInside(src, w, |img|);
    next := src;
    var ptr := 0;
    for x := 0 to 4
      invariant next == src + x && ptr == 4 * x
      invariant forall p :: 0 <= p < ptr ==> buf[p] == img[At(src, w, p / 4, p % 4)]
    {
      for y := 0 to 4
        invariant next == At(src, w, x, y) && ptr == 4 * x + y
        invariant forall p :: 0 <= p < ptr ==> buf[p] == img[At(src, w, p / 4, p % 4)]
      {
        assert At(src, w, x, y) < |img| && ptr / 4 == x && ptr % 4 == y;
        buf[ptr] := img[next];
        ptr := ptr + 1;
        next := next + w;
      }
      assert At(src, w, x, 4) == At(src, w, x, 0) + 4 * w by {
        FourRows(src, w, 0);
      }
      next := next + 1 - 4 * w;
    }
  }

  /** The colours of a block row by row, the bottom row first. */
  function BottomUp(b: Block): (rows: seq<Rgb>)
    ensures |rows| == 16
  {
    seq(16, q requires 0 <= q < 16 => ColorOf(b[FlippedFrom(q)]))
  }

  function FlippedFrom(q: nat): (p: nat)
    requires q < 16
    ensures p < 16
  {
    4 * (q % 4) + 3 - q / 4
  }

  lemma FlippedRow(i: nat, x: nat)
    requires i < 4 && x < 4
    ensures 0 <= 12 - 4 * i + x < 16 && FlippedFrom(12 - 4 * i + x) == i + 4 * x
  {
  }

  /** The flip and the drop of alpha for a block of high error. */
  method FlipTile(buf: array<Pixel>) returns (bgr: array<Rgb>)
    requires buf.Length == 16
    ensures fresh(bgr) && bgr[..] == BottomUp(buf[..])
  {
    hide FlippedFrom;
    bgr := new Rgb[16](_ => Rgb(0, 0, 0));
    var idx := 12;
    for i := 0 to 4
      invariant idx == 12 - 4 * i
      invariant forall q :: 16 - 4 * i <= q < 16 ==> bgr[q] == ColorOf(buf[FlippedFrom(q)])
    {
      FlippedRow(i, 0);
      FlippedRow(i, 1);
      FlippedRow(i, 2);
      FlippedRow(i, 3);
      bgr[idx + 0] := ColorOf(buf[i + 0]);
      bgr[idx + 1] := ColorOf(buf[i + 4]);
      bgr[idx + 2] := ColorOf(buf[i + 8]);
      bgr[idx + 3] := ColorOf(buf[i + 12]);
      idx := idx - 4;
    }
  }

  // ---------- one strip ----------

  /** The entries the blocks first, ..., first + count - 1 put into the pipe. */
  function PipeOf(img: seq<Pixel>, n: nat, rows: nat, enc: Block -> Encoded, first: nat,
                  count: nat): (pipe: seq<PixBlock>)
    requires 1 <= n && |img| == PixelCount(n, rows) && first + count <= BlockCount(n, rows)
    ensures |pipe| <= count
  {
    if count == 0 then []
    else PipeOf(img, n, rows, enc, first, count - 1) + EntryOf(img, n, rows, enc, first + count - 1)
  }

  function EntryOf(img: seq<Pixel>, n: nat, rows: nat, enc: Block -> Encoded, k: nat): (entry: seq<PixBlock>)
    requires 1 <= n && |img| == PixelCount(n, rows) && k < BlockCount(n, rows)
    ensures |entry| <= 1
  {
    var b := BlockOf(img, n, rows, k);
    Entry(b, enc(b), k)
  }

  function WordOf(img: seq<Pixel>, n: nat, rows: nat, enc: Block -> Encoded, k: nat): bv64
    requires 1 <= n && |img| == PixelCount(n, rows) && k < BlockCount(n, rows)
  {
    enc(BlockOf(img, n, rows, k)).word
  }

  function Entry(b: Block, e: Encoded, at: nat): (entry: seq<PixBlock>)
    ensures |entry| <= 1
  {
    if e.highError then [PixBlock(at, e.error, BottomUp(b))] else []
  }

  /** What is done with an encoded block. */
  method StoreBlock(buf: array<Pixel>, e: Encoded, at: nat, dst: array<bv64>, pipe: array<PixBlock>, size0: nat)
    returns (size: nat)
    requires buf.Length == 16 && at < dst.Length && size0 < pipe.Length
    requires buf as object != dst && buf as object != pipe && dst as object != pipe
    modifies dst, pipe
    ensures dst[..] == old(dst[..])[at := e.word]
    ensures size0 <= size <= size0 + 1 && pipe[..size] == old(pipe[..size0]) + Entry(buf[..], e, at)
  {
    dst[at] := e.word;
    size := size0;
    if e.highError {
      var bgr := FlipTile(buf);
      pipe[size] := PixBlock(at, e.error, bgr[..]);
      size := size + 1;
    }
  }

  /** CompressEtc2Rgb for a strip that begins with block first: src is where its pixels begin, the
      words go to dst from first on, blocks of high error go to the pipe. The columns are counted
      from 0, so the strip has to begin at the left edge. */
  method CompressStrip(img: seq<Pixel>, n: nat, ghost rows: nat, enc: Block -> Encoded, src0: nat, first: nat,
                       blocks: nat,
                       dst: array<bv64>, pipe: array<PixBlock>, size0: nat)
    returns (size: nat)
    requires 1 <= n && 1 <= blocks && |img| == PixelCount(n, rows)
    requires first + blocks <= BlockCount(n, rows) == dst.Length
    requires src0 == TileStart(n, first) && WalkTo(n, first).x == 0
    requires size0 + blocks <= pipe.Length && dst as object != pipe
    modifies dst, pipe
    ensures forall k :: first <= k < first + blocks ==> dst[k] == WordOf(img, n, rows, enc, k)
    ensures forall k :: 0 <= k < dst.Length && !(first <= k < first + blocks) ==> dst[k] == old(dst[k])
    ensures size <= pipe.Length && pipe[..size] == old(pipe[..size0]) + PipeOf(img, n, rows, enc, first, blocks)
  {
    hide TileStart, TileFits, BlockCount, PixelCount, TileAt, Entry, WalkTo;
    var w := 0;
    var buf := new Pixel[16](_ => Pixel(0, 0, 0, 0));
    var src := src0;
    var left := blocks;
    ghost var k := first;
    size := size0;
    while left > 0
      invariant k + left == first + blocks
      invariant src == TileStart(n, k) && w == WalkTo(n, k).x
      invariant forall m :: first <= m < k ==> dst[m] == WordOf(img, n, rows, enc, m)
      invariant forall m :: 0 <= m < dst.Length && !(first <= m < k) ==> dst[m] == old(dst[m])
      invariant size <= size0 + (k - first)
      invariant pipe[..size] == old(pipe[..size0]) + PipeOf(img, n, rows, enc, first, k - first)
    {
      TileInImage(n, rows, k);
      src := FetchTile(img, src, 4 * n, buf);
      TileStartNext(n, k);
      w := w + 1;
      if w == n {
        src := src + 12 * n;
        w := 0;
      }
      size := StoreBlock(buf, enc(buf[..]), first + (blocks - left), dst, pipe, size);
      k := k + 1;
      left := left - 1;
    }
  }

  // ---------- the decoder's walk ----------

  lemma TileAddress(n: nat, k: nat, i: nat, j: nat)
    requires 1 <= n
    ensures var c := WalkTo(n, k); At(TileStart(n, k), 4 * n, i, j) == RowStart(0, 4 * n, 4 * c.y + j) + 4 * c.x + i
  {
    var c := WalkTo(n, k);
    LinesAdd(4 * n, 4 * c.y, j);
  }

  /** No pixel belongs to two tiles. */
  lemma TilesDisjoint(n: nat, k: nat, k2: nat, i: nat, j: nat)
    requires 1 <= n && k != k2 && i < 4 && j < 4
    ensures !InTile(TileStart(n, k2), 4 * n, At(TileStart(n, k), 4 * n, i, j))
  {
    forall i2: nat, j2: nat | i2 < 4 && j2 < 4
      ensures At(TileStart(n, k), 4 * n, i, j) != At(TileStart(n, k2), 4 * n, i2, j2)
    {
      hide RowStart, At, TileStart;
      TileAddress(n, k, i, j);
      TileAddress(n, k2, i2, j2);
      var (c, c2) := (WalkTo(n, k), WalkTo(n, k2));
      if 4 * c.y + j < 4 * c2.y + j2 {
        RowsGrow(4 * n, 4 * c.y + j, 4 * c2.y + j2);
      } else if 4 * c2.y + j2 < 4 * c.y + j {
        RowsGrow(4 * n, 4 * c2.y + j2, 4 * c.y + j);
      } else {
        assert c.y == c2.y;
      }
    }
  }

  /** The tile of block k shows what word d stands for. */
  ghost predicate TileShows(img: seq<Pixel>, n: nat, k: nat, d: bv64)
    requires 1 <= n
  {
    forall i, j :: 0 <= i < 4 && 0 <= j < 4 && At(TileStart(n, k), 4 * n, i, j) < |img| ==>
      img[At(TileStart(n, k), 4 * n, i, j)] == PixelOf(d, i, j)
  }

  lemma OtherTileKept(was: seq<Pixel>, now: seq<Pixel>, n: nat, k: nat, k2: nat, d: bv64)
    requires 1 <= n && k != k2 && TileShows(was, n, k, d) && SameOutside(was, now, TileStart(n, k2), 4 * n)
    ensures TileShows(now, n, k, d)
  {
    hide TileStart, At, PixelOf, InTile;
    forall i, j | 0 <= i < 4 && 0 <= j < 4 && At(TileStart(n, k), 4 * n, i, j) < |now|
      ensures now[At(TileStart(n, k), 4 * n, i, j)] == PixelOf(d, i, j)
    {
      TilesDisjoint(n, k, k2, i, j);
    }
  }

  /** One block of DecodeRGB. */
  method DecodeTile(d: bv64, img: array<Pixel>, n: nat, rows: nat, dst: nat, ghost words: seq<bv64>, ghost k: nat)
    requires 1 <= n && img.Length == PixelCount(n, rows) && k < BlockCount(n, rows) <= |words|
    requires dst == TileStart(n, k) && d == words[k]
    requires forall m :: 0 <= m < k ==> TileShows(img[..], n, m, words[m])
    modifies img
    ensures forall m :: 0 <= m <= k ==> TileShows(img[..], n, m, words[m])
  {
    hide TileShows, TileStart, TileFits, SameOutside, PixelOf, BlockCount, PixelCount;
    ghost var was := img[..];
    TileInImage(n, rows, k);
    DecodeRGBPart(d, img, dst, 4 * n);
    assert TileShows(img[..], n, k, d) by {
      ShownTile(img[..], n, k, d);
    }
    forall m | 0 <= m < k ensures TileShows(img[..], n, m, words[m]) {
      OtherTileKept(was, img[..], n, m, k, words[m]);
    }
  }

  lemma ShownTile(img: seq<Pixel>, n: nat, k: nat, d: bv64)
    requires 1 <= n
    requires forall i, j :: 0 <= i < 4 && 0 <= j < 4 && At(TileStart(n, k), 4 * n, i, j) < |img| ==>
               img[At(TileStart(n, k), 4 * n, i, j)] == PixelOf(d, i, j)
    ensures TileShows(img, n, k, d)
  {
  }

  /** DecodeRGB: every word is shown at the place its block was read from. */
  method DecodeRGB(words: seq<bv64>, n: nat, rows: nat) returns (img: array<Pixel>)
    requires 1 <= n && |words| == BlockCount(n, rows)
    ensures fresh(img) && img.Length == PixelCount(n, rows)
    ensures forall k :: 0 <= k < |words| ==> TileShows(img[..], n, k, words[k])
  {
    hide TileShows, PixelCount, BlockCount;
    img := new Pixel[PixelCount(n, rows)](_ => Pixel(0, 0, 0, 0));
    var dst, src := 0, 0;
    NoRows(n);
    for y := 0 to rows
      invariant src == BlockCount(n, y) <= |words| && dst == PixelCount(n, y)
      invariant forall m :: 0 <= m < src ==> TileShows(img[..], n, m, words[m])
    {
      RowOfTiles(n, rows, y);
      for x := 0 to n
        invariant src == BlockCount(n, y) + x <= |words| && dst == PixelCount(n, y) + 4 * x
        invariant forall m :: 0 <= m < src ==> TileShows(img[..], n, m, words[m])
      {
        RowOfTiles(n, rows, y);
        WalkThere(n, y, x);
        DecodeTile(words[src], img, n, rows, dst, words, src);
        src := src + 1;
        dst := dst + 4;
      }
      dst := dst + 12 * n;
    }
  }

  lemma NoRows(n: nat)
    ensures BlockCount(n, 0) == 0 && PixelCount(n, 0) == 0
  {
  }

  lemma RowOfTiles(n: nat, rows: nat, y: nat)
    requires y < rows
    ensures BlockCount(n, y + 1) == BlockCount(n, y) + n <= BlockCount(n, rows)
    ensures PixelCount(n, y + 1) == PixelCount(n, y) + 16 * n
  {
    FourRows(0, 4 * n, 4 * y);
    if y + 1 < rows {
      RowsGrow(n, y + 1, rows);
    }
  }

  lemma WalkThere(n: nat, y: nat, x: nat)
    requires x < n
    ensures WalkTo(n, BlockCount(n, y) + x) == Coords(y, x)
    ensures TileStart(n, BlockCount(n, y) + x) == PixelCount(n, y) + 4 * x
  {
    hide RowStart, WalkTo;
    var c := WalkTo(n, BlockCount(n, y) + x);
    if c.y < y {
      RowsGrow(n, c.y, y);
    } else if y < c.y {
      RowsGrow(n, y, c.y);
    }
  }
}
