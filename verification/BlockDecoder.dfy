/** The scalar block decoder of BlockData.cpp as it runs: every mode writes the sixteen pixels of its
    block into an image of width w, and nothing else; an image is decoded block by block. */
module BlockDecoder {
  import opened Words
  import opened Pixels
  import opened Parts
  import opened Tables
  import opened ThSearch
  import opened IndexBits
  import opened Decoder

  /** j rows of width w further on: off + j * w. */
  function RowStart(off: nat, w: nat, j: nat): nat {
    off + Lines(w, j)
  }

  /** The address of the pixel in column i and row j of the tile whose first pixel is at off. */
  function At(off: nat, w: nat, i: nat, j: nat): nat {
    RowStart(off, w, j) + i
  }

  ghost predicate InTile(off: nat, w: nat, k: int) {
    exists i, j :: 0 <= i < 4 && 0 <= j < 4 && k == At(off, w, i, j)
  }

  ghost predicate SameOutside(was: seq<Pixel>, now: seq<Pixel>, off: nat, w: nat) {
    && |was| == |now|
    && forall k :: 0 <= k < |now| && !InTile(off, w, k) ==> now[k] == was[k]
  }

  /** Whether the tile lies in an image of len pixels: its last pixel does. */
  predicate TileFits(off: nat, w: nat, len: nat) {
    4 <= w && At(off, w, 3, 3) < len
  }

  lemma RowsApart(off: nat, w: nat, j: nat, j2: nat)
    requires 4 <= w && j < j2
    ensures RowStart(off, w, j) + 4 <= RowStart(off, w, j2)
  {
    LinesGrow(w, j, j2);
  }

  lemma TileInside(off: nat, w: nat, len: nat)
    requires TileFits(off, w, len)
    ensures forall i: nat, j: nat :: i < 4 && j < 4 ==> At(off, w, i, j) < len
  {
    forall i: nat, j: nat | i < 4 && j < 4 ensures At(off, w, i, j) < len {
      hide RowStart;
      if j < 3 {
        RowsApart(off, w, j, 3);
      }
    }
  }

  lemma TileApart(off: nat, w: nat, i: nat, j: nat)
    requires 4 <= w && i < 4 && j < 4
    ensures forall i2: nat, j2: nat :: i2 < 4 && j2 < 4 && (i2 != i || j2 != j) ==>
              At(off, w, i2, j2) != At(off, w, i, j)
  {
    forall i2: nat, j2: nat | i2 < 4 && j2 < 4 && (i2 != i || j2 != j)
      ensures At(off, w, i2, j2) != At(off, w, i, j)
    {
      hide RowStart;
      if j < j2 {
        RowsApart(off, w, j, j2);
      } else if j2 < j {
        RowsApart(off, w, j2, j);
      }
    }
  }

  /** The loops of DecodeT and DecodeH. */
  method PaintIndexed(colTab: seq<Pixel>, indexes: bv32, dst: array<Pixel>, off: nat, w: nat)
    requires |colTab| == 4 && 4 <= w && TileFits(off, w, dst.Length)
    modifies dst
    ensures forall i, j :: 0 <= i < 4 && 0 <= j < 4 && At(off, w, i, j) < dst.Length ==>
              dst[At(off, w, i, j)] == colTab[IndexOf(indexes, 4 * i + j)]
    ensures SameOutside(old(dst[..]), dst[..], off, w)
  {
    hide At, TileFits, IndexOf;
    TileInside(off, w, dst.Length);
    for j := 0 to 4
      invariant forall i, j2 :: 0 <= i < 4 && 0 <= j2 < j ==>
                dst[At(off, w, i, j2)] == colTab[IndexOf(indexes, 4 * i + j2)]
      invariant SameOutside(old(dst[..]), dst[..], off, w)
    {
      for i := 0 to 4
        invariant forall i2, j2 :: 0 <= i2 < 4 && 0 <= j2 < 4 && (j2 < j || (j2 == j && i2 < i)) ==>
                    dst[At(off, w, i2, j2)] == colTab[IndexOf(indexes, 4 * i2 + j2)]
        invariant SameOutside(old(dst[..]), dst[..], off, w)
      {
        TileApart(off, w, i, j);
        dst[At(off, w, i, j)] := colTab[IndexOf(indexes, 4 * i + j)];
      }
    }
  }

  // ---------- selectors of an ETC1 word ----------

  /** Spreads 16 bits out so that a 0 follows each. */
  function Spread(x: bv32): bv32 {
    var x8 := (x | (x << 8)) & 0x00FF_00FF;
    var x4 := (x8 | (x8 << 4)) & 0x0F0F_0F0F;
    var x2 := (x4 | (x4 << 2)) & 0x3333_3333;
    (x2 | (x2 << 1)) & 0x5555_5555
  }

  /** Brings the two planes of selector bits together, two bits a pixel, pixel 0 lowest. */
  function Interleaved(hi: bv32): bv32 {
    Spread(hi & 0xFFFF) | (Spread(hi >> 16) << 1)
  }

  lemma InterleavedBits(hi: bv32)
    ensures var x := Interleaved(hi);
            && Bit(x, 0) == Bit(hi, 0) && Bit(x, 1) == Bit(hi, 16) && Bit(x, 2) == Bit(hi, 1)
            && Bit(x, 3) == Bit(hi, 17)
            && Bit(x, 4) == Bit(hi, 2) && Bit(x, 5) == Bit(hi, 18) && Bit(x, 6) == Bit(hi, 3)
            && Bit(x, 7) == Bit(hi, 19)
            && Bit(x, 8) == Bit(hi, 4) && Bit(x, 9) == Bit(hi, 20) && Bit(x, 10) == Bit(hi, 5)
            && Bit(x, 11) == Bit(hi, 21)
            && Bit(x, 12) == Bit(hi, 6) && Bit(x, 13) == Bit(hi, 22) && Bit(x, 14) == Bit(hi, 7)
            && Bit(x, 15) == Bit(hi, 23)
            && Bit(x, 16) == Bit(hi, 8) && Bit(x, 17) == Bit(hi, 24) && Bit(x, 18) == Bit(hi, 9)
            && Bit(x, 19) == Bit(hi, 25)
            && Bit(x, 20) == Bit(hi, 10) && Bit(x, 21) == Bit(hi, 26) && Bit(x, 22) == Bit(hi, 11)
            && Bit(x, 23) == Bit(hi, 27)
            && Bit(x, 24) == Bit(hi, 12) && Bit(x, 25) == Bit(hi, 28) && Bit(x, 26) == Bit(hi, 13)
            && Bit(x, 27) == Bit(hi, 29)
            && Bit(x, 28) == Bit(hi, 14) && Bit(x, 29) == Bit(hi, 30) && Bit(x, 30) == Bit(hi, 15)
            && Bit(x, 31) == Bit(hi, 31)
  {
  }

  lemma InterleavedBit(hi: bv32, m: nat)
    requires m < 16
    ensures Bit(Interleaved(hi), 2 * m) == Bit(hi, m) && Bit(Interleaved(hi), 2 * m + 1) == Bit(hi, m + 16)
  {
    hide Bit, Interleaved;
    InterleavedBits(hi);
    if m == 0 {} else if m == 1 {} else if m == 2 {} else if m == 3 {}
    else if m == 4 {} else if m == 5 {} else if m == 6 {} else if m == 7 {}
    else if m == 8 {} else if m == 9 {} else if m == 10 {} else if m == 11 {}
    else if m == 12 {} else if m == 13 {} else if m == 14 {} else {}
  }

  /** The interleaved word gives every pixel the selector of the two planes. */
  lemma InterleavedPairs(hi: bv32, m: nat)
    requires m < 16
    ensures Pair(Interleaved(hi), m) == StoredIndex(hi, m)
  {
    hide Bit, Interleaved;
    InterleavedBit(hi, m);
  }

  lemma ShiftAt(x: bv32, s: bv5)
    requires s < 30
    ensures ((x >> 2) >> s) & 1 == (x >> (s + 2)) & 1
  {
  }

  function NextPair(x: bv32): bv32 { x >> 2 }

  lemma ShiftBit(x: bv32, k: nat)
    requires k < 30
    ensures Bit(NextPair(x), k) == Bit(x, k + 2)
  {
    AddTwo(k);
    ShiftAt(x, k as bv5);
  }

  lemma ShiftPair(x: bv32, m: nat)
    requires m < 15
    ensures Pair(NextPair(x), m) == Pair(x, m + 1)
  {
    hide Bit, NextPair;
    ShiftBit(x, 2 * m);
    ShiftBit(x, 2 * m + 1);
  }

  /** idx & 0x3. */
  function LowIndex(x: bv32): (k: nat)
    ensures k < 4
  {
    (x & 0x3) as int
  }

  lemma LowIndexIsPair(x: bv32)
    ensures Pair(x, 0) < 4 && LowIndex(x) == Pair(x, 0) as int
  {
    LowPairBits(x);
  }

  lemma LowPairBits(x: bv32)
    ensures Pair(x, 0) == x & 0x3
  {
  }

  /** The selectors still to come after n pixels are the lowest of the shifted word. */
  ghost predicate Remaining(idx: bv32, hi: bv32, n: nat) {
    forall m :: 0 <= m < 16 - n ==> Pair(idx, m) == StoredIndex(hi, n + m)
  }

  lemma RemainingNext(idx: bv32, hi: bv32, n: nat)
    requires n < 16 && Remaining(idx, hi, n)
    ensures LowIndex(idx) == IndexOf(hi, n) && Remaining(NextPair(idx), hi, n + 1)
  {
    hide Pair, LowIndex, StoredIndex, NextPair;
    LowIndexIsPair(idx);
    assert Pair(idx, 0) == StoredIndex(hi, n + 0);
    forall m | 0 <= m < 15 - n ensures Pair(NextPair(idx), m) == StoredIndex(hi, n + 1 + m) {
      ShiftPair(idx, m);
      assert Pair(idx, m + 1) == StoredIndex(hi, n + (m + 1));
    }
  }

  /** The loops for individual and differential words: column by column, one selector a pixel. */
  method PaintHalves(base: seq<Rgb>, tcw: seq<nat>, flip: nat, hi: bv32, dst: array<Pixel>, off: nat, w: nat)
    requires |base| == 2 && |tcw| == 2 && tcw[0] < 8 && tcw[1] < 8 && 4 <= w && TileFits(off, w, dst.Length)
    modifies dst
    ensures forall i, j :: 0 <= i < 4 && 0 <= j < 4 && At(off, w, i, j) < dst.Length ==>
              dst[At(off, w, i, j)] == HalfPixel(base, tcw, flip, hi, i, j)
    ensures SameOutside(old(dst[..]), dst[..], off, w)
  {
    hide At, TileFits, Shifted, Modifiers, Interleaved, NextPair, LowIndex, Remaining, HalfPixel;
    TileInside(off, w, dst.Length);
    var idx := Interleaved(hi);
    AllRemaining(hi);
    for i := 0 to 4
      invariant Remaining(idx, hi, 4 * i)
      invariant forall i2, j :: 0 <= i2 < i && 0 <= j < 4 ==>
                dst[At(off, w, i2, j)] == HalfPixel(base, tcw, flip, hi, i2, j)
      invariant SameOutside(old(dst[..]), dst[..], off, w)
    {
      for j := 0 to 4
        invariant Remaining(idx, hi, 4 * i + j)
        invariant forall i2, j2 :: 0 <= i2 < 4 && 0 <= j2 < 4 && (i2 < i || (i2 == i && j2 < j)) ==>
                    dst[At(off, w, i2, j2)] == HalfPixel(base, tcw, flip, hi, i2, j2)
        invariant SameOutside(old(dst[..]), dst[..], off, w)
      {
        TileApart(off, w, i, j);
        RemainingNext(idx, hi, 4 * i + j);
        dst[At(off, w, i, j)] := ModifiedPixel(base, tcw, HalfOf(flip, i, j), LowIndex(idx));
        HalfPixelIs(base, tcw, flip, hi, i, j);
        idx := NextPair(idx);
      }
    }
  }

  function ModifiedPixel(base: seq<Rgb>, tcw: seq<nat>, half: nat, k: nat): Pixel
    requires |base| == 2 && |tcw| == 2 && tcw[0] < 8 && tcw[1] < 8 && half < 2 && k < 4
  {
    Opaque(Shifted(base[half], Modifiers(tcw[half])[k]))
  }

  function HalfPixel(base: seq<Rgb>, tcw: seq<nat>, flip: nat, hi: bv32, i: nat, j: nat): Pixel
    requires |base| == 2 && |tcw| == 2 && tcw[0] < 8 && tcw[1] < 8 && i < 4 && j < 4
  {
    ModifiedPixel(base, tcw, HalfOf(flip, i, j), IndexOf(hi, 4 * i + j))
  }

  lemma HalfPixelIs(base: seq<Rgb>, tcw: seq<nat>, flip: nat, hi: bv32, i: nat, j: nat)
    requires |base| == 2 && |tcw| == 2 && tcw[0] < 8 && tcw[1] < 8 && i < 4 && j < 4
    ensures HalfPixel(base, tcw, flip, hi, i, j) == ModifiedPixel(base, tcw, HalfOf(flip, i, j), IndexOf(hi, 4 * i + j))
  {
  }

  lemma AllRemaining(hi: bv32)
    ensures Remaining(Interleaved(hi), hi, 0)
  {
    hide Pair, Interleaved, StoredIndex;
    forall m | 0 <= m < 16 ensures Pair(Interleaved(hi), m) == StoredIndex(hi, m) {
      InterleavedPairs(hi, m);
    }
  }

  // ---------- the modes ----------

  /** The tile at off shows the block of the word lo, hi. */
  ghost predicate Shows(img: seq<Pixel>, off: nat, w: nat, lo: bv32, hi: bv32) {
    forall i, j :: 0 <= i < 4 && 0 <= j < 4 && At(off, w, i, j) < |img| ==>
      img[At(off, w, i, j)] == DecodedPixel(lo, hi, i, j)
  }

  function OpaqueTable(ps: seq<Rgb>): (table: seq<Pixel>)
    requires |ps| == 4
    ensures |table| == 4 && forall k :: 0 <= k < 4 ==> table[k] == Opaque(ps[k])
  {
    [Opaque(ps[0]), Opaque(ps[1]), Opaque(ps[2]), Opaque(ps[3])]
  }

  method DecodeT(lo: bv32, hi: bv32, dst: array<Pixel>, off: nat, w: nat)
    requires 4 <= w && TileFits(off, w, dst.Length) && ModeOf(lo) == ModeT
    modifies dst
    ensures Shows(dst[..], off, w, lo, hi) && SameOutside(old(dst[..]), dst[..], off, w)
  {
    hide At, TileFits, TPalette, IndexOf, ModeOf, SameOutside;
    PaintIndexed(OpaqueTable(TPalette(lo)), hi, dst, off, w);
  }

  method DecodeH(lo: bv32, hi: bv32, dst: array<Pixel>, off: nat, w: nat)
    requires 4 <= w && TileFits(off, w, dst.Length) && ModeOf(lo) == ModeH
    modifies dst
    ensures Shows(dst[..], off, w, lo, hi) && SameOutside(old(dst[..]), dst[..], off, w)
  {
    hide At, TileFits, HPalette, IndexOf, ModeOf, SameOutside;
    PaintIndexed(OpaqueTable(HPalette(lo)), hi, dst, off, w);
  }

  /** One channel of the plane before clamping. */
  function PlaneSum(o: int, h: int, v: int, i: int, j: int): int {
    (i * (h - o) + j * (v - o) + 4 * o + 2) / 4
  }

  /** One pixel of DecodePlanar: the colour as it is when no channel needs clamping. */
  method PlanarDot(o: Rgb, h: Rgb, v: Rgb, i: nat, j: nat) returns (p: Pixel)
    ensures p == Pixel(PlaneAt(o.r, h.r, v.r, i, j), PlaneAt(o.g, h.g, v.g, i, j), PlaneAt(o.b, h.b, v.b, i, j), 255)
  {
    var r, g, b := PlaneSum(o.r, h.r, v.r, i, j), PlaneSum(o.g, h.g, v.g, i, j), PlaneSum(o.b, h.b, v.b, i, j);
    if 0 <= r < 256 && 0 <= g < 256 && 0 <= b < 256 {
      p := Pixel(r, g, b, 255);
    } else {
      p := Pixel(ClampU8(r), ClampU8(g), ClampU8(b), 255);
    }
  }

  method DecodePlanar(lo: bv32, hi: bv32, dst: array<Pixel>, off: nat, w: nat)
    requires 4 <= w && TileFits(off, w, dst.Length) && ModeOf(lo) == ModePlanar
    modifies dst
    ensures Shows(dst[..], off, w, lo, hi) && SameOutside(old(dst[..]), dst[..], off, w)
  {
    hide At, TileFits, ModeOf, PColorO, PColorH, PColorV, PlaneAt;
    TileInside(off, w, dst.Length);
    var o, h, v := PColorO(lo), PColorH(lo, hi), PColorV(hi);
    for j := 0 to 4
      invariant forall i, j2 :: 0 <= i < 4 && 0 <= j2 < j ==> dst[At(off, w, i, j2)] == PlanarPixel(lo, hi, i, j2)
      invariant SameOutside(old(dst[..]), dst[..], off, w)
    {
      for i := 0 to 4
        invariant forall i2, j2 :: 0 <= i2 < 4 && 0 <= j2 < 4 && (j2 < j || (j2 == j && i2 < i)) ==>
                    dst[At(off, w, i2, j2)] == PlanarPixel(lo, hi, i2, j2)
        invariant SameOutside(old(dst[..]), dst[..], off, w)
      {
        TileApart(off, w, i, j);
        dst[At(off, w, i, j)] := PlanarDot(o, h, v, i, j);
      }
    }
  }

  /** DecodeRGBPart: the tile at off becomes the block that word d stands for, and no other pixel
      changes. */
  method DecodeRGBPart(d: bv64, dst: array<Pixel>, off: nat, w: nat)
    requires 4 <= w && TileFits(off, w, dst.Length)
    modifies dst
    ensures forall i, j :: 0 <= i < 4 && 0 <= j < 4 && At(off, w, i, j) < dst.Length ==>
              dst[At(off, w, i, j)] == PixelOf(d, i, j)
    ensures SameOutside(old(dst[..]), dst[..], off, w)
  {
    hide At, TileFits, Lo, Hi, ConvertByteOrder, Red1, Green1, Blue1, OutOfRange, EtcBase, TableOf, FlipOf,
         SameOutside, IndexOf, Modifiers, Shifted;
    var e := ConvertByteOrder(d);
    var lo, hi := Lo(e), Hi(e);
    if lo & 0x2 != 0 && OutOfRange(Red1(lo)) {
      DecodeT(lo, hi, dst, off, w);
    } else if lo & 0x2 != 0 && OutOfRange(Green1(lo)) {
      DecodeH(lo, hi, dst, off, w);
    } else if lo & 0x2 != 0 && OutOfRange(Blue1(lo)) {
      DecodePlanar(lo, hi, dst, off, w);
    } else {
      PaintHalves([EtcBase(lo, 0), EtcBase(lo, 1)], [TableOf(lo, 0), TableOf(lo, 1)], FlipOf(lo), hi, dst, off, w);
    }
  }
}
