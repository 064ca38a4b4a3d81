/** Planar mode: packing of the three colours of a plane into a word whose blue overflows while red
    and green stay in range, and the encoder's own reconstruction of the block (scalar Planar of
    ProcessRGB.cpp, from the quantised colours on). */
module Planar {
  import opened Words
  import opened Pixels
  import opened Decoder
  import opened ThWords

  type sixBits = x: int | 0 <= x < 64

  type sevenBits = x: int | 0 <= x < 128

  /** A colour of six, seven and six bits. */
  datatype Rgb676 = Rgb676(r: sixBits, g: sevenBits, b: sixBits)

  /** g_flags, in rows of 16. */
  function FlagRow(row: nat): (fs: seq<bv32>)
    requires row < 4
    ensures |fs| == 16
  {
    match row
    case 0 => [0x80800402, 0x80800402, 0x80800402, 0x80800402,
               0x80800402, 0x80800402, 0x80800402, 0x8080E002,
               0x80800402, 0x80800402, 0x8080E002, 0x8080E002,
               0x80800402, 0x8080E002, 0x8080E002, 0x8080E002]
    case 1 => [0x80000402, 0x80000402, 0x80000402, 0x80000402,
               0x80000402, 0x80000402, 0x80000402, 0x8000E002,
               0x80000402, 0x80000402, 0x8000E002, 0x8000E002,
               0x80000402, 0x8000E002, 0x8000E002, 0x8000E002]
    case 2 => [0x00800402, 0x00800402, 0x00800402, 0x00800402,
               0x00800402, 0x00800402, 0x00800402, 0x0080E002,
               0x00800402, 0x00800402, 0x0080E002, 0x0080E002,
               0x00800402, 0x0080E002, 0x0080E002, 0x0080E002]
    case _ => [0x00000402, 0x00000402, 0x00000402, 0x00000402,
               0x00000402, 0x00000402, 0x00000402, 0x0000E002,
               0x00000402, 0x00000402, 0x0000E002, 0x0000E002,
               0x00000402, 0x0000E002, 0x0000E002, 0x0000E002]
  }

  function Flags(idx: bv32): bv32
    requires idx < 64
  {
    FlagRow((idx >> 4) as int)[(idx & 0xF) as int]
  }

  /** What the table amounts to: the top bits of red and green are complemented, and blue is padded
      by the rule of the T and H words. */
  function FlagShape(idx: bv32): bv32 {
    (if idx & 0x20 == 0 then 0x8000_0000 else 0)
    | (if idx & 0x10 == 0 then 0x0080_0000 else 0)
    | (if PadWithOnes((idx >> 3) & 1, (idx >> 2) & 1, (idx >> 1) & 1, idx & 1) != 0 then 0xE002 else 0x0402)
  }

  lemma FlagsFrom0(idx: bv32)
    requires 0 <= idx < 16
    ensures Flags(idx) == FlagShape(idx)
  {
    if idx == 0 {} else if idx == 1 {} else if idx == 2 {} else if idx == 3 {}
    else if idx == 4 {} else if idx == 5 {} else if idx == 6 {} else if idx == 7 {}
    else if idx == 8 {} else if idx == 9 {} else if idx == 10 {} else if idx == 11 {}
    else if idx == 12 {} else if idx == 13 {} else if idx == 14 {} else {}
  }

  lemma FlagsFrom16(idx: bv32)
    requires 16 <= idx < 32
    ensures Flags(idx) == FlagShape(idx)
  {
    if idx == 16 {} else if idx == 17 {} else if idx == 18 {} else if idx == 19 {}
    else if idx == 20 {} else if idx == 21 {} else if idx == 22 {} else if idx == 23 {}
    else if idx == 24 {} else if idx == 25 {} else if idx == 26 {} else if idx == 27 {}
    else if idx == 28 {} else if idx == 29 {} else if idx == 30 {} else {}
  }

  lemma FlagsFrom32(idx: bv32)
    requires 32 <= idx < 48
    ensures Flags(idx) == FlagShape(idx)
  {
    if idx == 32 {} else if idx == 33 {} else if idx == 34 {} else if idx == 35 {}
    else if idx == 36 {} else if idx == 37 {} else if idx == 38 {} else if idx == 39 {}
    else if idx == 40 {} else if idx == 41 {} else if idx == 42 {} else if idx == 43 {}
    else if idx == 44 {} else if idx == 45 {} else if idx == 46 {} else {}
  }

  lemma FlagsFrom48(idx: bv32)
    requires 48 <= idx < 64
    ensures Flags(idx) == FlagShape(idx)
  {
    if idx == 48 {} else if idx == 49 {} else if idx == 50 {} else if idx == 51 {}
    else if idx == 52 {} else if idx == 53 {} else if idx == 54 {} else if idx == 55 {}
    else if idx == 56 {} else if idx == 57 {} else if idx == 58 {} else if idx == 59 {}
    else if idx == 60 {} else if idx == 61 {} else if idx == 62 {} else {}
  }

  lemma FlagsAreShaped(idx: bv32)
    requires idx < 64
    ensures Flags(idx) == FlagShape(idx)
  {
    hide FlagShape;
    if idx < 16 {
      FlagsFrom0(idx);
    } else if idx < 32 {
      FlagsFrom16(idx);
    } else if idx < 48 {
      FlagsFrom32(idx);
    } else {
      FlagsFrom48(idx);
    }
  }

  datatype Rgb676Bits = Rgb676Bits(r: bv32, g: bv32, b: bv32)

  predicate InWidth(c: Rgb676Bits) { c.r < 64 && c.g < 128 && c.b < 64 }

  /** The high half: the vertical colour and the lower bits of the horizontal one. */
  function PlanarHi(ch: Rgb676Bits, cv: Rgb676Bits): bv32 {
    var rgbv := cv.b | (cv.g << 6) | (cv.r << 13);
    var rgbh := ch.b | (ch.g << 6) | (ch.r << 13);
    rgbv | ((rgbh & 0x1FFF) << 19)
  }

  /** The low half without its padding: the origin colour and the red of the horizontal one. */
  function PlanarLo(co: Rgb676Bits, ch: Rgb676Bits): bv32 {
    ((ch.r & 0x1) | 0x2 | ((ch.r << 1) & 0x7C))
    | (((co.b & 0x07) << 7) | ((co.b & 0x18) << 8) | ((co.b & 0x20) << 11))
    | (((co.g & 0x3F) << 17) | ((co.g & 0x40) << 18))
    | (co.r << 25)
  }

  function FlagIndex(co: Rgb676Bits): bv32 {
    (co.r & 0x20) | ((co.g & 0x20) >> 1) | ((co.b & 0x1E) >> 1)
  }

  lemma FlagIndexRange(co: Rgb676Bits)
    requires InWidth(co)
    ensures FlagIndex(co) < 64
  {
  }

  function ShapedLo(co: Rgb676Bits, ch: Rgb676Bits): bv32 {
    PlanarLo(co, ch) | FlagShape(FlagIndex(co))
  }

  /** The padding keeps red and green in range and makes blue overflow. */
  lemma ShapedIsPlanar(co: Rgb676Bits, ch: Rgb676Bits)
    requires InWidth(co) && InWidth(ch)
    ensures ModeOf(ShapedLo(co, ch)) == ModePlanar
  {
  }

  lemma PlanarLoFields(co: Rgb676Bits, ch: Rgb676Bits)
    requires InWidth(co) && InWidth(ch)
    ensures var lo := ShapedLo(co, ch);
            PRedO(lo) == co.r && PGreenO(lo) == co.g && PBlueO(lo) == co.b && PRedH(lo) == ch.r
  {
  }

  lemma PlanarHiFields(ch: Rgb676Bits, cv: Rgb676Bits)
    requires InWidth(ch) && InWidth(cv)
    ensures var hi := PlanarHi(ch, cv);
            && PGreenH(hi) == ch.g && PBlueH(hi) == ch.b
            && PRedV(hi) == cv.r && PGreenV(hi) == cv.g && PBlueV(hi) == cv.b
  {
  }

  // ---------- from numbers to words and back ----------

  function Bits(c: Rgb676): Rgb676Bits {
    Rgb676Bits(B32(c.r), B32(c.g), B32(c.b))
  }

  lemma BitsInWidth(c: Rgb676)
    ensures InWidth(Bits(c))
  {
    WordLess(c.r, 64);
    WordLess(c.g, 128);
    WordLess(c.b, 64);
  }

  /** Six and seven bits as a byte: their top bits repeated. */
  function Six(x: sixBits): byte { 4 * x + x / 16 }

  function Seven(x: sevenBits): byte { 2 * x + x / 64 }

  function Expanded(c: Rgb676): Rgb {
    Rgb(Six(c.r), Seven(c.g), Six(c.b))
  }

  lemma SixValue(x: bv8)
    requires x < 64
    ensures Expand6(x as bv32) < 256 && Expand6(x as bv32) == ((x << 2) | (x >> 4)) as bv32
    ensures ((x << 2) | (x >> 4)) as int == 4 * (x as int) + (x as int) / 16
  {
  }

  lemma SevenValue(x: bv8)
    requires x < 128
    ensures Expand7(x as bv32) < 256 && Expand7(x as bv32) == ((x << 1) | (x >> 6)) as bv32
    ensures ((x << 1) | (x >> 6)) as int == 2 * (x as int) + (x as int) / 64
  {
  }

  lemma SixByte(x: sixBits)
    ensures Expand6(B32(x)) < 256 && ToByte(Expand6(B32(x))) == Six(x)
  {
    var b := x as bv8;
    Byte(x);
    LessBytes(x, 64);
    SixValue(b);
    Widen((b << 2) | (b >> 4));
  }

  lemma SevenByte(x: sevenBits)
    ensures Expand7(B32(x)) < 256 && ToByte(Expand7(B32(x))) == Seven(x)
  {
    var b := x as bv8;
    Byte(x);
    LessBytes(x, 128);
    SevenValue(b);
    Widen((b << 1) | (b >> 6));
  }

  // ---------- from plane values to colours ----------

  /** The plane is fitted in floating point; its value at a corner, scaled by four and truncated,
      is clamped to ten bits. */
  function Clamped(f: int): (x: nat)
    ensures x <= 1023
  {
    Min(Max(f, 0), 1023)
  }

  function Halved(f: int): (i: int)
    ensures -8 <= i <= 504
  {
    (Clamped(f) - 15) / 2
  }

  function Code6(i: int): int {
    (i + 11 - (i + 11) / 128 - (i + 4) / 128) / 8
  }

  function Code7(i: int): int {
    (i + 9 - (i + 9) / 256 - (i + 6) / 256) / 4
  }

  /** The quotient a code comes from, and how its two corrections grow with it. */
  lemma Code6Parts(i: int, q: int)
    requires -8 <= i <= 504 && q == Code6(i)
    ensures var c := (i + 11) / 128 + (i + 4) / 128;
            0 <= q <= 63 && 8 * q <= i + 11 - c <= 8 * q + 7
  {
    var (a, b) := ((i + 11) / 128, (i + 4) / 128);
    assert 8 * q <= i + 11 - a - b <= 8 * q + 7;
  }

  /** Where the corrections a and b and the quotients of q stand for each other. */
  lemma Code6Steps(n: int, q: int, a: int, b: int, u: int, v: int, w: int)
    requires 3 <= n <= 515 && 0 <= q <= 63 && 8 * q <= n - a - b <= 8 * q + 7
    requires 128 * a <= n <= 128 * a + 127 && 128 * b + 7 <= n <= 128 * b + 134
    requires 16 * u <= q <= 16 * u + 15 && 16 * v <= q + 1 <= 16 * v + 15 && 16 * w <= q - 1 <= 16 * w + 15
    ensures q < 63 ==> n - 3 <= 8 * q + 4 + u + v
    ensures q > 0 ==> n - 4 >= 8 * q - 4 + u + w
  {
    assert b == a || b == a - 1;
    assert u == a || u == a - 1;
    assert v == u || v == u + 1;
    assert w == u || w == u - 1;
  }

  /** Half the difference from the code is at most half a step, on either side. */
  lemma Code6Cell(i: int, q: int)
    requires -8 <= i <= 504 && q == Code6(i)
    ensures 0 <= q <= 63
    ensures q < 63 ==> i + 8 <= 8 * q + 4 + q / 16 + (q + 1) / 16
    ensures q > 0 ==> i + 7 >= 8 * q - 4 + q / 16 + (q - 1) / 16
  {
    hide Code6;
    Code6Parts(i, q);
    var (a, b) := ((i + 11) / 128, (i + 4) / 128);
    assert 128 * a <= i + 11 <= 128 * a + 127 && 128 * b <= i + 4 <= 128 * b + 127;
    assert 16 * (q / 16) <= q <= 16 * (q / 16) + 15;
    assert 16 * ((q + 1) / 16) <= q + 1 <= 16 * ((q + 1) / 16) + 15;
    assert 16 * ((q - 1) / 16) <= q - 1 <= 16 * ((q - 1) / 16) + 15;
    Code6Steps(i + 11, q, a, b, q / 16, (q + 1) / 16, (q - 1) / 16);
  }

  lemma Code7Cell(i: int, q: int)
    requires -8 <= i <= 504 && q == Code7(i)
    ensures 0 <= q <= 127
    ensures q < 127 ==> i + 8 <= 4 * q + 2 + q / 64 + (q + 1) / 64
    ensures q > 0 ==> i + 7 >= 4 * q - 2 + q / 64 + (q - 1) / 64
  {
    var (a, b) := ((i + 9) / 256, (i + 6) / 256);
    assert 4 * q <= i + 9 - a - b <= 4 * q + 3;
  }

  /** convert6 and convert7. */
  function Convert6(f: int): sixBits {
    Code6Cell(Halved(f), Code6(Halved(f)));
    Code6(Halved(f))
  }

  function Convert7(f: int): sevenBits {
    Code7Cell(Halved(f), Code7(Halved(f)));
    Code7(Halved(f))
  }

  lemma SixGrows(x: sixBits, y: sixBits)
    requires x <= y
    ensures Six(x) <= Six(y)
  {
  }

  lemma SevenGrows(x: sevenBits, y: sevenBits)
    requires x <= y
    ensures Seven(x) <= Seven(y)
  {
  }

  lemma Convert6Cell(f: int)
    ensures var q := Convert6(f);
            && (q < 63 ==> f <= 2 * (Six(q) + Six(q + 1)))
            && (q > 0 ==> f >= 2 * (Six(q) + Six(q - 1)))
  {
    hide Code6;
    Code6Cell(Halved(f), Convert6(f));
  }

  lemma Convert7Cell(f: int)
    ensures var q := Convert7(f);
            && (q < 127 ==> f <= 2 * (Seven(q) + Seven(q + 1)))
            && (q > 0 ==> f >= 2 * (Seven(q) + Seven(q - 1)))
  {
    hide Code7;
    Code7Cell(Halved(f), Convert7(f));
  }

  /** convert6, for all its shifts and corrections, picks the six-bit code whose byte is nearest. */
  lemma Convert6Nearest(f: int, x: sixBits)
    ensures Abs(4 * Six(Convert6(f)) - f) <= Abs(4 * Six(x) - f)
  {
    hide Six, Convert6;
    Convert6Cell(f);
    var q := Convert6(f);
    if x < q {
      SixGrows(x, q - 1);
      SixGrows(q - 1, q);
    } else if x > q {
      SixGrows(q + 1, x);
      SixGrows(q, q + 1);
    }
  }

  lemma Convert7Nearest(f: int, x: sevenBits)
    ensures Abs(4 * Seven(Convert7(f)) - f) <= Abs(4 * Seven(x) - f)
  {
    hide Seven, Convert7;
    Convert7Cell(f);
    var q := Convert7(f);
    if x < q {
      SevenGrows(x, q - 1);
      SevenGrows(q - 1, q);
    } else if x > q {
      SevenGrows(q + 1, x);
      SevenGrows(q, q + 1);
    }
  }

  // ---------- the word and what it decodes to ----------

  function PlanarWord(co: Rgb676, ch: Rgb676, cv: Rgb676): bv64 {
    BitsInWidth(co);
    FlagIndexRange(Bits(co));
    var lo := PlanarLo(Bits(co), Bits(ch)) | Flags(FlagIndex(Bits(co)));
    Join(Bswap32(lo), Bswap32(PlanarHi(Bits(ch), Bits(cv))))
  }

  lemma PlanarWordHalves(co: Rgb676, ch: Rgb676, cv: Rgb676)
    ensures var e := ConvertByteOrder(PlanarWord(co, ch, cv));
            Lo(e) == ShapedLo(Bits(co), Bits(ch)) && Hi(e) == PlanarHi(Bits(ch), Bits(cv))
  {
    hide Bswap32, PlanarLo, PlanarHi, Flags, FlagShape, FlagIndex, Lo, Hi, Join, ConvertByteOrder, Bits;
    BitsInWidth(co);
    FlagIndexRange(Bits(co));
    FlagsAreShaped(FlagIndex(Bits(co)));
    ConvertUndoesSwappedHalves(ShapedLo(Bits(co), Bits(ch)), PlanarHi(Bits(ch), Bits(cv)));
    Halves(ShapedLo(Bits(co), Bits(ch)), PlanarHi(Bits(ch), Bits(cv)));
  }

  /** The encoder's own value of one channel of buffer pixel p: o, h and v are the channel in the
      three colours. */
  function PlaneValue(o: byte, h: byte, v: byte, p: nat): byte {
    ClampU8(((h - o) * (p / 4) + (v - o) * (p % 4) + (4 * o + 2)) / 4)
  }

  /** What the encoder takes buffer pixel p to become. */
  function Reconstruction(co: Rgb676, ch: Rgb676, cv: Rgb676, p: nat): Rgb {
    var (o, h, v) := (Expanded(co), Expanded(ch), Expanded(cv));
    Rgb(PlaneValue(o.r, h.r, v.r, p), PlaneValue(o.g, h.g, v.g, p), PlaneValue(o.b, h.b, v.b, p))
  }

  lemma PlaneAgrees(o: byte, h: byte, v: byte, i: nat, j: nat)
    requires i < 4 && j < 4
    ensures PlaneAt(o, h, v, i, j) == PlaneValue(o, h, v, 4 * i + j)
  {
    assert (4 * i + j) / 4 == i && (4 * i + j) % 4 == j;
    assert i * (h - o) + j * (v - o) + 4 * o + 2 == (h - o) * i + (v - o) * j + (4 * o + 2);
  }

  /** The six byte-sized values of a colour are those of its expansion. */
  lemma ExpandedFrom(r: bv32, g: bv32, b: bv32, c: Rgb676)
    requires Expand6(r) < 256 && Expand7(g) < 256 && Expand6(b) < 256
    requires ToByte(Expand6(r)) == Six(c.r) && ToByte(Expand7(g)) == Seven(c.g) && ToByte(Expand6(b)) == Six(c.b)
    ensures RgbOf(Expand6(r), Expand7(g), Expand6(b)) == Expanded(c)
  {
    hide ToByte, Six, Seven, Expand6, Expand7;
  }

  /** Planar mode undoes itself: for any three colours the word is read as a planar word, all nine
      components come back, and every pixel decodes to the encoder's own reconstruction. */
  lemma PlanarRoundTrip(co: Rgb676, ch: Rgb676, cv: Rgb676, i: nat, j: nat)
    requires i < 4 && j < 4
    ensures var d := PlanarWord(co, ch, cv);
            && ModeOf(Lo(ConvertByteOrder(d))) == ModePlanar
            && PixelOf(d, i, j) == Opaque(Reconstruction(co, ch, cv, 4 * i + j))
  {
    hide ShapedLo, PlanarHi, B32, ToByte, Six, Seven, RgbOf, Expand6, Expand7, PRedO, PGreenO, PBlueO, PRedH,
         PGreenH, PBlueH, PRedV, PGreenV, PBlueV;
    hide PlaneAt, PlaneValue, Expanded, Lo, Hi, ConvertByteOrder, PlanarWord, ModeOf;
    PlanarWordHalves(co, ch, cv);
    var (o0, h0, v0) := (Bits(co), Bits(ch), Bits(cv));
    BitsInWidth(co);
    BitsInWidth(ch);
    BitsInWidth(cv);
    ShapedIsPlanar(o0, h0);
    PlanarLoFields(o0, h0);
    PlanarHiFields(h0, v0);
    SixByte(co.r);
    SevenByte(co.g);
    SixByte(co.b);
    SixByte(ch.r);
    SevenByte(ch.g);
    SixByte(ch.b);
    SixByte(cv.r);
    SevenByte(cv.g);
    SixByte(cv.b);
    ExpandedFrom(o0.r, o0.g, o0.b, co);
    ExpandedFrom(h0.r, h0.g, h0.b, ch);
    ExpandedFrom(v0.r, v0.g, v0.b, cv);
    var (o, h, v) := (Expanded(co), Expanded(ch), Expanded(cv));
    PlaneAgrees(o.r, h.r, v.r, i, j);
    PlaneAgrees(o.g, h.g, v.g, i, j);
    PlaneAgrees(o.b, h.b, v.b, i, j);
  }

  // ---------- the error ----------

  datatype BlockMode = UndecidedBlock | PlanarBlock | HighContrastBlock

  /** The weighted squared error of showing pixel p as c. */
  function ShownErr(p: Pixel, c: Rgb): nat {
    Sq((p.r - c.r) * 38 + (p.g - c.g) * 76 + (p.b - c.b) * 14)
  }

  function PlanarError(src: Block, co: Rgb676, ch: Rgb676, cv: Rgb676, n: nat): nat
    requires n <= 16
  {
    if n == 0 then 0
    else PlanarError(src, co, ch, cv, n - 1) + ShownErr(src[n - 1], Reconstruction(co, ch, cv, n - 1))
  }

  /** The weighted squared error of the first n pixels of a block that is stored as word d. */
  function StoredError(src: Block, d: bv64, n: nat): nat
    requires n <= 16
  {
    if n == 0 then 0
    else
      var c := PixelOf(d, (n - 1) / 4, (n - 1) % 4);
      StoredError(src, d, n - 1) + ShownErr(src[n - 1], Rgb(c.r, c.g, c.b))
  }

  lemma {:induction false} PlanarErrorIsStoredError(src: Block, co: Rgb676, ch: Rgb676, cv: Rgb676, n: nat)
    requires n <= 16
    ensures PlanarError(src, co, ch, cv, n) == StoredError(src, PlanarWord(co, ch, cv), n)
  {
    hide Reconstruction, PlanarWord, PixelOf, ShownErr;
    if n > 0 {
      PlanarErrorIsStoredError(src, co, ch, cv, n - 1);
      PlanarRoundTrip(co, ch, cv, (n - 1) / 4, (n - 1) % 4);
      assert 4 * ((n - 1) / 4) + (n - 1) % 4 == n - 1;
    }
  }

  // ---------- what no plane can show ----------

  /** Along a row of the block a plane goes one way only. */
  lemma PlaneIsMonotone(o: byte, h: byte, v: byte, i: nat, j: nat)
    requires i < 3 && j < 4
    ensures o <= h ==> PlaneValue(o, h, v, 4 * i + j) <= PlaneValue(o, h, v, 4 * i + 4 + j)
    ensures h <= o ==> PlaneValue(o, h, v, 4 * i + 4 + j) <= PlaneValue(o, h, v, 4 * i + j)
  {
    hide ClampU8;
    assert (4 * i + j) / 4 == i && (4 * i + j) % 4 == j && (4 * i + 4 + j) / 4 == i + 1 && (4 * i + 4 + j) % 4 == j;
    var before := (h - o) * i + (v - o) * j + (4 * o + 2);
    assert (h - o) * (i + 1) + (v - o) * j + (4 * o + 2) == before + (h - o);
    ClampGrows(before / 4, (before + (h - o)) / 4);
    ClampGrows((before + (h - o)) / 4, before / 4);
  }

  lemma ClampGrows(x: int, y: int)
    ensures x <= y ==> ClampU8(x) <= ClampU8(y)
  {
  }

  /** The value ShownErr weighs. */
  function PlanarWeight(r: int, g: int, b: int): int {
    38 * r + 76 * g + 14 * b
  }

  lemma {:induction false} NoErrorAnywhere(src: Block, co: Rgb676, ch: Rgb676, cv: Rgb676, n: nat, p: nat)
    requires p < n <= 16 && PlanarError(src, co, ch, cv, n) == 0
    ensures var c := Reconstruction(co, ch, cv, p);
            PlanarWeight(src[p].r, src[p].g, src[p].b) == PlanarWeight(c.r, c.g, c.b)
  {
    hide Reconstruction, ShownErr;
    if p < n - 1 {
      NoErrorAnywhere(src, co, ch, cv, n - 1, p);
    } else {
      NoErrorMeansSame(src[p], Reconstruction(co, ch, cv, p));
    }
  }

  lemma NoErrorMeansSame(p: Pixel, c: Rgb)
    requires ShownErr(p, c) == 0
    ensures PlanarWeight(p.r, p.g, p.b) == PlanarWeight(c.r, c.g, c.b)
  {
    var x := Abs((p.r - c.r) * 38 + (p.g - c.g) * 76 + (p.b - c.b) * 14);
    if x > 0 {
      SquareMonotone(1, x);
    }
  }

  lemma WeightOfPixel(p: Pixel, r: byte, g: byte, b: byte)
    requires p.r == r && p.g == g && p.b == b
    ensures PlanarWeight(p.r, p.g, p.b) == 38 * r + 76 * g + 14 * b
  {
  }

  /** Four colours, every channel of which goes one way only. */
  predicate OneWay(cs: seq<Rgb>) {
    && |cs| == 4
    && (cs[0].r <= cs[1].r <= cs[2].r <= cs[3].r || cs[0].r >= cs[1].r >= cs[2].r >= cs[3].r)
    && (cs[0].g <= cs[1].g <= cs[2].g <= cs[3].g || cs[0].g >= cs[1].g >= cs[2].g >= cs[3].g)
    && (cs[0].b <= cs[1].b <= cs[2].b <= cs[3].b || cs[0].b >= cs[1].b >= cs[2].b >= cs[3].b)
  }

  /** The weights of a row that a plane shows without error are those of such colours. */
  lemma ExactRow(src: Block, co: Rgb676, ch: Rgb676, cv: Rgb676, j: nat) returns (cs: seq<Rgb>)
    requires j < 4 && StoredError(src, PlanarWord(co, ch, cv), 16) == 0
    ensures OneWay(cs)
    ensures forall i :: 0 <= i < 4 ==>
              PlanarWeight(src[4 * i + j].r, src[4 * i + j].g, src[4 * i + j].b)
                   == PlanarWeight(cs[i].r, cs[i].g, cs[i].b)
  {
    hide PlaneValue, StoredError, PlanarError, PlanarWeight, Expanded, PlanarWord;
    PlanarErrorIsStoredError(src, co, ch, cv, 16);
    var (o, h, v) := (Expanded(co), Expanded(ch), Expanded(cv));
    cs := seq(4, i requires 0 <= i < 4 => Reconstruction(co, ch, cv, 4 * i + j));
    forall i | 0 <= i < 4
      ensures PlanarWeight(src[4 * i + j].r, src[4 * i + j].g, src[4 * i + j].b)
                == PlanarWeight(cs[i].r, cs[i].g, cs[i].b)
    {
      NoErrorAnywhere(src, co, ch, cv, 16, 4 * i + j);
    }
    forall i | 0 <= i < 3
      ensures if o.r <= h.r then cs[i].r <= cs[i + 1].r else cs[i + 1].r <= cs[i].r
      ensures if o.g <= h.g then cs[i].g <= cs[i + 1].g else cs[i + 1].g <= cs[i].g
      ensures if o.b <= h.b then cs[i].b <= cs[i + 1].b else cs[i + 1].b <= cs[i].b
    {
      assert 4 * (i + 1) + j == 4 * i + 4 + j;
      PlaneIsMonotone(o.r, h.r, v.r, i, j);
      PlaneIsMonotone(o.g, h.g, v.g, i, j);
      PlaneIsMonotone(o.b, h.b, v.b, i, j);
    }
  }

  /** One channel of the error loop. */
  method ShowChannel(o: byte, h: byte, v: byte, i: nat) returns (c: byte)
    ensures c == PlaneValue(o, h, v, i)
  {
    var x2 := 4 * o + 2;
    var h2, v2 := h - o, v - o;
    c := ClampU8((h2 * (i / 4) + v2 * (i % 4) + x2) / 4);
  }

  /** Planar, from the quantised colours on. When the heuristics are on and have not settled on
      planar mode already, the error is that of the block as it will be decoded; otherwise the
      error stays 0. */
  method EncodePlanar(src: Block, co: Rgb676, ch: Rgb676, cv: Rgb676, mode: BlockMode, useHeuristics: bool)
    returns (result: bv64, error: nat)
    ensures result == PlanarWord(co, ch, cv)
    ensures error == if mode != PlanarBlock && useHeuristics then StoredError(src, result, 16) else 0
  {
    hide PlanarWord, PlaneValue, ShownErr, Expanded, StoredError;
    error := 0;
    if mode != PlanarBlock && useHeuristics {
      var (o, h, v) := (Expanded(co), Expanded(ch), Expanded(cv));
      for i := 0 to 16
        invariant error == PlanarError(src, co, ch, cv, i)
      {
        var r := ShowChannel(o.r, h.r, v.r, i);
        var g := ShowChannel(o.g, h.g, v.g, i);
        var b := ShowChannel(o.b, h.b, v.b, i);
        error := error + ShownErr(src[i], Rgb(r, g, b));
      }
      PlanarErrorIsStoredError(src, co, ch, cv, 16);
    }
    result := PlanarWord(co, ch, cv);
  }
}
