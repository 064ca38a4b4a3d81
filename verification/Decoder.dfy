/** What a 64-bit ETC1/ETC2 RGB word means: the scalar decoder of BlockData.cpp, for a word whose
    bytes have already been put in order. lo is its low half (colours, tables, flags) and hi its
    high half (the two planes of pixel indices). */
module Decoder {
  import opened Words
  import opened Pixels
  import opened Tables
  import opened IndexBits
  import ThSearch

  datatype Mode = Individual | Differential | ModeT | ModeH | ModePlanar

  /** int32_t(v) >> 29: the top three bits with their sign. */
  function Asr29(v: bv32): bv32 {
    (v >> 29) | (if v & 0x8000_0000 != 0 then 0xFFFF_FFF8 else 0)
  }

  function Red0(lo: bv32): bv32 { (lo & 0xF800_0000) >> 27 }

  function Green0(lo: bv32): bv32 { (lo & 0x00F8_0000) >> 19 }

  function Blue0(lo: bv32): bv32 { (lo & 0x0000_F800) >> 11 }

  /** The signed differences of the differential reading. */
  function RedDelta(lo: bv32): bv32 { Asr29(lo << 5) }

  function GreenDelta(lo: bv32): bv32 { Asr29(lo << 13) }

  function BlueDelta(lo: bv32): bv32 { Asr29(lo << 21) }

  function Plus(base: bv32, delta: bv32): bv32 { base + delta }

  /** The second colour of the differential reading: the first plus a signed difference. */
  function Red1(lo: bv32): bv32 { Plus(Red0(lo), RedDelta(lo)) }

  function Green1(lo: bv32): bv32 { Plus(Green0(lo), GreenDelta(lo)) }

  function Blue1(lo: bv32): bv32 { Plus(Blue0(lo), BlueDelta(lo)) }

  /** x < 0 || x > 31 for a 32-bit integer x: one comparison of the unsigned reading. */
  predicate OutOfRange(x: bv32) { x > 31 }

  function ModeOf(lo: bv32): Mode {
    if lo & 0x2 == 0 then Individual
    else if OutOfRange(Red1(lo)) then ModeT
    else if OutOfRange(Green1(lo)) then ModeH
    else if OutOfRange(Blue1(lo)) then ModePlanar
    else Differential
  }

  /** A colour of three byte-sized words. */
  function RgbOf(r: bv32, g: bv32, b: bv32): Rgb
    requires r < 256 && g < 256 && b < 256
  {
    Rgb(ToByte(r), ToByte(g), ToByte(b))
  }

  function ToByte(x: bv32): byte
    requires x < 256
  {
    (x as bv8) as int
  }

  /** x as a byte when x is a nibble: its bits twice. */
  function Twice4(x: bv32): bv32 { (x << 4) | x }

  /** x as a byte when x has five bits: its top bits repeated. */
  function Expand5(x: bv32): bv32 { (x << 3) | (x >> 2) }

  // ---------- T mode ----------

  function TRed0(lo: bv32): bv32 {
    var r0 := (lo >> 24) & 0x1B;
    var rh0 := (r0 >> 3) & 0x3;
    var rl0 := r0 & 0x3;
    (rh0 << 6) | (rl0 << 4) | (rh0 << 2) | rl0
  }

  function TColor0(lo: bv32): Rgb {
    RgbOf(TRed0(lo), Twice4((lo >> 20) & 0xF), Twice4((lo >> 16) & 0xF))
  }

  function TColor1(lo: bv32): Rgb {
    RgbOf(Twice4((lo >> 12) & 0xF), Twice4((lo >> 8) & 0xF), Twice4((lo >> 4) & 0xF))
  }

  function TCodeword(lo: bv32): bv32 {
    (((lo >> 2) & 0x3) << 1) | (lo & 0x1)
  }

  // ---------- H mode ----------

  function HRed0(lo: bv32): bv32 { (lo >> 27) & 0xF }

  function HGreen0(lo: bv32): bv32 { ((lo >> 20) & 0x1) | (((lo >> 24) & 0x7) << 1) }

  function HBlue0(lo: bv32): bv32 { ((lo >> 15) & 0x7) | (((lo >> 19) & 0x1) << 3) }

  function HColor0(lo: bv32): Rgb {
    RgbOf(Twice4(HRed0(lo)), Twice4(HGreen0(lo)), Twice4(HBlue0(lo)))
  }

  function HColor1(lo: bv32): Rgb {
    RgbOf(Twice4((lo >> 11) & 0xF), Twice4((lo >> 7) & 0xF), Twice4((lo >> 3) & 0xF))
  }

  function HPacked0(lo: bv32): bv32 { (HRed0(lo) << 8) | (HGreen0(lo) << 4) | HBlue0(lo) }

  function HPacked1(lo: bv32): bv32 { (lo >> 3) & 0xFFF }

  function HHighBits(lo: bv32): bv32 { ((lo & 0x1) << 1) | (lo & 0x4) }

  predicate NotBelow(x: bv32, y: bv32) { x >= y }

  /** The lowest bit of the distance is not stored: it is the order of the two colours. */
  function HCodeword(lo: bv32): bv32 {
    HHighBits(lo) | (if NotBelow(HPacked0(lo), HPacked1(lo)) then 1 else 0)
  }

  function Shifted(c: Rgb, t: int): Rgb {
    Rgb(ClampU8(c.r + t), ClampU8(c.g + t), ClampU8(c.b + t))
  }

  function CodewordOf(x: bv32): nat
    requires x < 8
    ensures CodewordOf(x) < 8
  {
    x as int
  }

  /** col_tab of DecodeT. */
  function TPalette(lo: bv32): (ps: seq<Rgb>)
    ensures |ps| == 4
  {
    var c0, c1 := TColor0(lo), TColor1(lo);
    var t: int := ThSearch.TableTH(CodewordOf(TCodeword(lo)));
    [c0, Shifted(c1, t), c1, Shifted(c1, -t)]
  }

  /** col_tab of DecodeH. */
  function HPalette(lo: bv32): (ps: seq<Rgb>)
    ensures |ps| == 4
  {
    var c0, c1 := HColor0(lo), HColor1(lo);
    var t: int := ThSearch.TableTH(CodewordOf(HCodeword(lo)));
    [Shifted(c0, t), Shifted(c0, -t), Shifted(c1, t), Shifted(c1, -t)]
  }

  function IndexOf(hi: bv32, p: nat): (k: nat)
    requires p < 16
    ensures k < 4
  {
    StoredIndex(hi, p) as int
  }

  // ---------- planar mode ----------

  function Expand6(x: bv32): bv32 { (x << 2) | (x >> 4) }

  function Expand7(x: bv32): bv32 { (x << 1) | (x >> 6) }

  function PRedO(lo: bv32): bv32 { (lo >> 25) & 0x3F }

  function PGreenO(lo: bv32): bv32 { ((lo >> 17) & 0x3F) | (((lo >> 24) & 0x1) << 6) }

  function PBlueO(lo: bv32): bv32 {
    ((lo >> 7) & 0x7) | (((lo >> 11) & 0x3) << 3) | (((lo >> 16) & 0x1) << 5)
  }

  function PRedH(lo: bv32): bv32 { (lo & 0x1) | (((lo >> 2) & 0x1F) << 1) }

  function PGreenH(hi: bv32): bv32 { (hi >> 25) & 0x7F }

  function PBlueH(hi: bv32): bv32 { (hi >> 19) & 0x3F }

  function PRedV(hi: bv32): bv32 { (hi >> 13) & 0x3F }

  function PGreenV(hi: bv32): bv32 { (hi >> 6) & 0x7F }

  function PBlueV(hi: bv32): bv32 { hi & 0x3F }

  function PColorO(lo: bv32): Rgb { RgbOf(Expand6(PRedO(lo)), Expand7(PGreenO(lo)), Expand6(PBlueO(lo))) }

  function PColorH(lo: bv32, hi: bv32): Rgb {
    RgbOf(Expand6(PRedH(lo)), Expand7(PGreenH(hi)), Expand6(PBlueH(hi)))
  }

  function PColorV(hi: bv32): Rgb { RgbOf(Expand6(PRedV(hi)), Expand7(PGreenV(hi)), Expand6(PBlueV(hi))) }

  /** One channel of the plane through the origin colour o, the horizontal h and the vertical v. */
  function PlaneAt(o: int, h: int, v: int, i: int, j: int): byte {
    ClampU8((i * (h - o) + j * (v - o) + 4 * o + 2) / 4)
  }

  function PlanarPixel(lo: bv32, hi: bv32, i: nat, j: nat): Pixel {
    var (o, h, v) := (PColorO(lo), PColorH(lo, hi), PColorV(hi));
    Pixel(PlaneAt(o.r, h.r, v.r, i, j), PlaneAt(o.g, h.g, v.g, i, j), PlaneAt(o.b, h.b, v.b, i, j), 255)
  }

  // ---------- ETC1: individual and differential mode ----------

  /** The base colour of a half in individual mode: four bits a channel. */
  function IndividualBase(lo: bv32, half: nat): Rgb
    requires half < 2
  {
    if half == 0 then
      RgbOf(((lo & 0xF000_0000) >> 24) | ((lo & 0xF000_0000) >> 28),
            ((lo & 0x00F0_0000) >> 16) | ((lo & 0x00F0_0000) >> 20),
            ((lo & 0x0000_F000) >> 8) | ((lo & 0x0000_F000) >> 12))
    else
      RgbOf(((lo & 0x0F00_0000) >> 20) | ((lo & 0x0F00_0000) >> 24),
            ((lo & 0x000F_0000) >> 12) | ((lo & 0x000F_0000) >> 16),
            ((lo & 0x0000_0F00) >> 4) | ((lo & 0x0000_0F00) >> 8))
  }

  function Expand5Rgb(r: bv32, g: bv32, b: bv32): Rgb
    requires !OutOfRange(r) && !OutOfRange(g) && !OutOfRange(b)
  {
    RgbOf(Expand5(r), Expand5(g), Expand5(b))
  }

  /** The base colour of a half in differential mode: five bits a channel. */
  function DifferentialBase(lo: bv32, half: nat): Rgb
    requires half < 2 && ModeOf(lo) == Differential
  {
    if half == 0 then Expand5Rgb(Red0(lo), Green0(lo), Blue0(lo))
    else Expand5Rgb(Red1(lo), Green1(lo), Blue1(lo))
  }

  function EtcBase(lo: bv32, half: nat): Rgb
    requires half < 2
    requires ModeOf(lo) == Individual || ModeOf(lo) == Differential
  {
    if ModeOf(lo) == Differential then DifferentialBase(lo, half) else IndividualBase(lo, half)
  }

  /** tcw: the modifier table of a half. */
  function TableWord(lo: bv32, half: nat): bv32
    requires half < 2
  {
    if half == 0 then (lo & 0xE0) >> 5 else (lo & 0x1C) >> 2
  }

  function TableOf(lo: bv32, half: nat): nat
    requires half < 2
    ensures TableOf(lo, half) < 8
  {
    CodewordOf(TableWord(lo, half))
  }

  function FlipOf(lo: bv32): nat {
    if lo & 0x1 != 0 then 1 else 0
  }

  function EtcPixel(lo: bv32, hi: bv32, i: nat, j: nat): Pixel
    requires i < 4 && j < 4
    requires ModeOf(lo) == Individual || ModeOf(lo) == Differential
  {
    var half := HalfOf(FlipOf(lo), i, j);
    Opaque(Shifted(EtcBase(lo, half), Modifiers(TableOf(lo, half))[IndexOf(hi, 4 * i + j)]))
  }

  /** The pixel in column i and row j of the decoded block. */
  function DecodedPixel(lo: bv32, hi: bv32, i: nat, j: nat): Pixel
    requires i < 4 && j < 4
  {
    match ModeOf(lo)
    case ModeT => Opaque(TPalette(lo)[IndexOf(hi, 4 * i + j)])
    case ModeH => Opaque(HPalette(lo)[IndexOf(hi, 4 * i + j)])
    case ModePlanar => PlanarPixel(lo, hi, i, j)
    case _ => EtcPixel(lo, hi, i, j)
  }

  /** The pixel in column i and row j of the block stored as word d. */
  function PixelOf(d: bv64, i: nat, j: nat): Pixel
    requires i < 4 && j < 4
  {
    var e := ConvertByteOrder(d);
    DecodedPixel(Lo(e), Hi(e), i, j)
  }
}
