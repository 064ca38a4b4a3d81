/** PNG row filters: the Sub, Average and Paeth reconstruction of sections 9.2 and 9.4 of the PNG
    specification, byte by byte, and the SSE2 row loops of libpng's filter_sse2_intrinsics.c, which
    work in place on whole pixels of 3 or 4 bytes. */
module PngFilters {
  import opened Pixels

  datatype Filter = Sub | Average | Paeth

  // ---------- the specification ----------

  /** The predictor of section 9.4: whichever of a, b, c is nearest to a + b - c, in that order. */
  function PaethPredictor(a: byte, b: byte, c: byte): byte {
    var p := a + b - c;
    var (pa, pb, pc) := (Abs(p - a), Abs(p - b), Abs(p - c));
    if pa <= pb && pa <= pc then a else if pb <= pc then b else c
  }

  /** What a filter predicts from the byte to the left, the one above and the one above that. */
  function Predict(filter: Filter, a: byte, b: byte, c: byte): byte {
    match filter
    case Sub => a
    case Average => (a + b) / 2
    case Paeth => PaethPredictor(a, b, c)
  }

  /** Byte x of the row reconstructed from filt, with bpp bytes a pixel and the row above it; bytes to
      the left of the row count as 0. */
  function Recon(filter: Filter, bpp: nat, filt: seq<byte>, prior: seq<byte>, x: nat): byte
    requires 1 <= bpp && x < |filt| <= |prior|
    decreases x
  {
    var a := if x < bpp then 0 else Recon(filter, bpp, filt, prior, x - bpp);
    var c := if x < bpp then 0 else prior[x - bpp];
    (filt[x] + Predict(filter, a, prior[x], c)) % 256
  }

  /** Byte x of a row after the filter was applied to it. */
  function Filtered(filter: Filter, bpp: nat, orig: seq<byte>, prior: seq<byte>, x: nat): byte
    requires 1 <= bpp && x < |orig| <= |prior|
  {
    var a := if x < bpp then 0 else orig[x - bpp];
    var c := if x < bpp then 0 else prior[x - bpp];
    (orig[x] - Predict(filter, a, prior[x], c)) % 256
  }

  function FilterRow(filter: Filter, bpp: nat, orig: seq<byte>, prior: seq<byte>): (filt: seq<byte>)
    requires 1 <= bpp && |orig| <= |prior|
    ensures |filt| == |orig|
  {
    seq(|orig|, x requires 0 <= x < |orig| => Filtered(filter, bpp, orig, prior, x))
  }

  lemma AddBack(orig: byte, p: byte)
    ensures ((orig - p) % 256 + p) % 256 == orig
  {
  }

  /** Reconstruction inverts the filter. */
  lemma {:induction false} ReconInvertsFilter(filter: Filter, bpp: nat, orig: seq<byte>, prior: seq<byte>, x: nat)
    requires 1 <= bpp && x < |orig| <= |prior|
    ensures Recon(filter, bpp, FilterRow(filter, bpp, orig, prior), prior, x) == orig[x]
    decreases x
  {
    hide Predict;
    var a := if x < bpp then 0 else orig[x - bpp];
    var c := if x < bpp then 0 else prior[x - bpp];
    AddBack(orig[x], Predict(filter, a, prior[x], c));
    if x >= bpp {
      ReconInvertsFilter(filter, bpp, orig, prior, x - bpp);
    }
  }

  // ---------- registers ----------

  /** The four lanes of a register that matter. */
  datatype Lanes = Lanes(l0: byte, l1: byte, l2: byte, l3: byte)

  function Zero(): Lanes {
    Lanes(0, 0, 0, 0)
  }

  /** _mm_add_epi8 and _mm_sub_epi8 on one lane. */
  function Add8(x: byte, y: byte): byte { (x + y) % 256 }

  function Sub8(x: byte, y: byte): byte { (x - y) % 256 }

  /** _mm_avg_epu8, which rounds up. */
  function Avg8(a: byte, b: byte): byte { (a + b + 1) / 2 }

  /** The lowest bit of a xor b. */
  function LowXor(a: byte, b: byte): byte {
    if a % 2 == b % 2 then 0 else 1
  }

  /** The truncating average made of the rounding one. */
  function AverageLane(a: byte, b: byte): byte {
    Sub8(Avg8(a, b), LowXor(a, b))
  }

  /** The Paeth choice in 16-bit lanes. */
  function PaethLane(a: byte, b: byte, c: byte): byte {
    var pa := b - c;
    var pb := a - c;
    var pc := pa + pb;
    var smallest := Min(Abs(pc), Min(Abs(pa), Abs(pb)));
    if smallest == Abs(pa) then a else if smallest == Abs(pb) then b else c
  }

  function PredictLane(filter: Filter, a: byte, b: byte, c: byte): byte {
    match filter
    case Sub => a
    case Average => AverageLane(a, b)
    case Paeth => PaethLane(a, b, c)
  }

  /** The lanes compute what the specification says. */
  lemma LanePredicts(filter: Filter, a: byte, b: byte, c: byte)
    ensures PredictLane(filter, a, b, c) == Predict(filter, a, b, c)
  {
  }

  /** One turn of a loop: d is what was loaded, a the pixel to the left, b above, c above that. */
  function Turn(filter: Filter, a: Lanes, b: Lanes, c: Lanes, d: Lanes): Lanes {
    Lanes(Add8(d.l0, PredictLane(filter, a.l0, b.l0, c.l0)), Add8(d.l1, PredictLane(filter, a.l1, b.l1, c.l1)),
          Add8(d.l2, PredictLane(filter, a.l2, b.l2, c.l2)), Add8(d.l3, PredictLane(filter, a.l3, b.l3, c.l3)))
  }

  function Load4(s: seq<byte>, at: nat): Lanes
    requires at + 4 <= |s|
  {
    Lanes(s[at], s[at + 1], s[at + 2], s[at + 3])
  }

  function Load3(s: seq<byte>, at: nat): Lanes
    requires at + 3 <= |s|
  {
    Lanes(s[at], s[at + 1], s[at + 2], 0)
  }

  method Store3(row: array<byte>, at: nat, v: Lanes)
    requires at + 3 <= row.Length
    modifies row
    ensures row[..] == old(row[..at]) + [v.l0, v.l1, v.l2] + old(row[at + 3..])
  {
    row[at], row[at + 1], row[at + 2] := v.l0, v.l1, v.l2;
  }

  method Store4(row: array<byte>, at: nat, v: Lanes)
    requires at + 4 <= row.Length
    modifies row
    ensures row[..] == old(row[..at]) + [v.l0, v.l1, v.l2, v.l3] + old(row[at + 4..])
  {
    row[at], row[at + 1], row[at + 2], row[at + 3] := v.l0, v.l1, v.l2, v.l3;
  }

  // ---------- the loops ----------

  /** Lane i of a pixel register holds the reconstructed byte of the pixel before at, or 0. */
  ghost predicate HoldsLeft(filter: Filter, bpp: nat, filt: seq<byte>, prior: seq<byte>, at: nat, d: Lanes)
    requires 3 <= bpp <= 4 && at <= |filt| <= |prior|
  {
    if at < bpp then d.l0 == 0 && d.l1 == 0 && d.l2 == 0 && (bpp == 4 ==> d.l3 == 0)
    else
      && d.l0 == Recon(filter, bpp, filt, prior, at - bpp) && d.l1 == Recon(filter, bpp, filt, prior, at - bpp + 1)
      && d.l2 == Recon(filter, bpp, filt, prior, at - bpp + 2)
      && (bpp == 4 ==> d.l3 == Recon(filter, bpp, filt, prior, at - bpp + 3))
  }

  /** The same for the row above. */
  ghost predicate HoldsAboveLeft(bpp: nat, prior: seq<byte>, at: nat, b: Lanes)
    requires 3 <= bpp <= 4 && at <= |prior|
  {
    if at < bpp then b.l0 == 0 && b.l1 == 0 && b.l2 == 0 && (bpp == 4 ==> b.l3 == 0)
    else
      && b.l0 == prior[at - bpp] && b.l1 == prior[at - bpp + 1] && b.l2 == prior[at - bpp + 2]
      && (bpp == 4 ==> b.l3 == prior[at - bpp + 3])
  }

  /** What a loop has made of the row after at bytes. */
  ghost predicate DoneUpTo(filter: Filter, bpp: nat, filt: seq<byte>, prior: seq<byte>, at: nat, now: seq<byte>)
    requires 3 <= bpp <= 4 && at <= |filt| <= |prior|
  {
    && |now| == |filt|
    && (forall x :: 0 <= x < at ==> now[x] == Recon(filter, bpp, filt, prior, x))
    && (forall x :: at <= x < |now| ==> now[x] == filt[x])
  }

  lemma LaneReconstructs(filter: Filter, bpp: nat, filt: seq<byte>, prior: seq<byte>, x: nat, a: byte, c: byte)
    requires 1 <= bpp && x < |filt| <= |prior|
    requires a == (if x < bpp then 0 else Recon(filter, bpp, filt, prior, x - bpp))
    requires c == (if x < bpp then 0 else prior[x - bpp])
    ensures Add8(filt[x], PredictLane(filter, a, prior[x], c)) == Recon(filter, bpp, filt, prior, x)
  {
    hide Predict, PredictLane;
    LanePredicts(filter, a, prior[x], c);
  }

  lemma FirstPixel(bpp: nat, at: nat)
    requires 3 <= bpp <= 4 && at % bpp == 0
    ensures at < bpp ==> at == 0
  {
  }

  lemma TurnReconstructs(filter: Filter, bpp: nat, filt: seq<byte>, prior: seq<byte>, at: nat,
                         a: Lanes, b: Lanes, c: Lanes, d: Lanes)
    requires 3 <= bpp <= 4 && at % bpp == 0 && at + bpp <= |filt| <= |prior|
    requires HoldsLeft(filter, bpp, filt, prior, at, a) && HoldsAboveLeft(bpp, prior, at, c)
    requires b.l0 == prior[at] && b.l1 == prior[at + 1] && b.l2 == prior[at + 2] && (bpp == 4 ==> b.l3 == prior[at + 3])
    requires d.l0 == filt[at] && d.l1 == filt[at + 1] && d.l2 == filt[at + 2] && (bpp == 4 ==> d.l3 == filt[at + 3])
    ensures HoldsLeft(filter, bpp, filt, prior, at + bpp, Turn(filter, a, b, c, d))
    ensures HoldsAboveLeft(bpp, prior, at + bpp, b)
  {
    hide PredictLane, Recon, Add8;
    FirstPixel(bpp, at);
    LaneReconstructs(filter, bpp, filt, prior, at, a.l0, c.l0);
    LaneReconstructs(filter, bpp, filt, prior, at + 1, a.l1, c.l1);
    LaneReconstructs(filter, bpp, filt, prior, at + 2, a.l2, c.l2);
    if bpp == 4 {
      LaneReconstructs(filter, bpp, filt, prior, at + 3, a.l3, c.l3);
    }
  }

  /** png_read_filter_row_sub3_sse2, _avg3_sse2 and _paeth3_sse2. All but the last pixel are loaded with
      a byte of the next one, which lands in a lane that is never stored. */
  method ReadFilterRow3(filter: Filter, row: array<byte>, prev: seq<byte>)
    requires row.Length % 3 == 0 && row.Length <= |prev|
    modifies row
    ensures forall x :: 0 <= x < row.Length ==> row[x] == Recon(filter, 3, old(row[..]), prev, x)
  {
    hide Recon, Turn, HoldsLeft, HoldsAboveLeft;
    ghost var filt := row[..];
    var a, b, c, d := Zero(), Zero(), Zero(), Zero();
    var at, rb := 0, row.Length;
    NothingLeft(filter, 3, filt, prev);
    while rb >= 4
      invariant 0 <= rb && at + rb == row.Length && at % 3 == 0
      invariant HoldsLeft(filter, 3, filt, prev, at, d) && HoldsAboveLeft(3, prev, at, b)
      invariant DoneUpTo(filter, 3, filt, prev, at, row[..])
    {
      c, b := b, Load4(prev, at);
      a, d := d, Load4(row[..], at);
      TurnReconstructs(filter, 3, filt, prev, at, a, b, c, d);
      d := Turn(filter, a, b, c, d);
      Store3(row, at, d);
      ThreeStored(filter, filt, prev, at, d);
      at := at + 3;
      rb := rb - 3;
    }
    if rb > 0 {
      c, b := b, Load3(prev, at);
      a, d := d, Load3(row[..], at);
      TurnReconstructs(filter, 3, filt, prev, at, a, b, c, d);
      d := Turn(filter, a, b, c, d);
      Store3(row, at, d);
      ThreeStored(filter, filt, prev, at, d);
      at := at + 3;
    }
    assert DoneUpTo(filter, 3, filt, prev, row.Length, row[..]);
  }

  lemma NothingLeft(filter: Filter, bpp: nat, filt: seq<byte>, prior: seq<byte>)
    requires 3 <= bpp <= 4 && |filt| <= |prior|
    ensures HoldsLeft(filter, bpp, filt, prior, 0, Zero()) && HoldsAboveLeft(bpp, prior, 0, Zero())
  {
  }

  lemma ThreeStored(filter: Filter, filt: seq<byte>, prior: seq<byte>, at: nat, d: Lanes)
    requires at + 3 <= |filt| <= |prior| && HoldsLeft(filter, 3, filt, prior, at + 3, d)
    ensures d.l0 == Recon(filter, 3, filt, prior, at) && d.l1 == Recon(filter, 3, filt, prior, at + 1)
    ensures d.l2 == Recon(filter, 3, filt, prior, at + 2)
  {
  }

  lemma FourStored(filter: Filter, filt: seq<byte>, prior: seq<byte>, at: nat, d: Lanes)
    requires at + 4 <= |filt| <= |prior| && HoldsLeft(filter, 4, filt, prior, at + 4, d)
    ensures d.l0 == Recon(filter, 4, filt, prior, at) && d.l1 == Recon(filter, 4, filt, prior, at + 1)
    ensures d.l2 == Recon(filter, 4, filt, prior, at + 2) && d.l3 == Recon(filter, 4, filt, prior, at + 3)
  {
  }

  /** png_read_filter_row_sub4_sse2, _avg4_sse2 and _paeth4_sse2. */
  method ReadFilterRow4(filter: Filter, row: array<byte>, prev: seq<byte>)
    requires row.Length % 4 == 0 && row.Length <= |prev|
    modifies row
    ensures forall x :: 0 <= x < row.Length ==> row[x] == Recon(filter, 4, old(row[..]), prev, x)
  {
    hide Recon, Turn, HoldsLeft, HoldsAboveLeft;
    ghost var filt := row[..];
    var a, b, c, d := Zero(), Zero(), Zero(), Zero();
    var at, rb := 0, row.Length + 4;
    NothingLeft(filter, 4, filt, prev);
    while rb > 4
      invariant 4 <= rb && at + rb == row.Length + 4 && at % 4 == 0
      invariant HoldsLeft(filter, 4, filt, prev, at, d) && HoldsAboveLeft(4, prev, at, b)
      invariant DoneUpTo(filter, 4, filt, prev, at, row[..])
    {
      c, b := b, Load4(prev, at);
      a, d := d, Load4(row[..], at);
      TurnReconstructs(filter, 4, filt, prev, at, a, b, c, d);
      d := Turn(filter, a, b, c, d);
      Store4(row, at, d);
      FourStored(filter, filt, prev, at, d);
      at := at + 4;
      rb := rb - 4;
    }
    assert DoneUpTo(filter, 4, filt, prev, row.Length, row[..]);
  }
}
