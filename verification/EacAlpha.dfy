/** EAC alpha: the scalar encoder ProcessAlpha_ETC2 of ProcessRGB.cpp, and the alpha the decoder of
    BlockData.cpp reads from its words. */
module EacAlpha {
  import opened Words
  import opened Pixels
  import opened Tables

  // ---------- what a word means ----------

  function AlphaBase(w: bv64): bv64 { w >> 56 }

  function AlphaMul(w: bv64): bv64 { (w >> 52) & 0xF }

  function AlphaRow(w: bv64): bv64 { (w >> 48) & 0xF }

  /** The three-bit code at bit s. */
  function CodeAt(w: bv64, s: nat): bv64
    requires s <= 45
  {
    ReadAt(w, s as bv6)
  }

  function ReadAt(w: bv64, s: bv6): bv64 { (w >> s) & 0x7 }

  function OrAt(w: bv64, v: bv64, s: bv6): bv64 { w | (v << s) }

  function ByteInt(x: bv64): byte
    requires x < 256
  {
    (x as bv8) as int
  }

  lemma ByteIntWidths(x: bv64)
    requires x < 256
    ensures x < 16 ==> ByteInt(x) < 16
    ensures x < 8 ==> ByteInt(x) < 8
  {
    ByteLess(x as bv8, 16);
    ByteLess(x as bv8, 8);
  }

  lemma FieldWidths(w: bv64, s: nat)
    requires s <= 45
    ensures AlphaBase(w) < 256 && AlphaMul(w) < 16 && AlphaRow(w) < 16 && CodeAt(w, s) < 8
  {
  }

  /** The value of modifier j of a row around mid, scaled and clamped. */
  function Reconstructed(mid: int, mul: int, row: nat, j: nat): byte
    requires row < 16 && j < 8
  {
    ClampU8(mid + AlphaModifiers(row)[j] * mul)
  }

  function BaseOf(w: bv64): byte {
    FieldWidths(w, 0);
    ByteInt(AlphaBase(w))
  }

  function MulOf(w: bv64): byte {
    FieldWidths(w, 0);
    ByteInt(AlphaMul(w))
  }

  function RowOf(w: bv64): (row: nat)
    ensures row < 16
  {
    FieldWidths(w, 0);
    ByteIntWidths(AlphaRow(w));
    ByteInt(AlphaRow(w))
  }

  function CodeOf(w: bv64, s: nat): (code: nat)
    requires s <= 45
    ensures code < 8
  {
    FieldWidths(w, s);
    ByteIntWidths(CodeAt(w, s));
    ByteInt(CodeAt(w, s))
  }

  /** The alpha of the pixel in column i and row j, for a word whose bytes are in order. */
  function AlphaOf(w: bv64, i: nat, j: nat): byte
    requires i < 4 && j < 4
  {
    Reconstructed(BaseOf(w), MulOf(w), RowOf(w), CodeOf(w, 45 - j * 3 - i * 12))
  }

  // ---------- packing ----------

  function Head(mid: bv64, mul: bv64, row: bv64): bv64 {
    (mid << 56) | (mul << 52) | (row << 48)
  }

  function PutCode(w: bv64, v: bv64, s: nat): bv64
    requires s <= 45
  {
    OrAt(w, v, s as bv6)
  }

  /** The word after n codes, the first one highest. */
  function Packed(head: bv64, codes: seq<nat>, n: nat): bv64
    requires n <= |codes| == 16 && forall i :: 0 <= i < 16 ==> codes[i] < 8
  {
    if n == 0 then head else PutCode(Packed(head, codes, n - 1), B64(codes[n - 1]), 45 - 3 * (n - 1))
  }

  lemma HeadFields(mid: bv64, mul: bv64, row: bv64)
    requires mid < 256 && mul < 16 && row < 16
    ensures var w := Head(mid, mul, row); AlphaBase(w) == mid && AlphaMul(w) == mul && AlphaRow(w) == row
  {
  }

  lemma HeadHasNoCodes(mid: bv64, mul: bv64, row: bv64, s: bv6)
    requires mid < 256 && mul < 16 && row < 16 && s <= 45
    ensures ReadAt(Head(mid, mul, row), s) == 0
  {
  }

  lemma BitsSeparate(w: bv64, v: bv64, s: bv6, k: bv6)
    requires v < 8 && s <= 45 && k <= 45 && (s + 3 <= k || k + 3 <= s)
    ensures ((w | (v << s)) >> k) & 0x7 == (w >> k) & 0x7
  {
  }

  lemma CodeSeparate(w: bv64, v: bv64, s: bv6, k: bv6)
    requires v < 8 && s <= 45 && k <= 45 && (s + 3 <= k || k + 3 <= s)
    ensures ReadAt(OrAt(w, v, s), k) == ReadAt(w, k)
  {
    BitsSeparate(w, v, s, k);
  }

  lemma CodeStored(w: bv64, v: bv64, s: bv6)
    requires v < 8 && s <= 45 && ReadAt(w, s) == 0
    ensures ReadAt(OrAt(w, v, s), s) == v
  {
  }

  function Upper(w: bv64): bv64 { w >> 48 }

  lemma CodeKeepsHead(w: bv64, v: bv64, s: bv6)
    requires v < 8 && s <= 45
    ensures Upper(OrAt(w, v, s)) == Upper(w)
  {
  }

  lemma SlotRange(p: nat)
    requires p < 16
    ensures 0 <= 45 - 3 * p <= 45 && ((45 - 3 * p) as bv6) <= 45
  {
    Round6(45 - 3 * p);
    SixLess(((45 - 3 * p) as bv6), 46);
  }

  lemma SixLess(b: bv6, c: bv6)
    ensures (b as int < c as int) == (b < c)
  {
  }

  lemma SlotsApart(p: nat, q: nat)
    requires q < p < 16
    ensures ((45 - 3 * p) as bv6) + 3 <= ((45 - 3 * q) as bv6) <= 45
  {
    SlotRange(p);
    SlotRange(q);
    Round6(45 - 3 * p);
    Round6(45 - 3 * q);
    ThreeApart(((45 - 3 * p) as bv6), ((45 - 3 * q) as bv6));
  }

  lemma ThreeApart(b: bv6, c: bv6)
    requires b as int + 3 <= c as int && b <= 45
    ensures b + 3 <= c
  {
    SixLess(b + 2, c);
  }

  /** After n codes, the slots of the first n hold them, the rest are empty, the head is untouched. */
  lemma {:induction false} PackedCodes(mid: bv64, mul: bv64, row: bv64, codes: seq<nat>, n: nat, p: nat)
    requires mid < 256 && mul < 16 && row < 16
    requires n <= 16 == |codes| && p < 16 && forall i :: 0 <= i < 16 ==> codes[i] < 8
    ensures CodeAt(Packed(Head(mid, mul, row), codes, n), 45 - 3 * p) == if p < n then B64(codes[p]) else 0
    decreases n
  {
    hide Head, B64, ReadAt, PutCode;
    if n == 0 {
      SlotRange(p);
      HeadHasNoCodes(mid, mul, row, (45 - 3 * p) as bv6);
    } else {
      PackedCodes(mid, mul, row, codes, n - 1, p);
      CodeWidth(codes[n - 1]);
      var w := Packed(Head(mid, mul, row), codes, n - 1);
      PutOneCode(w, B64(codes[n - 1]), n - 1, p);
    }
  }

  lemma CodeWidth(c: nat)
    requires c < 8
    ensures B64(c) < 8 && B64(c) < 256 && ByteInt(B64(c)) == c
  {
    WordLess(c, 8);
    ByteOfSmall(c);
  }

  lemma NibbleWidth(c: nat)
    requires c < 16
    ensures B64(c) < 16
  {
    WordLess(c, 16);
  }

  lemma ByteOfSmall(c: nat)
    requires c < 256
    ensures B64(c) < 256 && ByteInt(B64(c)) == c
  {
    Byte(c);
    BackToByte(c as bv8);
  }

  lemma BackToByte(b: bv8)
    ensures (b as bv64) < 256 && ((b as bv64) as bv8) == b
  {
  }

  lemma PutOneCode(w: bv64, v: bv64, n: nat, p: nat)
    requires v < 8 && n < 16 && p < 16 && (p == n ==> CodeAt(w, 45 - 3 * n) == 0)
    ensures CodeAt(PutCode(w, v, 45 - 3 * n), 45 - 3 * p) == if p == n then v else CodeAt(w, 45 - 3 * p)
  {
    hide ReadAt, OrAt;
    SlotRange(n);
    SlotRange(p);
    if p == n {
      CodeStored(w, v, (45 - 3 * n) as bv6);
    } else if p < n {
      SlotsApart(n, p);
      CodeSeparate(w, v, (45 - 3 * n) as bv6, (45 - 3 * p) as bv6);
    } else {
      SlotsApart(p, n);
      CodeSeparate(w, v, (45 - 3 * n) as bv6, (45 - 3 * p) as bv6);
    }
  }

  lemma UpperFields(w: bv64, x: bv64)
    requires Upper(w) == Upper(x)
    ensures AlphaBase(w) == AlphaBase(x) && AlphaMul(w) == AlphaMul(x) && AlphaRow(w) == AlphaRow(x)
  {
  }

  lemma PutKeepsUpper(w: bv64, v: bv64, n: nat)
    requires v < 8 && n < 16
    ensures Upper(PutCode(w, v, 45 - 3 * n)) == Upper(w)
  {
    hide OrAt, Upper;
    SlotRange(n);
    CodeKeepsHead(w, v, (45 - 3 * n) as bv6);
  }

  lemma {:induction false} PackedUpper(head: bv64, codes: seq<nat>, n: nat)
    requires n <= 16 == |codes| && forall i :: 0 <= i < 16 ==> codes[i] < 8
    ensures Upper(Packed(head, codes, n)) == Upper(head)
    decreases n
  {
    hide Upper, PutCode, B64;
    if n > 0 {
      PackedUpper(head, codes, n - 1);
      CodeWidth(codes[n - 1]);
      PutKeepsUpper(Packed(head, codes, n - 1), B64(codes[n - 1]), n - 1);
    }
  }

  /** The word for a mid value, a multiplier, a row and a code for every pixel. */
  function AlphaWord(mid: byte, mul: nat, row: nat, codes: seq<nat>): bv64
    requires mul < 16 && row < 16 && |codes| == 16 && forall i :: 0 <= i < 16 ==> codes[i] < 8
  {
    Packed(Head(B64(mid), B64(mul), B64(row)), codes, 16)
  }

  /** The decoder reads back every part of the word. */
  lemma AlphaWordReadsBack(mid: byte, mul: nat, row: nat, codes: seq<nat>, p: nat)
    requires mul < 16 && row < 16 && |codes| == 16 && p < 16 && forall i :: 0 <= i < 16 ==> codes[i] < 8
    ensures var w := AlphaWord(mid, mul, row, codes);
            BaseOf(w) == mid && MulOf(w) == mul && RowOf(w) == row && CodeOf(w, 45 - 3 * p) == codes[p]
  {
    hide B64, Head, Packed, Upper, AlphaBase, AlphaMul, AlphaRow, CodeAt, ByteInt;
    ByteOfSmall(mid);
    ByteOfSmall(mul);
    ByteOfSmall(row);
    NibbleWidth(mul);
    NibbleWidth(row);
    CodeWidth(codes[p]);
    FieldWidths(AlphaWord(mid, mul, row, codes), 45 - 3 * p);
    HeadFields(B64(mid), B64(mul), B64(row));
    PackedUpper(Head(B64(mid), B64(mul), B64(row)), codes, 16);
    UpperFields(AlphaWord(mid, mul, row, codes), Head(B64(mid), B64(mul), B64(row)));
    PackedCodes(B64(mid), B64(mul), B64(row), codes, 16, p);
  }

  /** The decoder reproduces the encoder's reconstruction of every pixel. */
  lemma AlphaRoundTrip(mid: byte, mul: nat, row: nat, codes: seq<nat>, i: nat, j: nat)
    requires mul < 16 && row < 16 && |codes| == 16 && i < 4 && j < 4 && forall k :: 0 <= k < 16 ==> codes[k] < 8
    ensures AlphaOf(Bswap64(Bswap64(AlphaWord(mid, mul, row, codes))), i, j)
            == Reconstructed(mid, mul, row, codes[4 * i + j])
  {
    hide AlphaWord, BaseOf, MulOf, RowOf, CodeOf, Reconstructed, Bswap64;
    Bswap64Twice(AlphaWord(mid, mul, row, codes));
    AlphaWordReadsBack(mid, mul, row, codes, 4 * i + j);
    assert 45 - j * 3 - i * 12 == 45 - 3 * (4 * i + j);
  }

  // ---------- the search ----------

  function CodeErr(v: byte, mid: int, mul: int, row: nat, j: nat): nat
    requires row < 16 && j < 8
  {
    Sq(v - Reconstructed(mid, mul, row, j))
  }

  /** The first of the first n codes that comes closest to v. */
  function BestCode(v: byte, mid: int, mul: int, row: nat, n: nat): (k: nat)
    requires row < 16 && 1 <= n <= 8
    ensures k < n
    ensures forall j :: 0 <= j < n ==> CodeErr(v, mid, mul, row, k) <= CodeErr(v, mid, mul, row, j)
  {
    if n == 1 then 0
    else
      var k := BestCode(v, mid, mul, row, n - 1);
      if CodeErr(v, mid, mul, row, n - 1) < CodeErr(v, mid, mul, row, k) then n - 1 else k
  }

  lemma {:induction false} ExactCodeIsBest(v: byte, mid: int, mul: int, row: nat, n: nat)
    requires row < 16 && 1 <= n <= 8 && CodeErr(v, mid, mul, row, 0) == 0
    ensures BestCode(v, mid, mul, row, n) == 0
  {
    hide CodeErr;
    if n > 1 {
      ExactCodeIsBest(v, mid, mul, row, n - 1);
    }
  }

  /** The search for one pixel, with its early exit. */
  method FindCode(srcVal: byte, mid: int, mul: int, row: nat) returns (idx: nat, localErr: nat)
    requires row < 16
    ensures idx == BestCode(srcVal, mid, mul, row, 8) && localErr == CodeErr(srcVal, mid, mul, row, idx)
  {
    hide CodeErr;
    idx := 0;
    localErr := CodeErr(srcVal, mid, mul, row, 0);
    if localErr != 0 {
      for j := 1 to 8
        invariant idx == BestCode(srcVal, mid, mul, row, j) && localErr == CodeErr(srcVal, mid, mul, row, idx)
      {
        var errProbe := CodeErr(srcVal, mid, mul, row, j);
        if errProbe < localErr {
          localErr := errProbe;
          idx := j;
        }
      }
    } else {
      ExactCodeIsBest(srcVal, mid, mul, row, 8);
    }
  }

  datatype Extremes = Extremes(min: byte, max: byte)

  ghost predicate AreExtremes(src: Alphas, e: Extremes) {
    && (forall i :: 0 <= i < 16 ==> e.min <= src[i] <= e.max)
    && e.min in src && e.max in src
  }

  function MidOf(e: Extremes): byte
    requires e.min <= e.max
  {
    e.min + (e.max - e.min) / 2
  }

  /** The multiplier that stretches a row over the range of the block. */
  function MulFor(e: Extremes, row: nat): nat
    requires row < 16 && e.min <= e.max
  {
    Scaled(e.max - e.min, AlphaRange(row))
  }

  function Scaled(range: nat, reciprocal: nat): nat {
    ProductIsNatural(range, reciprocal);
    range * reciprocal / 0x10000 + 1
  }

  lemma ProductIsNatural(x: nat, y: nat)
    ensures x * y >= 0
  {
  }

  lemma ScaledBound(range: nat, reciprocal: nat)
    requires range <= 255 && reciprocal <= 3655
    ensures 1 <= Scaled(range, reciprocal) <= 15
  {
    ProductBound(range, reciprocal);
  }

  lemma ProductBound(x: nat, y: nat)
    requires x <= 255 && y <= 3655
    ensures 0 <= x * y <= 255 * 3655
  {
    assert x * y <= 255 * y;
  }

  lemma MulInRange(e: Extremes, row: nat)
    requires row < 16 && e.min <= e.max
    ensures 1 <= MulFor(e, row) <= 15
  {
    hide AlphaRange, Scaled;
    AlphaSpread(row);
    ScaledBound(e.max - e.min, AlphaRange(row));
  }

  /** Squared error of the first n pixels when row r is used with its best codes. */
  function RowError(src: Alphas, e: Extremes, row: nat, n: nat): nat
    requires row < 16 && e.min <= e.max && n <= 16
  {
    if n == 0 then 0
    else
      var v := src[n - 1];
      RowError(src, e, row, n - 1)
      + CodeErr(v, MidOf(e), MulFor(e, row), row, BestCode(v, MidOf(e), MulFor(e, row), row, 8))
  }

  function BestCodes(src: Alphas, e: Extremes, row: nat): (codes: seq<nat>)
    requires row < 16 && e.min <= e.max
    ensures |codes| == 16 && forall i :: 0 <= i < 16 ==> codes[i] < 8
  {
    seq(16, i requires 0 <= i < 16 => BestCode(src[i], MidOf(e), MulFor(e, row), row, 8))
  }

  /** Squared error of the first n pixels under any codes. */
  function AlphaCost(src: Alphas, mid: int, mul: int, row: nat, codes: seq<nat>, n: nat): nat
    requires row < 16 && n <= 16 == |codes| && forall i :: 0 <= i < 16 ==> codes[i] < 8
  {
    if n == 0 then 0
    else AlphaCost(src, mid, mul, row, codes, n - 1) + CodeErr(src[n - 1], mid, mul, row, codes[n - 1])
  }

  lemma {:induction false} RowErrorIsLeast(src: Alphas, e: Extremes, row: nat, codes: seq<nat>, n: nat)
    requires row < 16 && e.min <= e.max && n <= 16 == |codes| && forall i :: 0 <= i < 16 ==> codes[i] < 8
    ensures RowError(src, e, row, n) <= AlphaCost(src, MidOf(e), MulFor(e, row), row, codes, n)
    ensures RowError(src, e, row, n) == AlphaCost(src, MidOf(e), MulFor(e, row), row, BestCodes(src, e, row), n)
  {
    hide CodeErr, MidOf, MulFor;
    if n > 0 {
      RowErrorIsLeast(src, e, row, codes, n - 1);
    }
  }

  method FindExtremes(src: Alphas) returns (e: Extremes)
    ensures AreExtremes(src, e)
  {
    var min, max := src[0], src[0];
    for i := 1 to 16
      invariant min in src && max in src
      invariant forall k :: 0 <= k < i ==> min <= src[k] <= max
    {
      if min > src[i] {
        min := src[i];
      } else if max < src[i] {
        max := src[i];
      }
    }
    e := Extremes(min, max);
  }

  /** One row of the search: its codes go to buf. */
  method FitRow(src: Alphas, e: Extremes, row: nat, buf: array2<nat>) returns (rangeErr: nat)
    requires row < 16 && e.min <= e.max && buf.Length0 == buf.Length1 == 16
    modifies buf
    ensures rangeErr == RowError(src, e, row, 16)
    ensures forall i :: 0 <= i < 16 ==> buf[row, i] == BestCodes(src, e, row)[i]
    ensures forall r, i :: 0 <= r < 16 && 0 <= i < 16 && r != row ==> buf[r, i] == old(buf[r, i])
  {
    hide CodeErr, BestCode, MidOf, MulFor;
    var mul := MulFor(e, row);
    rangeErr := 0;
    for i := 0 to 16
      invariant rangeErr == RowError(src, e, row, i)
      invariant forall k :: 0 <= k < i ==> buf[row, k] == BestCodes(src, e, row)[k]
      invariant forall r, k :: 0 <= r < 16 && 0 <= k < 16 && r != row ==> buf[r, k] == old(buf[r, k])
    {
      var idx, localErr := FindCode(src[i], MidOf(e), mul, row);
      buf[row, i] := idx;
      rangeErr := rangeErr + localErr;
    }
  }

  const INT_MAX: nat := 0x7FFF_FFFF

  lemma CodeErrBound(v: byte, mid: int, mul: int, row: nat, j: nat)
    requires row < 16 && j < 8
    ensures CodeErr(v, mid, mul, row, j) <= 65025
  {
    hide Reconstructed;
    SquareMonotone(Abs(v - Reconstructed(mid, mul, row, j)), 255);
  }

  lemma {:induction false} RowErrorBound(src: Alphas, e: Extremes, row: nat, n: nat)
    requires row < 16 && e.min <= e.max && n <= 16
    ensures RowError(src, e, row, n) <= 65025 * n
  {
    hide BestCode, MidOf, MulFor, CodeErr;
    if n > 0 {
      RowErrorBound(src, e, row, n - 1);
      var v := src[n - 1];
      CodeErrBound(v, MidOf(e), MulFor(e, row), row, BestCode(v, MidOf(e), MulFor(e, row), row, 8));
    }
  }

  /** The loop over the rows, left as soon as a row fits exactly. */
  method FitAlpha(src: Alphas, e: Extremes) returns (sel: nat, selmul: nat, buf: array2<nat>)
    requires e.min <= e.max
    ensures sel < 16 && selmul == MulFor(e, sel)
    ensures forall r :: 0 <= r < 16 ==> RowError(src, e, sel, 16) <= RowError(src, e, r, 16)
    ensures forall r :: 0 <= r < sel ==> RowError(src, e, sel, 16) < RowError(src, e, r, 16)
    ensures fresh(buf) && buf.Length0 == buf.Length1 == 16
    ensures forall i :: 0 <= i < 16 ==> buf[sel, i] == BestCodes(src, e, sel)[i]
  {
    hide RowError, BestCodes, MulFor;
    buf := new nat[16, 16];
    var err := INT_MAX;
    sel, selmul := 0, 0;
    for r := 0 to 16
      invariant r == 0 <==> err == INT_MAX
      invariant r > 0 ==> sel < r && selmul == MulFor(e, sel) && err == RowError(src, e, sel, 16) > 0
      invariant forall q :: 0 <= q < r ==> err <= RowError(src, e, q, 16)
      invariant forall q :: 0 <= q < sel ==> err < RowError(src, e, q, 16)
      invariant forall i :: 0 <= i < 16 && r > 0 ==> buf[sel, i] == BestCodes(src, e, sel)[i]
    {
      RowErrorBound(src, e, r, 16);
      var rangeErr := FitRow(src, e, r, buf);
      if rangeErr < err {
        err := rangeErr;
        sel := r;
        selmul := MulFor(e, r);
        if err == 0 {
          return;
        }
      }
    }
  }

  /** The choice of the encoder: the first row whose best codes have the least error of all rows and
      codes under the same rule for mid and multiplier, and those codes. */
  ghost predicate IsAlphaChoice(src: Alphas, e: Extremes, row: nat, codes: seq<nat>)
  {
    && AreExtremes(src, e) && e.min <= e.max
    && row < 16 && |codes| == 16 && (forall i :: 0 <= i < 16 ==> codes[i] < 8)
    && forall r, cs :: 0 <= r < 16 && IsCodes(cs) ==>
         && AlphaCost(src, MidOf(e), MulFor(e, row), row, codes, 16)
              <= AlphaCost(src, MidOf(e), MulFor(e, r), r, cs, 16)
         && (r < row ==>
              AlphaCost(src, MidOf(e), MulFor(e, row), row, codes, 16)
                   < AlphaCost(src, MidOf(e), MulFor(e, r), r, cs, 16))
  }

  predicate IsCodes(codes: seq<nat>) {
    |codes| == 16 && forall i :: 0 <= i < 16 ==> codes[i] < 8
  }

  // ---------- how close the decoded alpha is ----------

  /** The modifiers of a row in ascending order. */
  function Rising(row: nat, k: nat): int
    requires row < 16 && k < 8
  {
    AlphaModifiers(row)[if k < 4 then 3 - k else k]
  }

  const EVEN_ROW: nat := 11 // a row without wide gaps

  /** What the gaps between the modifiers of a row stay within. */
  function GapOf(row: nat): nat {
    if row == EVEN_ROW then 3 else 7
  }

  lemma GapsOfRow(row: nat)
    requires row < 16
    ensures var ms := AlphaModifiers(row);
            ms[3] < ms[2] < ms[1] < ms[0] < ms[4] < ms[5] < ms[6] < ms[7]
    ensures var (ms, gap) := (AlphaModifiers(row), GapOf(row));
            && ms[2] - ms[3] <= gap && ms[1] - ms[2] <= gap && ms[0] - ms[1] <= gap && ms[4] - ms[0] <= gap
            && ms[5] - ms[4] <= gap && ms[6] - ms[5] <= gap && ms[7] - ms[6] <= gap
  {
  }

  lemma GapBounds(row: nat, k: nat)
    requires row < 16 && k < 7
    ensures 0 < Rising(row, k + 1) - Rising(row, k) <= GapOf(row)
  {
    hide AlphaModifiers, GapOf;
    GapsOfRow(row);
  }

  /** Whatever is at most half a gap beyond the ends is at most half a gap from some modifier. */
  lemma {:induction false} NearSomeModifier(row: nat, mul: nat, w: int, k: nat) returns (j: nat)
    requires row < 16 && k < 8
    requires (2 * Rising(row, 0) - GapOf(row)) * mul <= 2 * w <= (2 * Rising(row, k) + GapOf(row)) * mul
    ensures j < 8 && 2 * Abs(w - AlphaModifiers(row)[j] * mul) <= GapOf(row) * mul
    decreases k
  {
    hide AlphaModifiers;
    if (2 * Rising(row, k) - GapOf(row)) * mul <= 2 * w {
      j := if k < 4 then 3 - k else k;
      HalfGap(w, Rising(row, k), GapOf(row), mul);
    } else {
      GapBounds(row, k - 1);
      TimesMonotone(2 * Rising(row, k) - GapOf(row), 2 * Rising(row, k - 1) + GapOf(row), mul);
      j := NearSomeModifier(row, mul, w, k - 1);
    }
  }

  lemma HalfGap(w: int, m: int, gap: nat, mul: nat)
    requires (2 * m - gap) * mul <= 2 * w <= (2 * m + gap) * mul
    ensures 2 * Abs(w - m * mul) <= gap * mul
  {
    assert (2 * m - gap) * mul == 2 * (m * mul) - gap * mul;
    assert (2 * m + gap) * mul == 2 * (m * mul) + gap * mul;
  }

  lemma TimesMonotone(x: int, y: int, z: nat)
    requires x <= y
    ensures x * z <= y * z
  {
  }

  /** As many multipliers as the row is wide cover the range. */
  lemma MultiplierCovers(range: nat, width: nat)
    requires range <= 255 && 1 <= width <= 200
    ensures width * Scaled(range, 0x100FF / width) > range
  {
    var reciprocal := 0x100FF / width;
    var mul := Scaled(range, reciprocal);
    assert width * reciprocal > 0x100FF - width;
    assert mul * 0x10000 > range * reciprocal;
    TimesMonotone(range * reciprocal + 1, mul * 0x10000, width);
    TimesMonotone(0x10000, width * reciprocal, range);
    assert (range * reciprocal + 1) * width == range * (width * reciprocal) + width;
    assert mul * 0x10000 * width == width * mul * 0x10000;
  }

  lemma EndsAreWide(row: nat)
    requires row < 16
    ensures var width := 1 + AlphaModifiers(row)[7] - AlphaModifiers(row)[3];
            && 1 <= width <= 200
            && width <= 2 * Rising(row, 7) + GapOf(row) && 2 * Rising(row, 0) - GapOf(row) <= -width
  {
  }

  /** The multiplied row reaches both ends of the range. */
  lemma RowReaches(row: nat, range: nat)
    requires row < 16 && range <= 255
    ensures var mul := Scaled(range, AlphaRange(row));
            && (2 * Rising(row, 0) - GapOf(row)) * mul <= -2 * (range / 2)
            && 2 * (range - range / 2) <= (2 * Rising(row, 7) + GapOf(row)) * mul
  {
    hide AlphaModifiers, Rising, Scaled;
    var width := 1 + AlphaModifiers(row)[7] - AlphaModifiers(row)[3];
    var mul := Scaled(range, AlphaRange(row));
    EndsAreWide(row);
    MultiplierCovers(range, width);
    TimesMonotone(width, 2 * Rising(row, 7) + GapOf(row), mul);
    TimesMonotone(2 * Rising(row, 0) - GapOf(row), -width, mul);
  }

  /** Every row has a code close to any value of the block: within half a gap of its modifiers. */
  lemma EveryRowIsNear(e: Extremes, row: nat, v: byte) returns (j: nat)
    requires row < 16 && e.min <= v <= e.max
    ensures j < 8 && 2 * Abs(v - Reconstructed(MidOf(e), MulFor(e, row), row, j)) <= GapOf(row) * MulFor(e, row)
  {
    hide AlphaModifiers, AlphaRange, Rising, Scaled;
    var range := e.max - e.min;
    RowReaches(row, range);
    j := NearSomeModifier(row, MulFor(e, row), v - MidOf(e), 7);
    ClampIsCloser(v, MidOf(e) + AlphaModifiers(row)[j] * MulFor(e, row));
  }

  lemma ClampIsCloser(v: byte, x: int)
    ensures Abs(v - ClampU8(x)) <= Abs(v - x)
  {
  }

  /** The error a block of this range is never shown with at any pixel if the even row is used. */
  function EvenBound(range: nat): nat {
    range / 8 + 1
  }

  lemma EvenRowIsClose(e: Extremes, v: byte)
    requires e.min <= v <= e.max
    ensures var (mid, mul) := (MidOf(e), MulFor(e, EVEN_ROW));
            CodeErr(v, mid, mul, EVEN_ROW, BestCode(v, mid, mul, EVEN_ROW, 8)) <= Sq(EvenBound(e.max - e.min))
  {
    hide AlphaModifiers, Reconstructed, BestCode, MidOf, MulFor, CodeErr, Sq, EvenBound;
    var j := EveryRowIsNear(e, EVEN_ROW, v);
    EvenMultiplier(e);
    CodeErrWithin(v, MidOf(e), MulFor(e, EVEN_ROW), EVEN_ROW, j, EvenBound(e.max - e.min));
  }

  lemma CodeErrWithin(v: byte, mid: int, mul: int, row: nat, j: nat, bound: nat)
    requires row < 16 && j < 8 && Abs(v - Reconstructed(mid, mul, row, j)) <= bound
    ensures CodeErr(v, mid, mul, row, j) <= Sq(bound)
  {
    hide Reconstructed;
    SquareMonotone(Abs(v - Reconstructed(mid, mul, row, j)), bound);
  }

  lemma EvenMultiplier(e: Extremes)
    requires e.min <= e.max
    ensures 3 * MulFor(e, EVEN_ROW) <= 2 * EvenBound(e.max - e.min) + 1
  {
    hide AlphaRange;
    EvenReciprocal();
  }

  lemma EvenReciprocal()
    ensures AlphaRange(EVEN_ROW) == 3289
  {
  }

  lemma {:induction false} EvenRowError(src: Alphas, e: Extremes, n: nat)
    requires AreExtremes(src, e) && e.min <= e.max && n <= 16
    ensures RowError(src, e, EVEN_ROW, n) <= n * Sq(EvenBound(e.max - e.min))
  {
    hide CodeErr, BestCode, MidOf, MulFor, Sq;
    if n > 0 {
      EvenRowError(src, e, n - 1);
      EvenRowIsClose(e, src[n - 1]);
    }
  }

  /** Squared difference between a block and what the decoder shows for it, over the first n pixels. */
  function AlphaDistance(src: Alphas, d: bv64, n: nat): nat
    requires n <= 16
  {
    if n == 0 then 0
    else AlphaDistance(src, d, n - 1) + Sq(AlphaOf(Bswap64(d), (n - 1) / 4, (n - 1) % 4) - src[n - 1])
  }

  lemma {:induction false} DistanceIsCost(src: Alphas, d: bv64, mid: int, mul: int, row: nat, codes: seq<nat>, n: nat)
    requires row < 16 && n <= 16 == |codes| && forall i :: 0 <= i < 16 ==> codes[i] < 8
    requires forall i, j :: 0 <= i < 4 && 0 <= j < 4 ==>
               AlphaOf(Bswap64(d), i, j) == Reconstructed(mid, mul, row, codes[4 * i + j])
    ensures AlphaDistance(src, d, n) == AlphaCost(src, mid, mul, row, codes, n)
  {
    hide AlphaOf, Bswap64, Reconstructed;
    if n > 0 {
      DistanceIsCost(src, d, mid, mul, row, codes, n - 1);
      var p := n - 1;
      assert 4 * (p / 4) + p % 4 == p;
      assert AlphaOf(Bswap64(d), p / 4, p % 4) == Reconstructed(mid, mul, row, codes[4 * (p / 4) + p % 4]);
      SquareOfOpposite(src[p], Reconstructed(mid, mul, row, codes[p]));
    }
  }

  lemma SquareOfOpposite(x: int, y: int)
    ensures Sq(x - y) == Sq(y - x)
  {
  }

  lemma {:induction false} NoDistance(src: Alphas, d: bv64, n: nat)
    requires n <= 16
    requires forall i, j :: 0 <= i < 4 && 0 <= j < 4 ==> AlphaOf(Bswap64(d), i, j) == src[4 * i + j]
    ensures AlphaDistance(src, d, n) == 0
  {
    hide AlphaOf, Bswap64;
    if n > 0 {
      NoDistance(src, d, n - 1);
      assert 4 * ((n - 1) / 4) + (n - 1) % 4 == n - 1;
    }
  }

  ghost predicate LiesBetween(src: Alphas, low: byte, high: byte) {
    low <= high && forall i :: 0 <= i < 16 ==> low <= src[i] <= high
  }

  lemma WiderBound(src: Alphas, e: Extremes, low: byte, high: byte)
    requires AreExtremes(src, e) && e.min <= e.max && LiesBetween(src, low, high)
    ensures Sq(EvenBound(e.max - e.min)) <= Sq(EvenBound(high - low))
  {
    assert low <= e.min && e.max <= high;
    SquareMonotone(EvenBound(e.max - e.min), EvenBound(high - low));
  }

  /** ProcessAlpha_ETC2. A flat block is stored as its value alone; any other with a row and codes
      that no other choice beats. Either way the decoder shows what the encoder took the block to
      become: the value itself, or the encoder's own reconstruction. */
  method ProcessAlpha(src: Alphas) returns (d: bv64)
    ensures IsFlat(src) ==> forall i, j :: 0 <= i < 4 && 0 <= j < 4 ==> AlphaOf(Bswap64(d), i, j) == src[4 * i + j]
    ensures !IsFlat(src) ==> exists e, row, codes ::
              && IsAlphaChoice(src, e, row, codes)
              && 1 <= MulFor(e, row) <= 15
              && forall i, j :: 0 <= i < 4 && 0 <= j < 4 ==>
                   AlphaOf(Bswap64(d), i, j) == Reconstructed(MidOf(e), MulFor(e, row), row, codes[4 * i + j])
    ensures forall low: byte, high: byte :: LiesBetween(src, low, high) ==>
              AlphaDistance(src, d, 16) <= 16 * Sq((high - low) / 8 + 1)
  {
    hide Sq, LiesBetween, AlphaDistance;
    hide AlphaOf, Bswap64, Reconstructed, MidOf, MulFor, RowError, AlphaCost, BestCodes, AreExtremes, Packed, Head;
    var solid := CheckFlat(src);
    if solid {
      FlatRoundTrip(src[0]);
      NoDistance(src, B64(src[0]), 16);
      return B64(src[0]);
    }
    var e := FindExtremes(src);
    ExtremesOrdered(src, e);
    var sel, selmul, buf := FitAlpha(src, e);
    MulInRange(e, sel);
    ghost var codes := BestCodes(src, e, sel);
    var w := PackAlpha(MidOf(e), selmul, sel, buf, codes);
    d := Bswap64(w);
    forall r, cs | 0 <= r < 16 && IsCodes(cs)
      ensures AlphaCost(src, MidOf(e), MulFor(e, sel), sel, codes, 16)
                <= AlphaCost(src, MidOf(e), MulFor(e, r), r, cs, 16)
      ensures r < sel ==>
                AlphaCost(src, MidOf(e), MulFor(e, sel), sel, codes, 16)
                     < AlphaCost(src, MidOf(e), MulFor(e, r), r, cs, 16)
    {
      RowErrorIsLeast(src, e, sel, codes, 16);
      RowErrorIsLeast(src, e, r, cs, 16);
    }
    forall i, j | 0 <= i < 4 && 0 <= j < 4
      ensures AlphaOf(Bswap64(d), i, j) == Reconstructed(MidOf(e), MulFor(e, sel), sel, codes[4 * i + j])
    {
      AlphaRoundTrip(MidOf(e), selmul, sel, codes, i, j);
    }
    assert IsAlphaChoice(src, e, sel, codes);
    DistanceIsCost(src, d, MidOf(e), selmul, sel, codes, 16);
    RowErrorIsLeast(src, e, sel, codes, 16);
    EvenRowError(src, e, 16);
    forall low: byte, high: byte | LiesBetween(src, low, high)
      ensures AlphaDistance(src, d, 16) <= 16 * Sq((high - low) / 8 + 1)
    {
      WiderBound(src, e, low, high);
    }
  }

  lemma ExtremesOrdered(src: Alphas, e: Extremes)
    requires AreExtremes(src, e)
    ensures e.min <= e.max
  {
  }

  method CheckFlat(src: Alphas) returns (solid: bool)
    ensures solid <==> IsFlat(src)
  {
    solid := true;
    for i := 1 to 16
      invariant solid && forall k :: 0 <= k < i ==> src[k] == src[0]
    {
      if src[0] != src[i] {
        solid := false;
        return;
      }
    }
  }

  lemma FlatBits(b: bv64)
    requires b < 256
    ensures var w := Bswap64(b); AlphaBase(w) == b && AlphaMul(w) == 0
  {
  }

  /** A flat block is shown exactly: the multiplier read is 0. */
  lemma FlatRoundTrip(v: byte)
    ensures forall i, j :: 0 <= i < 4 && 0 <= j < 4 ==> AlphaOf(Bswap64(B64(v)), i, j) == v
  {
    hide Bswap64, AlphaBase, AlphaMul, ByteInt, B64, RowOf, CodeOf, AlphaModifiers;
    ByteOfSmall(v);
    ByteOfSmall(0);
    FlatBits(B64(v));
    assert B64(0) == 0 by { ZeroWord(); }
  }

  lemma ZeroWord()
    ensures B64(0) == 0
  {
  }

  /** The packing loop. */
  method PackAlpha(mid: byte, mul: nat, row: nat, buf: array2<nat>, ghost codes: seq<nat>) returns (d: bv64)
    requires mul < 16 && row < 16 && buf.Length0 == buf.Length1 == 16
    requires IsCodes(codes) && forall i :: 0 <= i < 16 ==> buf[row, i] == codes[i]
    ensures d == AlphaWord(mid, mul, row, codes)
  {
    hide Head, PutCode, B64;
    d := Head(B64(mid), B64(mul), B64(row));
    var offset := 45;
    for i := 0 to 16
      invariant offset == 45 - 3 * i
      invariant d == Packed(Head(B64(mid), B64(mul), B64(row)), codes, i)
    {
      d := PutCode(d, B64(buf[row, i]), offset);
      offset := offset - 3;
    }
  }
}
