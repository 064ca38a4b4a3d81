/** indexConversion: from the search's index word, two bits a pixel in row order, to the two
    16-bit planes in column order that every ETC2 mode stores. */
module IndexBits {
  import opened Words
  import opened ThSearch

  /** The index planes after the first n pixels in column order have been placed. */
  function Converted(w: bv32, n: nat): bv32
    requires n <= 16
  {
    if n == 0 then 0
    else Place(Converted(w, n - 1), Bit(w, Slot(n - 1)), Bit(w, Slot(n - 1) + 1), n - 1)
  }

  /** Stores the two index bits of pixel p: the low bit at p and the high bit at 16 + p. */
  function Place(w: bv32, lsb: bv32, msb: bv32, p: nat): bv32
    requires p < 16
  {
    PutBit(PutBit(w, lsb, p), msb, 16 + p)
  }

  /** The index the decoder reads for buffer pixel p, from both planes. */
  function StoredIndex(planes: bv32, p: nat): bv32
    requires p < 16
  {
    (Bit(planes, p + 16) << 1) | Bit(planes, p)
  }

  lemma BitIsBit(w: bv32, k: nat)
    requires k < 32
    ensures Bit(w, k) <= 1
  {
  }

  /** The two bits of pixel p are those put there. */
  lemma PlaceSets(w: bv32, lsb: bv32, msb: bv32, p: nat)
    requires p < 16 && lsb <= 1 && msb <= 1 && Bit(w, p) == 0 && Bit(w, 16 + p) == 0
    ensures Bit(Place(w, lsb, msb, p), p) == lsb && Bit(Place(w, lsb, msb, p), 16 + p) == msb
  {
    hide Bit, PutBit;
    var low := PutBit(w, lsb, p);
    SetBit(w, lsb, p);
    KeepBit(w, lsb, p, 16 + p);
    SetBit(low, msb, 16 + p);
    KeepBit(low, msb, 16 + p, p);
  }

  /** Every other bit is kept. */
  lemma PlaceKeeps(w: bv32, lsb: bv32, msb: bv32, p: nat, k: nat)
    requires p < 16 && k < 32 && k != p && k != 16 + p && lsb <= 1 && msb <= 1
    ensures Bit(Place(w, lsb, msb, p), k) == Bit(w, k)
  {
    hide Bit, PutBit;
    KeepBit(w, lsb, p, k);
    KeepBit(PutBit(w, lsb, p), msb, 16 + p, k);
  }

  lemma ZeroBit(k: nat)
    requires k < 32
    ensures Bit(0, k) == 0
  {
  }

  lemma {:induction false} ConvertedBits(w: bv32, n: nat, p: nat)
    requires n <= 16 && p < 16
    ensures Bit(Converted(w, n), p) == (if p < n then Bit(w, Slot(p)) else 0)
    ensures Bit(Converted(w, n), 16 + p) == (if p < n then Bit(w, Slot(p) + 1) else 0)
    decreases n
  {
    hide Bit, Place, Slot;
    if n == 0 {
      ZeroBit(p);
      ZeroBit(16 + p);
    } else {
      var (lsb, msb) := (Bit(w, Slot(n - 1)), Bit(w, Slot(n - 1) + 1));
      BitIsBit(w, Slot(n - 1));
      BitIsBit(w, Slot(n - 1) + 1);
      ConvertedBits(w, n - 1, p);
      if p == n - 1 {
        PlaceSets(Converted(w, n - 1), lsb, msb, p);
      } else {
        PlaceKeeps(Converted(w, n - 1), lsb, msb, n - 1, p);
        PlaceKeeps(Converted(w, n - 1), lsb, msb, n - 1, 16 + p);
      }
    }
  }

  /** The decoder reads for every pixel the index the search chose for it. */
  lemma ConversionKeepsIndices(w: bv32, p: nat)
    requires p < 16
    ensures StoredIndex(Converted(w, 16), p) == ChosenIndex(w, p)
  {
    hide Bit, Converted;
    ConvertedBits(w, 16, p);
  }

  /** The reading loop along row y. */
  method ReadRow(pixelIndices: bv32, y: nat, shift0: nat, lsb: array2<bv32>, msb: array2<bv32>)
    requires y < 4 && shift0 == 8 * (3 - y) && lsb != msb
    requires lsb.Length0 == lsb.Length1 == msb.Length0 == msb.Length1 == 4
    modifies lsb, msb
    ensures forall i :: 0 <= i < 4 ==>
              lsb[i, y] == Bit(pixelIndices, Slot(4 * i + y)) && msb[i, y] == Bit(pixelIndices, Slot(4 * i + y) + 1)
    ensures forall i, j :: 0 <= i < 4 && 0 <= j < 4 && j != y ==>
              lsb[i, j] == old(lsb[i, j]) && msb[i, j] == old(msb[i, j])
  {
    hide Bit, Slot;
    var shift := shift0;
    for x := 4 downto 0
      invariant shift == 8 * (3 - y) + 2 * (4 - x)
      invariant forall i :: x <= i < 4 ==>
                  lsb[i, y] == Bit(pixelIndices, Slot(4 * i + y)) && msb[i, y] == Bit(pixelIndices, Slot(4 * i + y) + 1)
      invariant forall i, j :: 0 <= i < 4 && 0 <= j < 4 && j != y ==>
                lsb[i, j] == old(lsb[i, j]) && msb[i, j] == old(msb[i, j])
    {
      SlotAt(x, y);
      lsb[x, y] := Bit(pixelIndices, shift);
      shift := shift + 1;
      msb[x, y] := Bit(pixelIndices, shift);
      shift := shift + 1;
    }
  }

  /** The reading loops: from the last pixel of the last row back to the first. */
  method ReadIndices(pixelIndices: bv32) returns (lsb: array2<bv32>, msb: array2<bv32>)
    ensures fresh(lsb) && fresh(msb) && lsb.Length0 == lsb.Length1 == msb.Length0 == msb.Length1 == 4
    ensures forall i, j :: 0 <= i < 4 && 0 <= j < 4 ==>
              lsb[i, j] == Bit(pixelIndices, Slot(4 * i + j)) && msb[i, j] == Bit(pixelIndices, Slot(4 * i + j) + 1)
  {
    hide Bit, Slot;
    lsb := new bv32[4, 4];
    msb := new bv32[4, 4];
    var shift := 0;
    for y := 4 downto 0
      invariant shift == 8 * (4 - y)
      invariant forall i, j :: 0 <= i < 4 && y <= j < 4 ==>
                  lsb[i, j] == Bit(pixelIndices, Slot(4 * i + j)) && msb[i, j] == Bit(pixelIndices, Slot(4 * i + j) + 1)
    {
      ReadRow(pixelIndices, y, shift, lsb, msb);
      shift := shift + 8;
    }
  }

  /** indexConversion: the bits are read row by row and stored column by column. */
  method IndexConversion(pixelIndices: bv32) returns (correctIndices: bv32)
    ensures correctIndices == Converted(pixelIndices, 16)
  {
    hide Bit, Place, Slot;
    var lsb, msb := ReadIndices(pixelIndices);
    correctIndices := 0;
    var shift := 0;
    for x := 0 to 4
      invariant shift == 4 * x
      invariant correctIndices == Converted(pixelIndices, shift)
    {
      for y := 0 to 4
        invariant shift == 4 * x + y
        invariant correctIndices == Converted(pixelIndices, shift)
      {
        assert lsb[x, y] == Bit(pixelIndices, Slot(4 * x + y));
        correctIndices := Place(correctIndices, lsb[x, y], msb[x, y], shift);
        shift := shift + 1;
      }
    }
  }

  lemma SlotAt(x: nat, y: nat)
    requires x < 4 && y < 4
    ensures 4 * x + y < 16 && Slot(4 * x + y) == 8 * (3 - y) + 2 * (3 - x)
  {
  }
}
