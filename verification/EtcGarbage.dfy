/** What the decoder makes of the word that holds the unset indices: they choose between four different
    colours at every pixel. */
module EtcGarbage {
  import opened Words
  import opened Pixels
  import opened ThSearch
  import opened IndexBits
  import opened Decoder
  import opened ThWords
  import opened ThBlock
  import opened EtcBlock
  import opened EtcWitness

  /** The colours shown for such a word: the distance is the 10 the search began with, cut to three
      bits. */
  function Shades(): (ps: seq<Rgb>)
    ensures |ps| == 4
  {
    Paints(true, Q0(), Q1(), 2)
  }

  lemma ShadesDiffer()
    ensures Shades() == [Rgb(255, 255, 255), Rgb(28, 130, 28), Rgb(17, 119, 17), Rgb(6, 108, 6)]
  {
  }

  lemma TenIsTwo()
    ensures PackT(Q0(), Q1(), NO_DIST) == PackT(Q0(), Q1(), 2)
  {
    assert B32(10) & 0x7 == 2 && B32(2) & 0x7 == 2;
  }

  /** Every pixel is shown in the colour the unset index word happens to name for it. */
  lemma GarbageIsShown(garbage: bv32, d: bv64, p: nat)
    requires ShowsGarbage(Witness(), d, garbage) && p < 16
    ensures ShownBy(d)[p] == Opaque(Shades()[ChosenOf(garbage, p)])
  {
    hide Witness, PlannedBy, Stuff59, PackT, Converted, DecodedPixel, Paints, ModeOf, Lo, Hi, Join, Bswap32,
         ConvertByteOrder, ChosenOf;
    var tMode: bool, lo: bv32, hi: bv32 :|
      IsGarbage(Witness(), tMode, lo, hi, garbage) && d == Join(Bswap32(lo), Bswap32(hi));
    var q0: Rgb444, q1: Rgb444, start: nat :|
      && IsPlan(Witness(), tMode, q0, q1, start)
      && lo == StuffedLo(tMode, q0, q1, NO_DIST) && hi == ConvertedHi(tMode, q0, q1, NO_DIST, garbage);
    WitnessIsPlanned();
    SamePlan(Witness(), tMode, q0, q1, start, true, Q0(), Q1(), 4);
    TenIsTwo();
    ConvertUndoesSwappedHalves(lo, hi);
    Halves(lo, hi);
    TModeRoundTrip(q0, q1, 2, garbage, p / 4, p % 4);
    assert 4 * (p / 4) + p % 4 == p;
  }

  /** So two runs that find different things in the unset index word show different blocks. */
  lemma GarbageMatters(g1: bv32, g2: bv32, d1: bv64, d2: bv64)
    requires ShowsGarbage(Witness(), d1, g1) && ShowsGarbage(Witness(), d2, g2) && g1 != g2
    ensures ShownBy(d1) != ShownBy(d2)
  {
    hide ShowsGarbage, ShownBy, ChosenOf, Shades;
    ShadesDiffer();
    if ShownBy(d1) == ShownBy(d2) {
      forall p | 0 <= p < 16 ensures ChosenOf(g1, p) == ChosenOf(g2, p) {
        GarbageIsShown(g1, d1, p);
        GarbageIsShown(g2, d2, p);
      }
      IndicesDecide(g1, g2);
    }
  }
}
