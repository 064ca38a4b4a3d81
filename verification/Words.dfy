/** Machine words of the block codec: 32- and 64-bit unsigned integers as bit-vectors, the byte
    order changes between encoder and decoder, and the few facts about single bits that the
    round trips rest on. */
module Words {

  /** The 64-bit word whose low half is lo and whose high half is hi. */
  function Join(lo: bv32, hi: bv32): bv64 {
    (lo as bv64) | ((hi as bv64) << 32)
  }

  function Lo(d: bv64): bv32 {
    (d & 0xFFFF_FFFF) as bv32
  }

  function Hi(d: bv64): bv32 {
    (d >> 32) as bv32
  }

  /** _bswap: reverses the four bytes of a 32-bit word. */
  function Bswap32(x: bv32): bv32 {
    (x << 24) | ((x & 0xFF00) << 8) | ((x >> 8) & 0xFF00) | (x >> 24)
  }

  /** _bswap64: reverses the eight bytes of a 64-bit word. */
  function Bswap64(d: bv64): bv64 {
    Join(Bswap32(Hi(d)), Bswap32(Lo(d)))
  }

  /** ConvertByteOrder: what the decoder does to a word it has read. */
  function ConvertByteOrder(d: bv64): bv64 {
    Join(Bswap32(Lo(d)), Bswap32(Hi(d)))
  }

  /** FixByteOrder: what the ETC1 encoder does to a word before it is stored. */
  function FixByteOrder(d: bv64): bv64 {
    (d & 0x0000_0000_FFFF_FFFF)
    | ((d & 0xFF00_0000_0000_0000) >> 24)
    | ((d & 0x0000_00FF_0000_0000) << 24)
    | ((d & 0x00FF_0000_0000_0000) >> 8)
    | ((d & 0x0000_FF00_0000_0000) << 8)
  }

  lemma Halves(lo: bv32, hi: bv32)
    ensures Lo(Join(lo, hi)) == lo && Hi(Join(lo, hi)) == hi
  {
  }

  lemma Bswap32Twice(x: bv32)
    ensures Bswap32(Bswap32(x)) == x
  {
  }

  /** The decoder reads back both halves of a T, H or planar word, which the encoder stored
      half by half. */
  lemma ConvertUndoesSwappedHalves(lo: bv32, hi: bv32)
    ensures ConvertByteOrder(Join(Bswap32(lo), Bswap32(hi))) == Join(lo, hi)
  {
    hide Lo, Hi, Join, Bswap32;
    Bswap32Twice(lo);
    Bswap32Twice(hi);
    Halves(Bswap32(lo), Bswap32(hi));
  }

  lemma FixSwapsTheHighHalf(d: bv64)
    ensures FixByteOrder(d) == Join(Lo(d), Bswap32(Hi(d)))
  {
  }

  /** After FixByteOrder the decoder sees the index half unchanged and the colour half with its
      bytes reversed. */
  lemma ConvertAfterFix(d: bv64)
    ensures ConvertByteOrder(FixByteOrder(d)) == Join(Bswap32(Lo(d)), Hi(d))
  {
    hide Lo, Hi, Join, Bswap32, FixByteOrder;
    FixSwapsTheHighHalf(d);
    Halves(Lo(d), Bswap32(Hi(d)));
    Bswap32Twice(Hi(d));
  }

  lemma Bswap64Twice(d: bv64)
    ensures Bswap64(Bswap64(d)) == d
  {
  }

  /** Bit k of a 32-bit word, as 0 or 1. */
  function BitAt(w: bv32, k: bv5): bv32 { (w >> k) & 1 }

  function Bit(w: bv32, k: nat): bv32
    requires k < 32
  {
    BitAt(w, k as bv5)
  }

  /** Puts the single bit b at position s of a word that has a 0 there. */
  function PutBitAt(w: bv32, b: bv32, s: bv5): bv32 { w | (b << s) }

  function PutBit(w: bv32, b: bv32, s: nat): bv32
    requires s < 32
  {
    PutBitAt(w, b, s as bv5)
  }

  lemma Round5(k: nat)
    requires k < 32
    ensures (k as bv5) as int == k
  {
  }

  lemma Round6(k: nat)
    requires k < 64
    ensures (k as bv6) as int == k
  {
  }

  lemma SetBitAt(w: bv32, b: bv32, s: bv5)
    requires b <= 1 && BitAt(w, s) == 0
    ensures BitAt(PutBitAt(w, b, s), s) == b
  {
  }

  lemma KeepBitAt(w: bv32, b: bv32, s: bv5, k: bv5)
    requires b <= 1 && k != s
    ensures BitAt(PutBitAt(w, b, s), k) == BitAt(w, k)
  {
  }

  /** Setting bit s where there was none. */
  lemma SetBit(w: bv32, b: bv32, s: nat)
    requires s < 32 && b <= 1 && Bit(w, s) == 0
    ensures Bit(PutBit(w, b, s), s) == b
  {
    hide BitAt, PutBitAt;
    SetBitAt(w, b, s as bv5);
  }

  /** Setting bit s leaves every other bit as it was. */
  lemma KeepBit(w: bv32, b: bv32, s: nat, k: nat)
    requires s < 32 && k < 32 && s != k && b <= 1
    ensures Bit(PutBit(w, b, s), k) == Bit(w, k)
  {
    hide BitAt, PutBitAt;
    Round5(s);
    Round5(k);
    KeepBitAt(w, b, s as bv5, k as bv5);
  }

  /** A byte-sized integer as a 32-bit word. */
  function B32(x: nat): (w: bv32)
    requires x < 256
  {
    (x as bv8) as bv32
  }

  function B64(x: nat): (w: bv64)
    requires x < 256
  {
    (x as bv8) as bv64
  }

  lemma Successor(b: bv8)
    requires b != 255
    ensures (b + 1) as int == b as int + 1
  {
  }

  lemma ThereAndBack(b: bv8)
    ensures ((b as int) as bv8) == b
  {
  }

  /** Every number below 256 is the value of a byte, reached by counting. */
  lemma {:induction false} CountTo(x: nat) returns (b: bv8)
    requires x < 256
    ensures b as int == x
  {
    if x == 0 {
      b := 0;
    } else {
      var c := CountTo(x - 1);
      assert 255 as bv8 as int == 255;
      Successor(c);
      b := c + 1;
    }
  }

  lemma Byte(x: nat)
    requires x < 256
    ensures (x as bv8) as int == x
  {
    var b := CountTo(x);
    ThereAndBack(b);
  }

  lemma Successor5(b: bv5)
    requires b != 31
    ensures (b + 1) as int == b as int + 1
  {
  }

  lemma ThereAndBack5(b: bv5)
    ensures ((b as int) as bv5) == b
  {
  }

  lemma {:induction false} CountTo5(x: nat) returns (b: bv5)
    requires x < 32
    ensures b as int == x
  {
    if x == 0 {
      b := 0;
    } else {
      var c := CountTo5(x - 1);
      assert 31 as bv5 as int == 31;
      Successor5(c);
      b := c + 1;
    }
  }

  /** Counting shift amounts as numbers and as words comes to the same. */
  lemma NextShift(s: nat)
    requires s < 31
    ensures (s as bv5) < 31 && ((s + 1) as bv5) == (s as bv5) + 1
  {
    var b := CountTo5(s);
    assert 31 as bv5 as int == 31;
    Successor5(b);
    ThereAndBack5(b);
    ThereAndBack5(b + 1);
  }

  lemma ByteLess(b: bv8, c: bv8)
    ensures (b as int < c as int) == (b < c)
  {
  }

  lemma LessBytes(x: nat, m: nat)
    requires x < m < 256
    ensures (x as bv8) < (m as bv8)
  {
    Byte(x);
    Byte(m);
    ByteLess(x as bv8, m as bv8);
  }

  lemma Widen(b: bv8)
    ensures (b as bv32) as int == b as int
    ensures (b as bv64) as int == b as int
  {
  }

  /** Small integers survive the way into a word and back. */
  lemma WordToInt(x: nat)
    requires x < 256
    ensures B32(x) as int == x && B64(x) as int == x
  {
    Byte(x);
    Widen(x as bv8);
  }

  lemma WordLess(x: nat, m: nat)
    requires x < m < 256
    ensures B32(x) < B32(m) && B64(x) < B64(m)
  {
    LessBytes(x, m);
  }

  lemma SameBitsAt(w1: bv32, w2: bv32)
    requires BitAt(w1, 0) == BitAt(w2, 0) && BitAt(w1, 1) == BitAt(w2, 1) && BitAt(w1, 2) == BitAt(w2, 2)
    requires BitAt(w1, 3) == BitAt(w2, 3) && BitAt(w1, 4) == BitAt(w2, 4) && BitAt(w1, 5) == BitAt(w2, 5)
    requires BitAt(w1, 6) == BitAt(w2, 6) && BitAt(w1, 7) == BitAt(w2, 7) && BitAt(w1, 8) == BitAt(w2, 8)
    requires BitAt(w1, 9) == BitAt(w2, 9) && BitAt(w1, 10) == BitAt(w2, 10) && BitAt(w1, 11) == BitAt(w2, 11)
    requires BitAt(w1, 12) == BitAt(w2, 12) && BitAt(w1, 13) == BitAt(w2, 13) && BitAt(w1, 14) == BitAt(w2, 14)
    requires BitAt(w1, 15) == BitAt(w2, 15) && BitAt(w1, 16) == BitAt(w2, 16) && BitAt(w1, 17) == BitAt(w2, 17)
    requires BitAt(w1, 18) == BitAt(w2, 18) && BitAt(w1, 19) == BitAt(w2, 19) && BitAt(w1, 20) == BitAt(w2, 20)
    requires BitAt(w1, 21) == BitAt(w2, 21) && BitAt(w1, 22) == BitAt(w2, 22) && BitAt(w1, 23) == BitAt(w2, 23)
    requires BitAt(w1, 24) == BitAt(w2, 24) && BitAt(w1, 25) == BitAt(w2, 25) && BitAt(w1, 26) == BitAt(w2, 26)
    requires BitAt(w1, 27) == BitAt(w2, 27) && BitAt(w1, 28) == BitAt(w2, 28) && BitAt(w1, 29) == BitAt(w2, 29)
    requires BitAt(w1, 30) == BitAt(w2, 30) && BitAt(w1, 31) == BitAt(w2, 31)
    ensures w1 == w2
  {
  }

  /** A word is its bits. */
  lemma SameBits(w1: bv32, w2: bv32)
    requires forall k: nat :: k < 32 ==> Bit(w1, k) == Bit(w2, k)
    ensures w1 == w2
  {
    hide BitAt;
    forall b: bv5 ensures BitAt(w1, b) == BitAt(w2, b) {
      ThereAndBack5(b);
      assert Bit(w1, b as int) == Bit(w2, b as int);
    }
    SameBitsAt(w1, w2);
  }
}
