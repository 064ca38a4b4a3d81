/** Pixels and the 8-bit arithmetic shared by encoder and decoder. */
module Pixels {

  type byte = x: int | 0 <= x <= 255

  type nib = x: int | 0 <= x <= 15

  datatype Rgb = Rgb(r: byte, g: byte, b: byte)

  datatype Pixel = Pixel(r: byte, g: byte, b: byte, a: byte)

  /** The 16 pixels of a block in the encoder's buffer: column by column, so that the pixel in
      column i and row j is number 4 * i + j. */
  type Block = s: seq<Pixel> | |s| == 16 witness seq(16, _ => Pixel(0, 0, 0, 0))

  /** The alpha of the 16 pixels of a block. */
  type Alphas = s: seq<byte> | |s| == 16 witness seq(16, _ => 0)

  ghost predicate IsFlat(src: Alphas) {
    forall i :: 0 <= i < 16 ==> src[i] == src[0]
  }

  function ColorOf(p: Pixel): Rgb {
    Rgb(p.r, p.g, p.b)
  }

  function Opaque(c: Rgb): Pixel {
    Pixel(c.r, c.g, c.b, 255)
  }

  function Min(x: int, y: int): int {
    if x < y then x else y
  }

  function Max(x: int, y: int): int {
    if x < y then y else x
  }

  function Abs(x: int): nat {
    if x < 0 then -x else x
  }

  function Sq(x: int): nat
  {
    SquareIsNatural(x);
    x * x
  }

  lemma SquareIsNatural(x: int)
    ensures x * x >= 0
  {
  }

  /** clampu8: a value with a bit outside the low eight is replaced by the complement of its
      sign, so by 0 when negative and by 255 otherwise. */
  function ClampU8(v: int): byte {
    if 0 <= v < 256 then v else if v < 0 then 0 else 255
  }

  /** mul8bit: the product of two bytes divided by 255, rounded, without a division. */
  function Mul8Bit(a: byte, b: byte): nat
    ensures b == 15 || b == 31 ==> Mul8Bit(a, b) <= b
  {
    var t := a * b + 128;
    assert a * b >= 0;
    (t + t / 256) / 256
  }

  /** q is, of all codes from 0 to top, one that stands for a value nearest to x. */
  predicate IsNearestCode(q: nat, x: byte, top: nat) {
    q <= top && forall c :: 0 <= c <= top ==> Abs(255 * q - top * x) <= Abs(255 * c - top * x)
  }

  lemma Mul8BitRounds(x: byte, top: byte)
    requires top == 15 || top == 31
    ensures -127 <= 255 * Mul8Bit(x, top) - top * x <= 127
  {
  }

  lemma Mul8BitIsNearest(x: byte, top: byte)
    requires top == 15 || top == 31
    ensures IsNearestCode(Mul8Bit(x, top), x, top)
  {
    hide Mul8Bit;
    Mul8BitRounds(x, top);
    var (q, t) := (Mul8Bit(x, top), top * x);
    forall c | 0 <= c <= top ensures Abs(255 * q - top * x) <= Abs(255 * c - top * x) {
      if c != q {
        assert Abs(255 * c - t) >= 128;
      }
    }
  }

  lemma SquareMonotone(x: nat, y: nat)
    requires x <= y
    ensures x * x <= y * y
  {
    assert x * x <= x * y;
  }
}
