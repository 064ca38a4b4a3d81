/** The constant tables of Tables.cpp that the scalar codec uses. */
module Tables {

  /** g_table: the eight intensity modifier rows of ETC1. */
  function Modifiers(t: nat): (row: seq<int>)
    requires t < 8
    ensures |row| == 4
  {
    match t
    case 0 => [2, 8, -2, -8]
    case 1 => [5, 17, -5, -17]
    case 2 => [9, 29, -9, -29]
    case 3 => [13, 42, -13, -42]
    case 4 => [18, 60, -18, -60]
    case 5 => [24, 80, -24, -80]
    case 6 => [33, 106, -33, -106]
    case 7 => [47, 183, -47, -183]
  }

  /** g_table256: the same rows in the scale of the weighted error. */
  function Modifiers256(t: nat): (row: seq<int>)
    requires t < 8
    ensures |row| == 4
  {
    match t
    case 0 => [2 * 256, 8 * 256, -2 * 256, -8 * 256]
    case 1 => [5 * 256, 17 * 256, -5 * 256, -17 * 256]
    case 2 => [9 * 256, 29 * 256, -9 * 256, -29 * 256]
    case 3 => [13 * 256, 42 * 256, -13 * 256, -42 * 256]
    case 4 => [18 * 256, 60 * 256, -18 * 256, -60 * 256]
    case 5 => [24 * 256, 80 * 256, -24 * 256, -80 * 256]
    case 6 => [33 * 256, 106 * 256, -33 * 256, -106 * 256]
    case 7 => [47 * 256, 183 * 256, -47 * 256, -183 * 256]
  }

  lemma ModifierScale(t: nat, s: nat)
    requires t < 8 && s < 4
    ensures Modifiers256(t)[s] == 256 * Modifiers(t)[s]
    ensures -183 <= Modifiers(t)[s] <= 183
  {
  }

  /** g_id: for each of the four block layouts, the average each buffer pixel is measured against. */
  function AverageIds(layout: nat): (row: seq<nat>)
    requires layout < 4
    ensures |row| == 16
  {
    match layout
    case 0 => [1, 1, 1, 1, 1, 1, 1, 1, 0, 0, 0, 0, 0, 0, 0, 0]
    case 1 => [3, 3, 2, 2, 3, 3, 2, 2, 3, 3, 2, 2, 3, 3, 2, 2]
    case 2 => [5, 5, 5, 5, 5, 5, 5, 5, 4, 4, 4, 4, 4, 4, 4, 4]
    case 3 => [7, 7, 6, 6, 7, 7, 6, 6, 7, 7, 6, 6, 7, 7, 6, 6]
  }

  /** Which half of the block the pixel in column i and row j belongs to: left or right when the
      low bit of the layout is clear, upper or lower when it is set. */
  function HalfOf(layout: nat, i: nat, j: nat): (h: nat)
    requires i < 4 && j < 4
    ensures h < 2
  {
    (if layout % 2 == 1 then j else i) / 2
  }

  /** What g_id amounts to: the averages of a layout are numbers 2 * layout and 2 * layout + 1,
      and the odd one belongs to the first half. */
  lemma AverageOfHalf(layout: nat, i: nat, j: nat)
    requires layout < 4 && i < 4 && j < 4
    ensures 4 * i + j < 16
    ensures AverageIds(layout)[4 * i + j] == 2 * layout + 1 - HalfOf(layout, i, j)
  {
    if i == 0 {
    } else if i == 1 {
    } else if i == 2 {
    } else {
    }
  }

  /** g_alpha: the sixteen modifier rows of EAC alpha. */
  function AlphaModifiers(row: nat): (ms: seq<int>)
    requires row < 16
    ensures |ms| == 8
  {
    match row
    case 0 => [-3, -6, -9, -15, 2, 5, 8, 14]
    case 1 => [-3, -7, -10, -13, 2, 6, 9, 12]
    case 2 => [-2, -5, -8, -13, 1, 4, 7, 12]
    case 3 => [-2, -4, -6, -13, 1, 3, 5, 12]
    case 4 => [-3, -6, -8, -12, 2, 5, 7, 11]
    case 5 => [-3, -7, -9, -11, 2, 6, 8, 10]
    case 6 => [-4, -7, -8, -11, 3, 6, 7, 10]
    case 7 => [-3, -5, -8, -11, 2, 4, 7, 10]
    case 8 => [-2, -6, -8, -10, 1, 5, 7, 9]
    case 9 => [-2, -5, -8, -10, 1, 4, 7, 9]
    case 10 => [-2, -4, -8, -10, 1, 3, 7, 9]
    case 11 => [-2, -5, -7, -10, 1, 4, 6, 9]
    case 12 => [-3, -4, -7, -10, 2, 3, 6, 9]
    case 13 => [-1, -2, -3, -10, 0, 1, 2, 9]
    case 14 => [-4, -6, -8, -9, 3, 5, 7, 8]
    case 15 => [-3, -5, -7, -9, 2, 4, 6, 8]
  }

  /** The upper half of a row mirrors the lower half: the complement of every modifier is one. */
  lemma AlphaMirrors(row: nat, k: nat)
    requires row < 16 && k < 4
    ensures AlphaModifiers(row)[4 + k] == -AlphaModifiers(row)[k] - 1
  {
  }

  /** g_alphaRange: the reciprocal of the spread of a row, in units of 1 / 0x10000. */
  function AlphaRange(row: nat): nat
    requires row < 16
  {
    0x100FF / (1 + AlphaModifiers(row)[7] - AlphaModifiers(row)[3])
  }

  lemma AlphaSpread(row: nat)
    requires row < 16
    ensures 17 <= AlphaModifiers(row)[7] - AlphaModifiers(row)[3] <= 29
    ensures AlphaRange(row) <= 3655
  {
  }
}
