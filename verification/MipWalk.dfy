/** How DataProvider walks down the chain of mip levels and hands out strips, and the payload that
    BlockData sizes for them. Pixels are left out; sizes, line counts and offsets are as computed. */
module MipWalk {
  import opened Pixels
  import opened Parts

  /** The size of a level in pixels. */
  datatype Size = Size(x: nat, y: nat)

  predicate IsSize(s: Size) { 1 <= s.x && 1 <= s.y }

  predicate IsLast(s: Size) { s.x == 1 && s.y == 1 }

  function Half(s: Size): Size {
    Size(Max(1, s.x / 2), Max(1, s.y / 2))
  }

  /** Block lines of a level, at least one. */
  function Rows(s: Size): (n: nat)
    ensures n >= 1
  {
    Max(4, s.y) / 4
  }

  // ---------- levels ----------

  /** floor(log2(n)). */
  function Log2(n: nat): nat
    requires 1 <= n
  {
    if n == 1 then 0 else 1 + Log2(n / 2)
  }

  function NumberOfMipLevels(s: Size): nat
    requires IsSize(s)
  {
    Log2(Max(s.x, s.y)) + 1
  }

  /** The level reached from s after i halvings. */
  function LevelAt(s: Size, i: nat): Size {
    if i == 0 then s else Half(LevelAt(s, i - 1))
  }

  lemma {:induction false} LevelAtHalf(s: Size, i: nat)
    ensures LevelAt(Half(s), i) == LevelAt(s, i + 1)
  {
    if i > 0 {
      LevelAtHalf(s, i - 1);
    }
  }

  lemma HalfOfMax(s: Size)
    requires IsSize(s) && !IsLast(s)
    ensures Max(Half(s).x, Half(s).y) == Max(s.x, s.y) / 2 >= 1
  {
  }

  /** The last of the counted levels is the first that is one pixel large. */
  lemma {:induction false} LevelsEndAtOne(s: Size, i: nat)
    requires IsSize(s) && i < NumberOfMipLevels(s)
    ensures IsSize(LevelAt(s, i))
    ensures IsLast(LevelAt(s, i)) <==> i + 1 == NumberOfMipLevels(s)
    decreases i
  {
    if i > 0 {
      if IsLast(s) {
        assert false;
      } else {
        HalfOfMax(s);
        LevelsEndAtOne(Half(s), i - 1);
        LevelAtHalf(s, i - 1);
      }
    }
  }

  // ---------- the number of parts ----------

  /** The calls of NextPart still to come for level s with linesLeft lines left and the levels below
      it; the parts of every level are twice as high as those of the level above. */
  function PartsLeft(s: Size, linesLeft: nat, lines: nat, mipmap: bool): nat
    requires IsSize(s) && 1 <= lines
    decreases Max(s.x, s.y)
  {
    PartCount(linesLeft, lines)
    + (if mipmap && !IsLast(s) then HalfOfMax(s); PartsLeft(Half(s), Rows(Half(s)), 2 * lines, mipmap) else 0)
  }

  /** The parts of the levels below s. */
  function PartsBelow(s: Size, lines: nat): nat
    requires IsSize(s) && 1 <= lines
  {
    if IsLast(s) then 0 else PartsLeft(Half(s), Rows(Half(s)), 2 * lines, true)
  }

  lemma PartsOfLevel(s: Size, linesLeft: nat, lines: nat)
    requires IsSize(s) && 1 <= lines
    ensures PartsLeft(s, linesLeft, lines, false) == PartCount(linesLeft, lines)
    ensures PartsLeft(s, linesLeft, lines, true) == PartCount(linesLeft, lines) + PartsBelow(s, lines)
  {
    hide PartCount, Rows, Half;
  }

  lemma NextLevelParts(s: Size, lines: nat)
    requires IsSize(s) && !IsLast(s) && 1 <= lines
    ensures IsSize(Half(s))
    ensures PartsBelow(s, lines) == PartCount(Rows(Half(s)), 2 * lines) + PartsBelow(Half(s), 2 * lines)
  {
    hide PartCount, Rows;
    PartsOfLevel(Half(s), Rows(Half(s)), 2 * lines);
  }

  /** NumberOfParts: the count of levels first, then their parts added up. */
  method NumberOfParts(size: Size, lines0: nat, mipmap: bool) returns (parts: nat)
    requires IsSize(size) && size.y % 4 == 0 && 1 <= lines0
    ensures parts == PartsLeft(size, size.y / 4, lines0, mipmap)
  {
    hide PartCount, PartsLeft, PartsBelow, Half, Rows, Log2;
    parts := PartCount(size.y / 4, lines0);
    PartsOfLevel(size, size.y / 4, lines0);
    if mipmap {
      var current := size;
      var levels := NumberOfMipLevels(size);
      var lines := lines0;
      ghost var total := PartsLeft(size, size.y / 4, lines0, true);
      LevelsEndAtOne(size, 0);
      for i := 1 to levels
        invariant 1 <= lines && IsSize(current) && current == LevelAt(size, i - 1)
        invariant total == parts + PartsBelow(current, lines)
      {
        LevelsEndAtOne(size, i - 1);
        NextLevelParts(current, lines);
        current := Half(current);
        lines := lines * 2;
        parts := parts + PartCount(Rows(current), lines);
      }
      LevelsEndAtOne(size, levels - 1);
      NothingBelow(current, lines);
    }
  }

  lemma NothingBelow(s: Size, lines: nat)
    requires IsLast(s) && 1 <= lines
    ensures PartsBelow(s, lines) == 0
  {
  }

  // ---------- the payload ----------

  /** Bytes AdjustSizeForMipmaps adds for the levels below s, at half a byte a pixel. */
  function Reserved(s: Size): nat
    requires IsSize(s)
    decreases Max(s.x, s.y)
  {
    if IsLast(s) then 0
    else HalfOfMax(s); LevelBytes(Half(s)) + Reserved(Half(s))
  }

  function LevelBytes(s: Size): nat {
    PaddedArea(Max(4, s.x), Max(4, s.y)) / 2
  }

  function PaddedArea(x: nat, y: nat): nat {
    AreaIsNatural(x, y);
    x * y
  }

  lemma AreaIsNatural(x: int, y: int)
    requires 0 <= x && 0 <= y
    ensures x * y >= 0
  {
  }

  /** The bytes of the whole chain, as the constructors of BlockData compute them, without the
      header and for one word a block. */
  function Payload(size: Size, mipmap: bool): nat
    requires IsSize(size)
  {
    PaddedArea(size.x, size.y) / 2 + (if mipmap then Reserved(size) else 0)
  }

  /** AdjustSizeForMipmaps. */
  method AdjustSizeForMipmaps(size: Size, levels: nat) returns (len: nat)
    requires IsSize(size) && levels == NumberOfMipLevels(size)
    ensures len == Reserved(size)
  {
    hide LevelBytes, Half, NumberOfMipLevels;
    len := 0;
    var current := size;
    LevelsEndAtOne(size, 0) by { AtLeastOneLevel(size); }
    AtLeastOneLevel(size);
    for i := 1 to levels
      invariant IsSize(current) && current == LevelAt(size, i - 1)
      invariant Reserved(size) == len + Reserved(current)
    {
      LevelsEndAtOne(size, i - 1);
      LevelsEndAtOne(size, i);
      current := Half(current);
      len := len + LevelBytes(current);
    }
    LevelsEndAtOne(size, levels - 1);
  }

  lemma AtLeastOneLevel(size: Size)
    requires IsSize(size)
    ensures NumberOfMipLevels(size) >= 1
  {
  }

  lemma BlocksFit(x: nat, y: nat)
    ensures 8 * Lines(x / 4, y / 4) <= PaddedArea(x, y) / 2
  {
    LinesIsProduct(x / 4, y / 4);
    SixteenBlocks(x, y, x / 4, y / 4);
  }

  lemma SixteenBlocks(x: nat, y: nat, a: nat, b: nat)
    requires 4 * a <= x && 4 * b <= y
    ensures 16 * (b * a) <= PaddedArea(x, y)
  {
    assert (4 * b) * (4 * a) <= y * (4 * a);
    assert y * (4 * a) <= y * x;
  }

  /** A level has eight bytes for every one of its blocks, and none to spare, if and only if it consists of
      whole blocks. */
  lemma LevelIsFilled(s: Size)
    requires IsSize(s)
    ensures LevelBytes(s) == 8 * Lines(Max(4, s.x) / 4, Rows(s)) <==> Max(4, s.x) % 4 == 0 && Max(4, s.y) % 4 == 0
  {
    var (x, y) := (Max(4, s.x), Max(4, s.y));
    LinesIsProduct(x / 4, y / 4);
    AreaOfRest(x, y, x / 4, y / 4, x % 4, y % 4);
  }

  lemma AreaOfRest(x: nat, y: nat, a: nat, b: nat, i: nat, j: nat)
    requires x == 4 * a + i && y == 4 * b + j && a >= 1 && b >= 1
    ensures PaddedArea(x, y) == 16 * (b * a) <==> i == 0 && j == 0
    ensures i != 0 || j != 0 ==> PaddedArea(x, y) >= 16 * (b * a) + 4
  {
    assert x * y == 16 * (b * a) + 4 * (a * j) + 4 * (b * i) + i * j;
    AreaIsNatural(i, j);
    AtLeastFactor(a, j);
    AtLeastFactor(b, i);
  }

  lemma AtLeastFactor(a: nat, j: nat)
    requires a >= 1
    ensures a * j >= j
  {
  }

  // ---------- the provider ----------

  /** One strip: its width in pixels, its block lines, and the word it begins at. */
  datatype DataPart = DataPart(width: nat, lines: nat, offset: nat)

  /** Words a strip fills: width / 4 * lines. */
  function Words(p: DataPart): nat {
    Lines(p.width / 4, p.lines)
  }

  /** Where the provider stands between two calls: the size and m_linesLeft of the current bitmap,
      m_lines, m_offset and m_done. */
  datatype Cursor = Cursor(size: Size, linesLeft: nat, lines: nat, offset: nat, done: bool)

  function PartOf(c: Cursor): DataPart {
    DataPart(Max(4, c.size.x), Min(c.lines, c.linesLeft), c.offset)
  }

  /** Where it stands after the call. */
  function After(c: Cursor, mips: bool): Cursor {
    var n := Min(c.lines, c.linesLeft);
    var offset := c.offset + Lines(c.size.x / 4, n);
    if n < c.linesLeft then c.(linesLeft := c.linesLeft - n, offset := offset)
    else if mips && !IsLast(c.size) then Cursor(Half(c.size), Rows(Half(c.size)), 2 * c.lines, offset, false)
    else c.(linesLeft := 0, offset := offset, done := true)
  }

  class DataProvider {
    const mipmap: bool
    ghost const payload: nat
    var size: Size       // m_current->Size()
    var linesLeft: nat   // m_linesLeft of the current bitmap
    var lines: nat       // m_lines
    var offset: nat      // m_offset
    var done: bool       // m_done

    function State(): Cursor
      reads this
    {
      Cursor(size, linesLeft, lines, offset, done)
    }

    /** The offset leaves room for the rest of the level and for the levels below. A level narrower
        than a block does not move the offset, so its strips all begin where the first of them does. */
    ghost predicate Valid()
      reads this
    {
      && IsSize(size) && 1 <= lines && linesLeft <= Rows(size)
      && (!done ==> 1 <= linesLeft)
      && (if size.x >= 4 then
            8 * (offset + Lines(size.x / 4, linesLeft)) + (if mipmap then Reserved(size) else 0) <= payload
          else 8 * (offset + Rows(size)) <= payload)
    }

    /** Calls of NextPart until m_done is set. */
    ghost function CallsLeft(): nat
      reads this
      requires Valid()
    {
      if done then 0 else PartsLeft(size, linesLeft, lines, mipmap)
    }

    constructor (bitmap: Size, mips: bool)
      requires IsBitmap(bitmap)
      ensures Valid() && mipmap == mips && payload == Payload(bitmap, mips)
      ensures State() == Cursor(bitmap, Rows(bitmap), 32, 0, false)
      ensures CallsLeft() == PartsLeft(bitmap, bitmap.y / 4, 32, mips)
    {
      mipmap := mips;
      payload := Payload(bitmap, mips);
      size := bitmap;
      linesLeft := bitmap.y / 4;
      lines := 32;
      offset := 0;
      done := false;
      new;
      BlocksFit(bitmap.x, bitmap.y);
    }

    /** NextPart. */
    method NextPart() returns (part: DataPart)
      requires Valid() && !done
      modifies this
      ensures Valid()
      ensures part == PartOf(old(State())) && State() == After(old(State()), mipmap)
      ensures CallsLeft() == old(CallsLeft()) - 1 && (done <==> CallsLeft() == 0)
      ensures 8 * (part.offset + Words(part)) <= payload
    {
      hide PartCount, Lines, Reserved, Rows;
      var n := Min(lines, linesLeft);
      part := DataPart(Max(4, size.x), n, offset);
      PartFits(size.x, n, linesLeft);
      OnePartLess(linesLeft, lines);
      NarrowPart(size, n, linesLeft);
      LinesIsProduct(size.x / 4, n);
      offset := offset + size.x / 4 * n;
      linesLeft := linesLeft - n;
      if linesLeft == 0 {
        NoPartsLeft(lines);
        if mipmap && !IsLast(size) {
          NextLevel(size);
          LevelHasParts(Half(size), 2 * lines);
          lines := lines * 2;
          size := Half(size);
          linesLeft := Rows(size);
        } else {
          done := true;
        }
      } else {
        SomePartsLeft(linesLeft, lines);
      }
    }
  }

  /** What the loaders demand of an image. */
  predicate IsBitmap(s: Size) {
    4 <= s.x && 4 <= s.y && s.x % 4 == 0 && s.y % 4 == 0
  }

  lemma PartFits(x: nat, n: nat, linesLeft: nat)
    requires n <= linesLeft
    ensures Lines(x / 4, linesLeft) == Lines(x / 4, n) + Lines(x / 4, linesLeft - n)
    ensures Lines(x / 4, 0) == 0
  {
    LinesAdd(x / 4, n, linesLeft - n);
  }

  lemma NarrowPart(s: Size, n: nat, linesLeft: nat)
    requires n <= linesLeft <= Rows(s)
    ensures s.x < 4 ==> Lines(s.x / 4, n) == 0 && Lines(Max(4, s.x) / 4, n) == n <= Rows(s)
    ensures s.x >= 4 ==> Max(4, s.x) == s.x
  {
    LinesIsProduct(s.x / 4, n);
    LinesIsProduct(Max(4, s.x) / 4, n);
  }

  lemma NoPartsLeft(lines: nat)
    requires 1 <= lines
    ensures PartCount(0, lines) == 0
  {
    PartCountIsLeast(0, lines, 0);
  }

  lemma SomePartsLeft(linesLeft: nat, lines: nat)
    requires 1 <= lines && 1 <= linesLeft
    ensures PartCount(linesLeft, lines) >= 1
  {
    PartCountIsLeast(linesLeft, lines, PartCount(linesLeft, lines));
  }

  /** Taking a part leaves one part less. */
  lemma OnePartLess(linesLeft: nat, lines: nat)
    requires 1 <= lines && 1 <= linesLeft
    ensures PartCount(linesLeft, lines) == 1 + PartCount(linesLeft - Min(lines, linesLeft), lines)
  {
    hide PartCount;
    var k := PartCount(linesLeft, lines);
    PartCountIsLeast(linesLeft, lines, k);
    PartCountIsLeast(linesLeft - Min(lines, linesLeft), lines, k - 1);
  }

  lemma LevelHasParts(s: Size, lines: nat)
    requires IsSize(s) && 1 <= lines
    ensures PartCount(Rows(s), lines) >= 1
  {
    SomePartsLeft(Rows(s), lines);
  }

  /** The room for the next level. */
  lemma NextLevel(s: Size)
    requires IsSize(s) && !IsLast(s)
    ensures IsSize(Half(s)) && Rows(Half(s)) >= 1
    ensures s.x >= 4 && Half(s).x >= 4 ==> 8 * Lines(Half(s).x / 4, Rows(Half(s))) + Reserved(Half(s)) <= Reserved(s)
    ensures s.x >= 4 && Half(s).x < 4 ==> 8 * Rows(Half(s)) <= Reserved(s)
    ensures s.x < 4 ==> Half(s).x < 4 && Rows(Half(s)) <= Rows(s)
    ensures Lines(Half(s).x / 4, 0) == 0
  {
    var h := Half(s);
    BlocksFit(Max(4, h.x), Max(4, h.y));
    LinesIsProduct(Max(4, h.x) / 4, Rows(h));
  }

  // ---------- the strips of a bitmap, level by level ----------

  /** Block lines of a full strip of level i. */
  function PartLines(i: nat): (l: nat)
    ensures l >= 1
  {
    if i == 0 then 32 else 2 * PartLines(i - 1)
  }

  function StripCount(bitmap: Size, i: nat): nat {
    PartCount(Rows(LevelAt(bitmap, i)), PartLines(i))
  }

  /** The first block line of strip j of level i. */
  function FirstLine(i: nat, j: nat): nat {
    Lines(PartLines(i), j)
  }

  /** The word at which level i begins: every level above takes the words of its full blocks. */
  function LevelStart(bitmap: Size, i: nat): nat {
    if i == 0 then 0
    else
      var above := LevelAt(bitmap, i - 1);
      LevelStart(bitmap, i - 1) + Lines(above.x / 4, Rows(above))
  }

  /** Strip j of level i. */
  function StripAt(bitmap: Size, i: nat, j: nat): DataPart
    requires j < StripCount(bitmap, i)
  {
    StripInLevel(bitmap, i, j);
    var s := LevelAt(bitmap, i);
    DataPart(Max(4, s.x), Min(PartLines(i), Rows(s) - FirstLine(i, j)),
             LevelStart(bitmap, i) + Lines(s.x / 4, FirstLine(i, j)))
  }

  /** Strips begin inside their level, and the last one is the one that reaches its end. */
  lemma StripInLevel(bitmap: Size, i: nat, j: nat)
    requires j < StripCount(bitmap, i)
    ensures FirstLine(i, j) < Rows(LevelAt(bitmap, i))
    ensures FirstLine(i, j + 1) == FirstLine(i, j) + PartLines(i)
    ensures j + 1 < StripCount(bitmap, i) <==> FirstLine(i, j + 1) < Rows(LevelAt(bitmap, i))
  {
    hide PartCount, Rows, LevelAt, PartLines;
    var (h, l, n) := (Rows(LevelAt(bitmap, i)), PartLines(i), StripCount(bitmap, i));
    PartCountIsLeast(h, l, n);
    LinesGrow(l, j, n);
    if j + 1 < n {
      LinesGrow(l, j + 1, n);
    }
  }

  function LevelStrips(bitmap: Size, i: nat, n: nat): (parts: seq<DataPart>)
    requires n <= StripCount(bitmap, i)
    ensures |parts| == n
  {
    seq(n, j requires 0 <= j < n => StripAt(bitmap, i, j))
  }

  /** The strips of the first levels of a bitmap, one level after another. */
  function ChainStrips(bitmap: Size, levels: nat): seq<DataPart> {
    if levels == 0 then []
    else ChainStrips(bitmap, levels - 1) + LevelStrips(bitmap, levels - 1, StripCount(bitmap, levels - 1))
  }

  /** The levels a provider hands out. */
  function LevelCount(bitmap: Size, mips: bool): nat
    requires IsSize(bitmap)
  {
    if mips then NumberOfMipLevels(bitmap) else 1
  }

  function LinesOf(parts: seq<DataPart>): nat {
    if parts == [] then 0 else LinesOf(parts[..|parts| - 1]) + parts[|parts| - 1].lines
  }

  /** The strips of a level are all its block lines. */
  lemma {:induction false} LevelIsHandedOut(bitmap: Size, i: nat, n: nat)
    requires n <= StripCount(bitmap, i)
    ensures LinesOf(LevelStrips(bitmap, i, n)) == Min(FirstLine(i, n), Rows(LevelAt(bitmap, i)))
    ensures n == StripCount(bitmap, i) ==> LinesOf(LevelStrips(bitmap, i, n)) == Rows(LevelAt(bitmap, i))
  {
    hide Rows, LevelAt, PartLines, LevelStart, StripCount;
    PartsReachEnd(bitmap, i);
    if n > 0 {
      LevelIsHandedOut(bitmap, i, n - 1);
      StripInLevel(bitmap, i, n - 1);
      var parts := LevelStrips(bitmap, i, n);
      assert parts[..n - 1] == LevelStrips(bitmap, i, n - 1);
      assert parts[n - 1] == StripAt(bitmap, i, n - 1);
    }
  }

  lemma PartsReachEnd(bitmap: Size, i: nat)
    ensures Rows(LevelAt(bitmap, i)) <= FirstLine(i, StripCount(bitmap, i))
    ensures FirstLine(i, 0) == 0 && StripCount(bitmap, i) >= 1
  {
    hide PartCount, Rows, LevelAt, PartLines;
    SomePartsLeft(Rows(LevelAt(bitmap, i)), PartLines(i));
    PartCountIsLeast(Rows(LevelAt(bitmap, i)), PartLines(i), StripCount(bitmap, i));
  }

  // ---------- the provider hands out the strips of its bitmap ----------

  /** The state in which strip j of level i comes next. */
  function CursorAt(bitmap: Size, i: nat, j: nat): Cursor
    requires j < StripCount(bitmap, i)
  {
    StripInLevel(bitmap, i, j);
    var s := LevelAt(bitmap, i);
    Cursor(s, Rows(s) - FirstLine(i, j), PartLines(i), LevelStart(bitmap, i) + Lines(s.x / 4, FirstLine(i, j)), false)
  }

  /** The call hands out strip j of level i, and goes on to the next strip of the level, to the level
      below, or stops. */
  lemma CallAt(bitmap: Size, mips: bool, i: nat, j: nat)
    requires j < StripCount(bitmap, i)
    ensures PartOf(CursorAt(bitmap, i, j)) == StripAt(bitmap, i, j)
    ensures var next := After(CursorAt(bitmap, i, j), mips);
            if j + 1 < StripCount(bitmap, i) then next == CursorAt(bitmap, i, j + 1)
            else if mips && !IsLast(LevelAt(bitmap, i)) then
              0 < StripCount(bitmap, i + 1) && next == CursorAt(bitmap, i + 1, 0)
            else next.done
    ensures After(CursorAt(bitmap, i, j), mips).done <==>
              j + 1 == StripCount(bitmap, i) && (!mips || IsLast(LevelAt(bitmap, i)))
  {
    hide PartCount, Rows, Half, Lines;
    StripInLevel(bitmap, i, j);
    PartsReachEnd(bitmap, i + 1);
    var s := LevelAt(bitmap, i);
    var n := Min(PartLines(i), Rows(s) - FirstLine(i, j));
    LinesAdd(s.x / 4, FirstLine(i, j), n);
    PartFits(LevelAt(bitmap, i + 1).x, 0, 0);
  }

  /** The whole walk: the strips of every level, all inside the payload, in as many calls as
      NumberOfParts says. */
  method AllParts(bitmap: Size, mips: bool) returns (parts: seq<DataPart>)
    requires IsBitmap(bitmap)
    ensures parts == ChainStrips(bitmap, LevelCount(bitmap, mips))
    ensures |parts| == PartsLeft(bitmap, bitmap.y / 4, 32, mips)
    ensures forall k :: 0 <= k < |parts| ==> 8 * (parts[k].offset + Words(parts[k])) <= Payload(bitmap, mips)
  {
    hide Words, Payload, PartsLeft, After, PartOf, CursorAt, StripAt, StripCount, NumberOfMipLevels, LevelAt;
    var dp := new DataProvider(bitmap, mips);
    parts := [];
    SomeParts(bitmap, mips);
    FirstCursor(bitmap);
    ghost var total := dp.CallsLeft();
    ghost var i, j := 0, 0;
    while !dp.done
      invariant dp.Valid() && fresh(dp) && dp.mipmap == mips && dp.payload == Payload(bitmap, mips)
      invariant (dp.done <==> dp.CallsLeft() == 0) && |parts| + dp.CallsLeft() == total
      invariant !dp.done ==>
                i < LevelCount(bitmap, mips) && j < StripCount(bitmap, i) && dp.State() == CursorAt(bitmap, i, j)
      invariant !dp.done ==> parts == ChainStrips(bitmap, i) + LevelStrips(bitmap, i, j)
      invariant dp.done ==> parts == ChainStrips(bitmap, LevelCount(bitmap, mips))
      invariant forall k :: 0 <= k < |parts| ==> 8 * (parts[k].offset + Words(parts[k])) <= Payload(bitmap, mips)
      decreases dp.CallsLeft()
    {
      CallAt(bitmap, mips, i, j);
      LevelOrLast(bitmap, mips, i);
      var part := dp.NextPart();
      assert LevelStrips(bitmap, i, j + 1) == LevelStrips(bitmap, i, j) + [part];
      parts := parts + [part];
      if j + 1 < StripCount(bitmap, i) {
        j := j + 1;
      } else {
        assert parts == ChainStrips(bitmap, i + 1);
        i, j := i + 1, 0;
      }
    }
  }

  lemma FirstCursor(bitmap: Size)
    requires IsBitmap(bitmap)
    ensures 0 < StripCount(bitmap, 0) && CursorAt(bitmap, 0, 0) == Cursor(bitmap, Rows(bitmap), 32, 0, false)
    ensures 0 < LevelCount(bitmap, false) && 0 < LevelCount(bitmap, true)
  {
    PartsReachEnd(bitmap, 0);
    AtLeastOneLevel(bitmap);
  }

  lemma LevelOrLast(bitmap: Size, mips: bool, i: nat)
    requires IsSize(bitmap) && i < LevelCount(bitmap, mips)
    ensures i + 1 < LevelCount(bitmap, mips) <==> mips && !IsLast(LevelAt(bitmap, i))
  {
    if mips {
      LevelsEndAtOne(bitmap, i);
    }
  }

  lemma SomeParts(bitmap: Size, mips: bool)
    requires IsBitmap(bitmap)
    ensures PartsLeft(bitmap, bitmap.y / 4, 32, mips) >= 1
  {
    SomePartsLeft(bitmap.y / 4, 32);
  }

  // ---------- which strips share words ----------

  /** Level and number of strip k of the chain. */
  function PlaceAt(bitmap: Size, levels: nat, k: nat): (nat, nat)
    requires k < |ChainStrips(bitmap, levels)|
  {
    if k < |ChainStrips(bitmap, levels - 1)| then PlaceAt(bitmap, levels - 1, k)
    else (levels - 1, k - |ChainStrips(bitmap, levels - 1)|)
  }

  lemma {:induction false} StripOfPlace(bitmap: Size, levels: nat, k: nat)
    requires k < |ChainStrips(bitmap, levels)|
    ensures var (i, j) := PlaceAt(bitmap, levels, k);
            i < levels && j < StripCount(bitmap, i) && ChainStrips(bitmap, levels)[k] == StripAt(bitmap, i, j)
  {
    hide StripAt, StripCount;
    if k < |ChainStrips(bitmap, levels - 1)| {
      StripOfPlace(bitmap, levels - 1, k);
    }
  }

  /** The strip after strip j of level i is the next of its level or the first of the level below. */
  lemma {:induction false} NextPlace(bitmap: Size, levels: nat, k: nat)
    requires k + 1 < |ChainStrips(bitmap, levels)|
    ensures var (i, j) := PlaceAt(bitmap, levels, k);
            PlaceAt(bitmap, levels, k + 1) == if j + 1 < StripCount(bitmap, i) then (i, j + 1) else (i + 1, 0)
  {
    hide StripAt, StripCount;
    var before := |ChainStrips(bitmap, levels - 1)|;
    if k + 1 < before {
      NextPlace(bitmap, levels - 1, k);
    } else if k + 1 == before {
      PartsReachEnd(bitmap, levels - 2);
    }
  }

  /** The next strip begins where the words of this one end, unless its level is narrower than a
      block: then it begins where this one does. */
  lemma NextStrip(bitmap: Size, levels: nat, k: nat)
    requires IsSize(bitmap) && k + 1 < |ChainStrips(bitmap, levels)|
    ensures var (parts, s) := (ChainStrips(bitmap, levels), LevelOf(bitmap, levels, k));
            && parts[k + 1].offset == parts[k].offset + (if s.x >= 4 then Words(parts[k]) else 0)
            && LevelOf(bitmap, levels, k + 1).x <= s.x
  {
    hide PartCount, Rows, Lines, ChainStrips, Half;
    var (i, j) := PlaceAt(bitmap, levels, k);
    StripOfPlace(bitmap, levels, k);
    StripOfPlace(bitmap, levels, k + 1);
    NextPlace(bitmap, levels, k);
    StripInLevel(bitmap, i, j);
    PartsReachEnd(bitmap, i + 1);
    var s := LevelAt(bitmap, i);
    var n := Min(PartLines(i), Rows(s) - FirstLine(i, j));
    LinesAdd(s.x / 4, FirstLine(i, j), n);
    NarrowPart(s, n, n);
    PartFits(LevelAt(bitmap, i + 1).x, 0, 0);
    LevelsShrink(bitmap, i);
  }

  lemma {:induction false} LevelsShrink(bitmap: Size, i: nat)
    requires IsSize(bitmap)
    ensures IsSize(LevelAt(bitmap, i)) && LevelAt(bitmap, i + 1).x <= LevelAt(bitmap, i).x
  {
    if i > 0 {
      LevelsShrink(bitmap, i - 1);
    }
  }

  /** The level strip k of the chain belongs to. */
  function LevelOf(bitmap: Size, levels: nat, k: nat): Size
    requires k < |ChainStrips(bitmap, levels)|
  {
    LevelAt(bitmap, PlaceAt(bitmap, levels, k).0)
  }

  lemma {:induction false} LaterStrips(bitmap: Size, levels: nat, j: nat, k: nat)
    requires IsSize(bitmap) && j < k < |ChainStrips(bitmap, levels)|
    ensures var (parts, s) := (ChainStrips(bitmap, levels), LevelOf(bitmap, levels, j));
            && LevelOf(bitmap, levels, k).x <= s.x
            && parts[j].offset + (if s.x >= 4 then Words(parts[j]) else 0) <= parts[k].offset
            && (s.x < 4 ==> parts[k].offset == parts[j].offset)
    decreases k - j
  {
    hide ChainStrips, LevelOf, Words;
    NextStrip(bitmap, levels, k - 1);
    if j + 1 < k {
      LaterStrips(bitmap, levels, j, k - 1);
    }
  }

  /** Two strips of a bitmap share words exactly when the earlier one belongs to a level narrower than
      a block; the strips of such a level and of those below it all begin at one word. */
  lemma StripsOverlapWhenNarrow(bitmap: Size, levels: nat, j: nat, k: nat)
    requires IsSize(bitmap) && j < k < |ChainStrips(bitmap, levels)|
    ensures var (parts, s) := (ChainStrips(bitmap, levels), LevelOf(bitmap, levels, j));
            && (parts[j].offset + Words(parts[j]) <= parts[k].offset <==> s.x >= 4)
            && (s.x < 4 ==> parts[j].offset == parts[k].offset && Words(parts[j]) >= 1 && Words(parts[k]) >= 1)
  {
    hide ChainStrips, LevelOf, Words;
    LaterStrips(bitmap, levels, j, k);
    StripHasWords(bitmap, levels, j);
    StripHasWords(bitmap, levels, k);
  }

  lemma StripHasWords(bitmap: Size, levels: nat, k: nat)
    requires k < |ChainStrips(bitmap, levels)|
    ensures Words(ChainStrips(bitmap, levels)[k]) >= 1
  {
    hide ChainStrips, Rows, LevelAt, PartLines, LevelStart, StripCount;
    StripOfPlace(bitmap, levels, k);
    var (i, j) := PlaceAt(bitmap, levels, k);
    StripInLevel(bitmap, i, j);
    LinesGrow(Max(4, LevelAt(bitmap, i).x) / 4, 0, StripAt(bitmap, i, j).lines);
  }

  /** The levels of a bitmap of one block: each has one strip, and only the first moves the offset. */
  lemma SmallLevel(b: Size, i: nat)
    requires b == Size(4, 4) && i < 3
    ensures LevelAt(b, i) == if i == 0 then b else if i == 1 then Size(2, 2) else Size(1, 1)
    ensures Rows(LevelAt(b, i)) == 1 && StripCount(b, i) == 1
  {
    hide PartLines, PartCount, Lines;
    assert LevelAt(b, 1) == Size(2, 2);
    PartsReachEnd(b, i);
    LinesIsProduct(PartLines(i), 1);
    PartCountIsLeast(1, PartLines(i), 1);
  }

  lemma SmallStart(b: Size, i: nat)
    requires b == Size(4, 4) && i < 3
    ensures LevelStart(b, i) == Min(i, 1)
  {
    hide LevelAt, Rows, StripCount, Lines;
    if i > 0 {
      SmallLevel(b, i - 1);
      SmallStart(b, i - 1);
      NoneOrOneLine(LevelAt(b, i - 1).x / 4);
    }
  }

  lemma NoneOrOneLine(l: nat)
    ensures Lines(l, 0) == 0 && Lines(l, 1) == l
  {
  }

  /** The strip of a level with one block line. */
  lemma OnlyStrip(b: Size, i: nat)
    requires Rows(LevelAt(b, i)) == 1 && StripCount(b, i) == 1
    ensures LevelStrips(b, i, StripCount(b, i)) == [DataPart(Max(4, LevelAt(b, i).x), 1, LevelStart(b, i))]
  {
    hide LevelAt, PartLines, StripCount, LevelStart, Rows, Lines;
    NoneOrOneLine(PartLines(i));
    NoneOrOneLine(LevelAt(b, i).x / 4);
  }

  lemma SmallStrips(b: Size, i: nat)
    requires b == Size(4, 4) && i < 3
    ensures LevelStrips(b, i, StripCount(b, i)) == [DataPart(4, 1, Min(i, 1))]
  {
    hide LevelStrips, StripCount, LevelAt, LevelStart, Rows;
    SmallLevel(b, i);
    SmallStart(b, i);
    OnlyStrip(b, i);
  }

  /** The smallest bitmap with a narrow level: its second and third level are stored at one word. */
  lemma SmallestOverlap(b: Size)
    requires b == Size(4, 4)
    ensures ChainStrips(b, LevelCount(b, true)) == [DataPart(4, 1, 0), DataPart(4, 1, 1), DataPart(4, 1, 1)]
  {
    hide LevelStrips, StripCount;
    SmallStrips(b, 0);
    SmallStrips(b, 1);
    SmallStrips(b, 2);
    assert Log2(4) == 1 + Log2(2) && Log2(2) == 1 + Log2(1);
    assert ChainStrips(b, 1) == [DataPart(4, 1, 0)];
    assert ChainStrips(b, 2) == ChainStrips(b, 1) + [DataPart(4, 1, 1)];
    assert ChainStrips(b, 3) == ChainStrips(b, 2) + [DataPart(4, 1, 1)];
  }
}
