/** The streamed bitmap of Bitmap.cpp: a loader thread reads pixel rows and signals a counting
    semaphore (Semaphore.hpp) for every part of l block lines, NextBlock waits on it and hands the
    part out. A block line is four pixel rows; the image has h of them. */
module Loader {
  import opened Pixels
  import opened Parts

  datatype Producer =
    | Reading
    | Signalling    // a part is complete, about to unlock the semaphore
    | Ending        // all rows read
    | Finished

  datatype Consumer =
    | Outside
    | Trying        // in NextBlock, about to look at the semaphore's count
    | Asleep        // found the count 0
    | Served        // got the last part, which came with done set

  /** A part handed out: block lines first, ..., first + lines - 1. */
  datatype Part = Part(first: nat, lines: nat)

  /** Both threads. read counts pixel rows, lines the block lines since the last signal, block and
      left are m_block and m_linesLeft in block lines; unlocks and parts record what happened. */
  datatype World = World(h: nat, l: nat, producer: Producer, read: nat, lines: nat,
                         count: nat, consumer: Consumer, block: nat, left: nat,
                         unlocks: nat, parts: seq<Part>)

  datatype Step = ReadRow | Signal | End | CallNextBlock | Try | WakeSpuriously

  function Init(h: nat, l: nat): World {
    World(h, l, Reading, 0, 0, 0, Outside, 0, h, 0, [])
  }

  predicate Enabled(w: World, step: Step) {
    match step
    case ReadRow => w.producer == Reading
    case Signal => w.producer == Signalling
    case End => w.producer == Ending
    case CallNextBlock => w.consumer == Outside
    case Try => w.consumer == Trying
    case WakeSpuriously => w.consumer == Asleep
  }

  /** Semaphore::unlock: one more, and whoever waits is woken. */
  function Unlocked(w: World): World {
    w.(count := w.count + 1, unlocks := w.unlocks + 1,
       consumer := if w.consumer == Asleep then Trying else w.consumer)
  }

  function Apply(w: World, step: Step): World
    requires Enabled(w, step)
  {
    match step
    case ReadRow =>
      if w.read / 4 == w.h then w.(producer := Ending)
      else if w.read % 4 < 3 then w.(read := w.read + 1)
      else w.(read := w.read + 1, lines := w.lines + 1,
              producer := if w.lines + 1 >= w.l then Signalling else Reading)
    case Signal => Unlocked(w).(producer := Reading, lines := 0)
    case End => (if w.lines != 0 then Unlocked(w) else w).(producer := Finished)
    case CallNextBlock => w.(consumer := Trying)
    case Try =>
      if w.count == 0 then w.(consumer := Asleep)
      else
        var lines := Min(w.l, w.left);
        w.(count := w.count - 1, block := w.block + lines, left := w.left - lines,
           parts := w.parts + [Part(w.block, lines)],
           consumer := if w.left - lines == 0 then Served else Outside)
    case WakeSpuriously => w.(consumer := Trying)
  }

  ghost predicate Reaches(w: World, steps: seq<Step>, end: World)
    decreases |steps|
  {
    if steps == [] then w == end
    else Enabled(w, steps[0]) && Reaches(Apply(w, steps[0]), steps[1..], end)
  }

  // ---------- what every step keeps ----------

  /** The producer has signalled every part it has read, and no other. */
  ghost predicate ProducerInv(w: World) {
    && 1 <= w.l && w.read <= 4 * w.h
    && (w.producer == Reading ==> w.lines < w.l && w.read / 4 == Lines(w.l, w.unlocks) + w.lines)
    && (w.producer == Signalling ==> w.read % 4 == 0 && w.lines == w.l && w.read / 4 == Lines(w.l, w.unlocks) + w.lines)
    && (w.producer == Ending ==> w.lines < w.l && w.read / 4 == w.h == Lines(w.l, w.unlocks) + w.lines)
    && (w.producer == Finished ==> w.read / 4 == w.h && w.h <= Lines(w.l, w.unlocks) < w.h + w.l)
  }

  /** The consumer has been handed one part for every unit taken from the semaphore; it sleeps only
      while the count is 0. */
  ghost predicate ConsumerInv(w: World) {
    && 1 <= w.h && w.unlocks == w.count + |w.parts|
    && w.block + w.left == w.h
    && w.block == Min(Lines(w.l, |w.parts|), w.h)
    && (w.consumer == Served <==> w.left == 0)
    && (w.consumer == Asleep ==> w.count == 0)
  }

  /** Part number k is where it belongs, and its rows have been read. */
  ghost predicate PartIsReady(w: World, k: nat)
    requires k < |w.parts|
  {
    var p := w.parts[k];
    && p.first == Lines(w.l, k) && 1 <= p.lines
    && p.first + p.lines == Min(Lines(w.l, k + 1), w.h)
    && 4 * (p.first + p.lines) <= w.read
  }

  ghost predicate Inv(w: World) {
    ProducerInv(w) && ConsumerInv(w) && forall k :: 0 <= k < |w.parts| ==> PartIsReady(w, k)
  }

  lemma ReadSteps(read: nat, h: nat)
    requires read / 4 <= h
    ensures read % 4 < 3 ==> (read + 1) / 4 == read / 4
    ensures read % 4 >= 3 ==> (read + 1) / 4 == read / 4 + 1 && (read + 1) % 4 == 0
  {
  }

  lemma ProducerSteps(w: World, step: Step)
    requires ProducerInv(w) && ConsumerInv(w) && Enabled(w, step)
    ensures ProducerInv(Apply(w, step))
  {
    ReadSteps(w.read, w.h);
  }

  /** What a unit of the semaphore stands for: the lines of one more part have been read. */
  lemma UnitMeansRead(w: World)
    requires ProducerInv(w) && ConsumerInv(w) && w.count > 0
    ensures 4 * Min(Lines(w.l, |w.parts| + 1), w.h) <= w.read
  {
    var k := |w.parts| + 1;
    if k < w.unlocks {
      LinesGrow(w.l, k, w.unlocks);
    }
  }

  lemma ConsumerSteps(w: World, step: Step)
    requires ProducerInv(w) && ConsumerInv(w) && Enabled(w, step)
    ensures ConsumerInv(Apply(w, step))
  {
  }

  lemma PartsStayReady(w: World, step: Step)
    requires Inv(w) && Enabled(w, step)
    ensures forall k :: 0 <= k < |Apply(w, step).parts| ==> PartIsReady(Apply(w, step), k)
  {
    var next := Apply(w, step);
    forall k | 0 <= k < |next.parts| ensures PartIsReady(next, k) {
      if k < |w.parts| {
        assert PartIsReady(w, k);
      } else {
        UnitMeansRead(w);
      }
    }
  }

  lemma StepKeepsInv(w: World, step: Step)
    requires Inv(w) && Enabled(w, step)
    ensures Inv(Apply(w, step))
  {
    hide ProducerInv, ConsumerInv, PartIsReady, Apply;
    ProducerSteps(w, step);
    ConsumerSteps(w, step);
    PartsStayReady(w, step);
  }

  lemma {:induction false} RunsKeepInv(w: World, steps: seq<Step>, end: World)
    requires Inv(w) && Reaches(w, steps, end)
    ensures Inv(end)
    decreases |steps|
  {
    hide Inv, Apply, Enabled;
    if steps != [] {
      StepKeepsInv(w, steps[0]);
      RunsKeepInv(Apply(w, steps[0]), steps[1..], end);
    }
  }

  lemma InitInv(h: nat, l: nat)
    requires 1 <= h && 1 <= l
    ensures Inv(Init(h, l))
  {
  }

  // ---------- what the stream promises ----------

  /** Whatever the interleaving, the parts handed out are parts 0, 1, 2, ... of the image, in order
      and without gaps, and every row of a part had been read when the part was handed out. */
  lemma PartsAreRead(h: nat, l: nat, steps: seq<Step>, w: World, k: nat)
    requires 1 <= h && 1 <= l && Reaches(Init(h, l), steps, w) && k < |w.parts|
    ensures w.h == h && w.l == l
    ensures var p := w.parts[k];
            && p.first == Lines(l, k) && p.lines >= 1
            && p.first + p.lines == Min(Lines(l, k + 1), h)
            && 4 * (p.first + p.lines) <= w.read
  {
    InitInv(h, l);
    RunsKeepInv(Init(h, l), steps, w);
    SizesKept(Init(h, l), steps, w);
    assert PartIsReady(w, k);
  }

  lemma {:induction false} SizesKept(w: World, steps: seq<Step>, end: World)
    requires Reaches(w, steps, end)
    ensures end.h == w.h && end.l == w.l
    decreases |steps|
  {
    if steps != [] {
      SizesKept(Apply(w, steps[0]), steps[1..], end);
    }
  }

  /** The call that gets the last part is number PartCount(h, l), and by the time the loader has
      finished it has signalled exactly that often. */
  lemma SignalsMatchCalls(h: nat, l: nat, steps: seq<Step>, w: World)
    requires 1 <= h && 1 <= l && Reaches(Init(h, l), steps, w)
    ensures |w.parts| <= PartCount(h, l)
    ensures w.consumer == Served <==> |w.parts| == PartCount(h, l)
    ensures w.producer == Finished ==> w.unlocks == PartCount(h, l)
    ensures w.producer == Finished && w.consumer == Served ==> w.count == 0
  {
    hide PartCount, PartIsReady;
    InitInv(h, l);
    RunsKeepInv(Init(h, l), steps, w);
    SizesKept(Init(h, l), steps, w);
    var n := |w.parts|;
    PartCountIsLeast(h, l, PartCount(h, l));
    if w.producer == Finished {
      PartCountIsLeast(h, l, w.unlocks);
    }
    if n > 0 {
      assert PartIsReady(w, n - 1);
      LastPartStart(w);
    }
    if PartCount(h, l) < n {
      LinesGrow(l, PartCount(h, l), n);
      assert false;
    }
    if w.left == 0 {
      PartCountIsLeast(h, l, n);
    }
  }

  /** The last part handed out began before the end of the image. */
  lemma LastPartStart(w: World)
    requires Inv(w) && w.parts != []
    ensures Lines(w.l, |w.parts| - 1) < w.h
    ensures Lines(w.l, |w.parts|) == Lines(w.l, |w.parts| - 1) + w.l
  {
    assert PartIsReady(w, |w.parts| - 1);
  }

  /** NextBlock is never stuck: as long as it waits, the loader can go on or the semaphore has a
      unit for it. */
  lemma NextBlockIsNeverStuck(h: nat, l: nat, steps: seq<Step>, w: World)
    requires 1 <= h && 1 <= l && Reaches(Init(h, l), steps, w)
    requires w.consumer == Trying || w.consumer == Asleep
    ensures w.producer != Finished || (w.count > 0 && w.consumer == Trying)
    ensures exists step :: Enabled(w, step) && step != WakeSpuriously
  {
    InitInv(h, l);
    RunsKeepInv(Init(h, l), steps, w);
    SizesKept(Init(h, l), steps, w);
    SignalsMatchCalls(h, l, steps, w);
    assert Enabled(w, if w.producer == Reading then ReadRow else if w.producer == Signalling then Signal
                      else if w.producer == Ending then End else Try);
  }

  /** Steps the loader still has to take, in units: two for every row, and the signals after them. */
  function LoaderWork(w: World): int {
    match w.producer
    case Reading => 4 * (4 * w.h - w.read) + 4
    case Signalling => 4 * (4 * w.h - w.read) + 6
    case Ending => 3
    case Finished => 0
  }

  /** The work of both threads until the last part is served. */
  function Work(w: World): int {
    LoaderWork(w) + 3 * w.left + (if w.consumer == Outside then 2 else if w.consumer == Trying then 1 else 0)
  }

  /** Every step but a spurious wake-up leaves less work, and such a wake-up adds one unit; so every
      run with finitely many of them hands out the whole image. */
  lemma StepDoesWork(w: World, step: Step)
    requires Inv(w) && Enabled(w, step)
    ensures 0 <= Work(w)
    ensures if step == WakeSpuriously then Work(Apply(w, step)) == Work(w) + 1 else Work(Apply(w, step)) < Work(w)
  {
    hide Lines, PartIsReady;
    if step == Try && w.count > 0 {
      assert Inv(Apply(w, step)) by { StepKeepsInv(w, step); }
      LastIsNonempty(Apply(w, step));
    }
  }

  lemma LastIsNonempty(w: World)
    requires Inv(w) && w.parts != []
    ensures w.parts[|w.parts| - 1].lines >= 1
  {
    assert PartIsReady(w, |w.parts| - 1);
  }

  // ---------- images that are there at once ----------

  lemma {:induction false} FewerPartsReachLess(h: nat, l: nat, k: nat)
    requires 1 <= l && h <= Lines(l, k)
    ensures PartCount(h, l) <= k
  {
    hide PartCount, Lines;
    PartCountIsLeast(h, l, PartCount(h, l));
    if k < PartCount(h, l) {
      LinesGrow(l, k, PartCount(h, l));
    }
  }

  lemma {:induction false} FourTimesCovers(l: nat, k: nat)
    requires 1 <= l
    ensures Lines(l + 1, k) <= 4 * Lines(l, k)
  {
    if k > 0 {
      FourTimesCovers(l, k - 1);
    }
  }

  lemma {:induction false} OneByOne(l: nat, k: nat)
    requires 1 <= l
    ensures k <= Lines(l, k)
  {
    if k > 0 {
      OneByOne(l, k - 1);
    }
  }

  /** The levels narrower or lower than a block are blank and signalled at once, row by row and with
      another comparison than the loader's, so once for every l + 1 rows begun; still no call of
      NextBlock is left without its signal. */
  method SignalBlank(h: nat, l: nat) returns (unlocks: nat)
    requires 1 <= h && 1 <= l
    ensures unlocks == PartCount(4 * h, l + 1) >= PartCount(h, l)
  {
    hide PartCount;
    unlocks := 0;
    var lines := 0;
    for i := 0 to h
      invariant lines <= l && 4 * i == Lines(l + 1, unlocks) + lines
    {
      for j := 0 to 4
        invariant lines <= l && 4 * i + j == Lines(l + 1, unlocks) + lines
      {
        lines := lines + 1;
        if lines > l {
          lines := 0;
          unlocks := unlocks + 1;
        }
      }
    }
    if lines != 0 {
      unlocks := unlocks + 1;
    }
    PartCountIsLeast(4 * h, l + 1, unlocks);
    FourTimesCovers(l, unlocks);
    FewerPartsReachLess(h, l, unlocks);
  }

  /** A raw bitmap signals every block line. */
  method SignalRaw(h: nat, l: nat) returns (unlocks: nat)
    requires 1 <= h && 1 <= l
    ensures unlocks == h >= PartCount(h, l)
  {
    hide PartCount;
    unlocks := 0;
    for i := 0 to h
      invariant unlocks == i
    {
      unlocks := unlocks + 1;
    }
    OneByOne(l, unlocks);
    FewerPartsReachLess(h, l, unlocks);
  }
}
