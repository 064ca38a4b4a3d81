/** The image cut into strips that are encoded as independent tasks (betsy path of Application.cpp):
    however the tasks interleave, block by block, the words and the merged pipe are those of one
    sequential pass. */
module Strips {
  import opened Pixels
  import opened Parts
  import opened Decoder
  import opened BlockDecoder
  import opened BlockWalk

  /** An image, and the encoder of its blocks. */
  datatype Job = Job(img: seq<Pixel>, n: nat, rows: nat, enc: Block -> Encoded)

  ghost predicate IsJob(job: Job) {
    1 <= job.n && |job.img| == PixelCount(job.n, job.rows)
  }

  function Total(job: Job): nat {
    BlockCount(job.n, job.rows)
  }

  /** The word of block k, and the entries of a range of blocks, in a sequential pass. */
  function WordAt(job: Job, k: nat): bv64
    requires IsJob(job) && k < Total(job)
  {
    WordOf(job.img, job.n, job.rows, job.enc, k)
  }

  function EntryAt(job: Job, k: nat): seq<PixBlock>
    requires IsJob(job) && k < Total(job)
  {
    EntryOf(job.img, job.n, job.rows, job.enc, k)
  }

  function PipeAt(job: Job, first: nat, count: nat): seq<PixBlock>
    requires IsJob(job) && first + count <= Total(job)
  {
    PipeOf(job.img, job.n, job.rows, job.enc, first, count)
  }

  lemma PipeAtStep(job: Job, first: nat, count: nat)
    requires IsJob(job) && first + count < Total(job)
    ensures PipeAt(job, first, 0) == []
    ensures PipeAt(job, first, count + 1) == PipeAt(job, first, count) + EntryAt(job, first + count)
  {
    hide EntryOf;
    assert first + (count + 1) - 1 == first + count;
  }

  /** One task: where its pixels begin, how many blocks it encodes, where its words go. */
  datatype Strip = Strip(ptr: nat, blocks: nat, offset: nat)

  /** The strips follow one another from the first block to the last, each begins at the left edge
      of the image and none is empty. */
  ghost predicate Covers(job: Job, strips: seq<Strip>, upTo: nat)
    requires IsJob(job)
  {
    && (forall s :: 0 <= s < |strips| ==> StripFits(job, strips, upTo, s))
    && (if strips == [] then upTo == 0 else strips[0].offset == 0)
  }

  ghost predicate StripFits(job: Job, strips: seq<Strip>, upTo: nat, s: nat)
    requires IsJob(job) && s < |strips|
  {
    && strips[s].blocks >= 1
    && strips[s].offset + strips[s].blocks == (if s + 1 < |strips| then strips[s + 1].offset else upTo)
    && strips[s].ptr == TileStart(job.n, strips[s].offset)
    && WalkTo(job.n, strips[s].offset).x == 0
  }

  lemma LinesOfBlocks(n: nat, lines: nat, r: nat)
    ensures 4 * n * lines / 4 == BlockCount(n, r + lines) - BlockCount(n, r)
    ensures 4 * n * lines * 4 == PixelCount(n, r + lines) - PixelCount(n, r)
  {
    LinesIsProduct(n, r + lines);
    LinesIsProduct(n, r);
    LinesIsProduct(4 * n, 4 * (r + lines));
    LinesIsProduct(4 * n, 4 * r);
    Distribute(n, lines, r);
  }

  lemma Distribute(n: nat, lines: nat, r: nat)
    ensures (r + lines) * n == r * n + lines * n
    ensures 4 * n * lines / 4 == lines * n
    ensures 4 * n * lines * 4 == 4 * (r + lines) * (4 * n) - 4 * r * (4 * n)
  {
    assert 4 * n * lines == 4 * (lines * n);
    assert 4 * (r + lines) * (4 * n) == 16 * ((r + lines) * n);
    assert 4 * r * (4 * n) == 16 * (r * n);
  }

  lemma CoversMore(job: Job, strips: seq<Strip>, upTo: nat, strip: Strip)
    requires IsJob(job) && Covers(job, strips, upTo)
    requires strip.offset == upTo && strip.blocks >= 1
    requires strip.ptr == TileStart(job.n, upTo) && WalkTo(job.n, upTo).x == 0
    ensures Covers(job, strips + [strip], upTo + strip.blocks)
  {
    hide TileStart, WalkTo;
    var (more, end) := (strips + [strip], upTo + strip.blocks);
    forall s | 0 <= s < |more| ensures StripFits(job, more, end, s) {
      assert s < |strips| ==> StripFits(job, strips, upTo, s);
      assert more[s] == if s < |strips| then strips[s] else strip;
      assert s + 1 < |more| ==> more[s + 1] == if s + 1 < |strips| then strips[s + 1] else strip;
    }
  }

  /** The queueing loop. */
  method CutStrips(job: Job) returns (strips: seq<Strip>)
    requires IsJob(job)
    ensures Covers(job, strips, Total(job))
    ensures forall s :: 0 <= s < |strips| ==> strips[s].offset == BlockCount(job.n, 32 * s)
    ensures |strips| == (job.rows + 31) / 32
  {
    hide BlockCount, PixelCount, TileStart, WalkTo;
    var parts := (job.rows + 32 - 1) / 32;
    var linesLeft := job.rows;
    var width := 4 * job.n;
    var ptr, offset := 0, 0;
    strips := [];
    NoRows(job.n);
    for j := 0 to parts
      invariant |strips| == j
      invariant linesLeft == job.rows - Min(32 * j, job.rows)
      invariant ptr == PixelCount(job.n, job.rows - linesLeft) && offset == BlockCount(job.n, job.rows - linesLeft)
      invariant Covers(job, strips, offset)
      invariant forall s :: 0 <= s < |strips| ==> strips[s].offset == BlockCount(job.n, 32 * s)
    {
      var lines := Min(32, linesLeft);
      ghost var r := job.rows - linesLeft;
      LinesOfBlocks(job.n, lines, r);
      WalkThere(job.n, r, 0);
      GrowsWithRows(job.n, r, lines);
      var strip := Strip(ptr, width * lines / 4, offset);
      CoversMore(job, strips, offset, strip);
      strips := strips + [strip];
      linesLeft := linesLeft - lines;
      ptr := ptr + width * lines * 4;
      offset := offset + width * lines / 4;
    }
  }

  lemma GrowsWithRows(n: nat, r: nat, lines: nat)
    requires 1 <= n && 1 <= lines
    ensures BlockCount(n, r) < BlockCount(n, r + lines)
  {
    RowsGrow(n, r, r + lines);
  }

  // ---------- interleaved runs ----------

  /** The shared output, and of every task the blocks it has done, its source pointer, its column counter
      and its pipe. */
  datatype Run = Run(dst: seq<bv64>, done: seq<nat>, src: seq<nat>, cols: seq<nat>, pipes: seq<seq<PixBlock>>)

  ghost predicate FitsRun(job: Job, strips: seq<Strip>, run: Run) {
    |run.done| == |run.src| == |run.cols| == |run.pipes| == |strips| && |run.dst| == Total(job)
  }

  function Start(strips: seq<Strip>, dst: seq<bv64>): Run {
    Run(dst, seq(|strips|, _ => 0), seq(|strips|, s requires 0 <= s < |strips| => strips[s].ptr),
        seq(|strips|, _ => 0), seq(|strips|, _ => []))
  }

  /** Strip s has a block left, its source pointer is at pixels of the image, and its word is one of the
      output. */
  predicate CanStep(job: Job, strips: seq<Strip>, run: Run, s: nat) {
    && s < |strips| && s < |run.done| && s < |run.src| && s < |run.cols| && s < |run.pipes|
    && run.done[s] < strips[s].blocks
    && 1 <= job.n && TileFits(run.src[s], 4 * job.n, |job.img|)
    && strips[s].offset + run.done[s] < |run.dst|
  }

  lemma {:induction false} StripEndsInside(job: Job, strips: seq<Strip>, s: nat)
    requires IsJob(job) && Covers(job, strips, Total(job)) && s < |strips|
    ensures strips[s].offset + strips[s].blocks <= Total(job)
    decreases |strips| - s
  {
    hide Total, TileStart, WalkTo;
    assert StripFits(job, strips, Total(job), s);
    if s + 1 < |strips| {
      StripEndsInside(job, strips, s + 1);
    }
  }

  /** The task of strip s takes its next turn: it encodes the tile its pointer is at, stores the word, fills
      its own pipe, and moves the pointer on, at the end of a row to the next. */
  function Step(job: Job, strips: seq<Strip>, run: Run, s: nat): (next: Run)
    requires CanStep(job, strips, run, s)
  {
    var k := strips[s].offset + run.done[s];
    var b := TileAt(job.img, run.src[s], 4 * job.n);
    var e := job.enc(b);
    var newRow := run.cols[s] + 1 == job.n;
    Run(run.dst[k := e.word],
        run.done[s := run.done[s] + 1],
        run.src[s := run.src[s] + 4 + (if newRow then 12 * job.n else 0)],
        run.cols[s := if newRow then 0 else run.cols[s] + 1],
        run.pipes[s := run.pipes[s] + Entry(b, e, k)])
  }

  /** A run from one state to another, given by the strips that take the steps. */
  ghost predicate Reaches(job: Job, strips: seq<Strip>, run: Run, schedule: seq<nat>, end: Run)
    requires IsJob(job) && Covers(job, strips, Total(job)) && FitsRun(job, strips, run)
    decreases |schedule|
  {
    if schedule == [] then end == run
    else CanStep(job, strips, run, schedule[0])
         && Reaches(job, strips, Step(job, strips, run, schedule[0]), schedule[1..], end)
  }

  ghost predicate Finished(strips: seq<Strip>, run: Run) {
    |run.done| == |strips| && forall s :: 0 <= s < |strips| ==> run.done[s] == strips[s].blocks
  }

  /** What every interleaving keeps: strip s has written exactly the words of the blocks it has done, its
      pipe holds exactly their entries, and its pointer and counter are at the block that comes next. */
  ghost predicate Inv(job: Job, strips: seq<Strip>, run: Run)
    requires IsJob(job) && Covers(job, strips, Total(job)) && FitsRun(job, strips, run)
  {
    forall s :: 0 <= s < |strips| ==> StripDone(job, strips, run, s)
  }

  ghost predicate StripDone(job: Job, strips: seq<Strip>, run: Run, s: nat)
    requires IsJob(job) && Covers(job, strips, Total(job)) && FitsRun(job, strips, run) && s < |strips|
  {
    StripEndsInside(job, strips, s);
    var first := strips[s].offset;
    && run.done[s] <= strips[s].blocks
    && (forall k :: first <= k < first + run.done[s] ==> run.dst[k] == WordAt(job, k))
    && run.pipes[s] == PipeAt(job, first, run.done[s])
    && run.src[s] == TileStart(job.n, first + run.done[s]) && run.cols[s] == WalkTo(job.n, first + run.done[s]).x
  }

  /** The task of a strip that is not through can go on: it never leaves the image or the output. */
  lemma UnfinishedCanStep(job: Job, strips: seq<Strip>, run: Run, s: nat)
    requires IsJob(job) && Covers(job, strips, Total(job)) && FitsRun(job, strips, run) && s < |strips|
    requires StripDone(job, strips, run, s) && run.done[s] != strips[s].blocks
    ensures CanStep(job, strips, run, s)
  {
    hide Covers, WordAt, PipeAt, TileStart, WalkTo, TileFits, PixelCount;
    StripEndsInside(job, strips, s);
    TileInImage(job.n, job.rows, strips[s].offset + run.done[s]);
  }

  /** One turn at the right place is one block of the sequential pass. */
  lemma TurnIsBlock(job: Job, strips: seq<Strip>, run: Run, s: nat)
    requires IsJob(job) && Covers(job, strips, Total(job)) && FitsRun(job, strips, run) && CanStep(job, strips, run, s)
    requires StripDone(job, strips, run, s)
    ensures var (k, next) := (strips[s].offset + run.done[s], Step(job, strips, run, s));
            && k < Total(job)
            && next.dst == run.dst[k := WordAt(job, k)]
            && next.pipes[s] == run.pipes[s] + EntryAt(job, k)
            && next.src[s] == TileStart(job.n, k + 1) && next.cols[s] == WalkTo(job.n, k + 1).x
  {
    hide Covers, PipeAt, TileStart, WalkTo, TileFits, PixelCount, BlockCount, Entry, TileAt;
    TileStartNext(job.n, strips[s].offset + run.done[s]);
  }

  lemma {:induction false} StripsApart(job: Job, strips: seq<Strip>, s: nat, s2: nat)
    requires IsJob(job) && Covers(job, strips, Total(job)) && s < s2 < |strips|
    ensures strips[s].offset + strips[s].blocks <= strips[s2].offset
    decreases s2 - s
  {
    hide Total, TileStart, WalkTo;
    assert StripFits(job, strips, Total(job), s2 - 1);
    if s + 1 < s2 {
      StripsApart(job, strips, s, s2 - 1);
    }
  }

  lemma StepKeepsInv(job: Job, strips: seq<Strip>, run: Run, s: nat)
    requires IsJob(job) && Covers(job, strips, Total(job)) && FitsRun(job, strips, run) && CanStep(job, strips, run, s)
    requires Inv(job, strips, run)
    ensures FitsRun(job, strips, Step(job, strips, run, s)) && Inv(job, strips, Step(job, strips, run, s))
  {
    hide IsJob, Covers, Total, WordAt, EntryAt, PipeAt, TileFits, TileAt, Entry, TileStart, WalkTo;
    var next := Step(job, strips, run, s);
    assert StripDone(job, strips, run, s);
    TurnIsBlock(job, strips, run, s);
    StripEndsInside(job, strips, s);
    PipeAtStep(job, strips[s].offset, run.done[s]);
    forall s2 | 0 <= s2 < |strips| ensures StripDone(job, strips, next, s2) {
      assert StripDone(job, strips, run, s2);
      StripEndsInside(job, strips, s2);
      if s2 == s {
        assert next.done[s] == run.done[s] + 1;
      } else {
        OtherTask(job, strips, run, s, s2);
        if s2 < s {
          StripsApart(job, strips, s2, s);
        } else {
          StripsApart(job, strips, s, s2);
        }
      }
    }
  }

  lemma OtherTask(job: Job, strips: seq<Strip>, run: Run, s: nat, s2: nat)
    requires FitsRun(job, strips, run) && CanStep(job, strips, run, s) && s2 < |strips| && s2 != s
    ensures var next := Step(job, strips, run, s);
            && next.done[s2] == run.done[s2] && next.pipes[s2] == run.pipes[s2]
            && next.src[s2] == run.src[s2] && next.cols[s2] == run.cols[s2]
  {
    hide TileFits, TileAt, Entry, Total;
  }

  lemma {:induction false} RunsKeepInv(job: Job, strips: seq<Strip>, run: Run, schedule: seq<nat>, end: Run)
    requires IsJob(job) && Covers(job, strips, Total(job)) && FitsRun(job, strips, run)
    requires Inv(job, strips, run) && Reaches(job, strips, run, schedule, end)
    ensures FitsRun(job, strips, end) && Inv(job, strips, end)
    decreases |schedule|
  {
    hide IsJob, Covers, Total, Inv, Step, CanStep;
    if schedule != [] {
      StepKeepsInv(job, strips, run, schedule[0]);
      RunsKeepInv(job, strips, Step(job, strips, run, schedule[0]), schedule[1..], end);
    }
  }

  /** The pipes one after another, in the order of the strips. */
  function Merged(pipes: seq<seq<PixBlock>>): seq<PixBlock> {
    if pipes == [] then [] else Merged(pipes[..|pipes| - 1]) + pipes[|pipes| - 1]
  }

  lemma NoPipe(job: Job, first: nat)
    requires IsJob(job) && first <= Total(job)
    ensures PipeAt(job, first, 0) == []
  {
  }

  lemma {:induction false} PipesAdd(job: Job, first: nat, a: nat, b: nat)
    requires IsJob(job) && first + a + b <= Total(job)
    ensures PipeAt(job, first, a + b)
            == PipeAt(job, first, a) + PipeAt(job, first + a, b)
  {
    hide EntryAt, Total, IsJob, PipeAt;
    NoPipe(job, first + a);
    if b > 0 {
      PipesAdd(job, first, a, b - 1);
      PipeAtStep(job, first, a + (b - 1));
      PipeAtStep(job, first + a, b - 1);
    }
  }

  /** Where the first m strips end. */
  ghost function EndOf(job: Job, strips: seq<Strip>, m: nat): nat
    requires IsJob(job) && Covers(job, strips, Total(job)) && m <= |strips|
  {
    if m == |strips| then Total(job) else strips[m].offset
  }

  lemma {:induction false} MergedIsSequential(job: Job, strips: seq<Strip>, run: Run, m: nat)
    requires IsJob(job) && Covers(job, strips, Total(job)) && FitsRun(job, strips, run)
    requires Inv(job, strips, run) && Finished(strips, run) && m <= |strips|
    ensures EndOf(job, strips, m) <= Total(job)
    ensures Merged(run.pipes[..m]) == PipeAt(job, 0, EndOf(job, strips, m))
    decreases m
  {
    hide IsJob, Total, WordAt, EntryAt, PipeAt, Merged, TileStart, WalkTo;
    NoPipe(job, 0);
    if m == 0 {
      MergedEmpty();
      assert run.pipes[..0] == [];
    } else {
      MergedIsSequential(job, strips, run, m - 1);
      StripEndsInside(job, strips, m - 1);
      assert StripFits(job, strips, Total(job), m - 1);
      assert StripDone(job, strips, run, m - 1);
      MergedLast(run.pipes, m);
      PipesAdd(job, 0, strips[m - 1].offset, strips[m - 1].blocks);
    }
  }

  lemma MergedEmpty()
    ensures Merged([]) == []
  {
  }

  lemma MergedLast(pipes: seq<seq<PixBlock>>, m: nat)
    requires 1 <= m <= |pipes|
    ensures Merged(pipes[..m]) == Merged(pipes[..m - 1]) + pipes[m - 1]
  {
    assert pipes[..m][..m - 1] == pipes[..m - 1];
  }

  /** Every block belongs to a strip. */
  lemma {:induction false} StripOf(job: Job, strips: seq<Strip>, k: nat, m: nat) returns (s: nat)
    requires IsJob(job) && Covers(job, strips, Total(job)) && m <= |strips| && k < EndOf(job, strips, m)
    ensures s < m && strips[s].offset <= k < strips[s].offset + strips[s].blocks
    decreases m
  {
    hide IsJob, Total, TileStart, WalkTo;
    if m == 0 {
      assert false;
    } else if strips[m - 1].offset <= k {
      assert StripFits(job, strips, Total(job), m - 1);
      s := m - 1;
    } else {
      s := StripOf(job, strips, k, m - 1);
    }
  }

  /** Running the strips as independent tasks: whatever the interleaving, once every task is through,
      every word is that of the block at its place, as in one sequential pass, and the pipes merged
      in the order of the strips are the pipe of that pass. */
  lemma AnyInterleavingIsSequential(job: Job, strips: seq<Strip>, dst: seq<bv64>, schedule: seq<nat>, end: Run)
    requires IsJob(job) && Covers(job, strips, Total(job)) && |dst| == Total(job)
    requires Reaches(job, strips, Start(strips, dst), schedule, end) && Finished(strips, end)
    ensures |end.dst| == Total(job)
    ensures forall k :: 0 <= k < Total(job) ==> end.dst[k] == WordAt(job, k)
    ensures Merged(end.pipes) == PipeAt(job, 0, Total(job))
  {
    hide IsJob, Covers, Total, Reaches, WordAt, PipeAt, Merged, EndOf;
    StartKeepsInv(job, strips, dst);
    RunsKeepInv(job, strips, Start(strips, dst), schedule, end);
    AllStripsEnd(job, strips);
    forall k | 0 <= k < Total(job) ensures end.dst[k] == WordAt(job, k) {
      var s := StripOf(job, strips, k, |strips|);
      assert StripDone(job, strips, end, s);
    }
    MergedIsSequential(job, strips, end, |strips|);
    assert end.pipes[..|strips|] == end.pipes;
  }

  lemma AllStripsEnd(job: Job, strips: seq<Strip>)
    requires IsJob(job) && Covers(job, strips, Total(job))
    ensures EndOf(job, strips, |strips|) == Total(job)
  {
  }

  lemma StartKeepsInv(job: Job, strips: seq<Strip>, dst: seq<bv64>)
    requires IsJob(job) && Covers(job, strips, Total(job)) && |dst| == Total(job)
    ensures FitsRun(job, strips, Start(strips, dst)) && Inv(job, strips, Start(strips, dst))
  {
    hide IsJob, Total, PipeAt, TileStart, WalkTo;
    forall s | 0 <= s < |strips| ensures StripDone(job, strips, Start(strips, dst), s) {
      assert StripFits(job, strips, Total(job), s);
      StripEndsInside(job, strips, s);
      NoPipe(job, strips[s].offset);
    }
  }

  /** Blocks the first m strips still have to do. */
  ghost function BlocksLeft(strips: seq<Strip>, run: Run, m: nat): int
    requires m <= |strips| && m <= |run.done|
  {
    if m == 0 then 0 else BlocksLeft(strips, run, m - 1) + strips[m - 1].blocks - run.done[m - 1]
  }

  lemma {:induction false} StepDoesOneBlock(job: Job, strips: seq<Strip>, run: Run, s: nat, m: nat)
    requires IsJob(job) && Covers(job, strips, Total(job)) && FitsRun(job, strips, run) && CanStep(job, strips, run, s)
    requires m <= |strips|
    ensures s < |strips|
    ensures BlocksLeft(strips, Step(job, strips, run, s), m) == BlocksLeft(strips, run, m) - (if s < m then 1 else 0)
    decreases m
  {
    hide IsJob, Covers, Total;
    if m > 0 {
      StepDoesOneBlock(job, strips, run, s, m - 1);
    }
  }

  lemma {:induction false} SomeStripIsReady(strips: seq<Strip>, run: Run, m: nat)
    requires |run.done| == |strips| && m <= |strips|
    requires forall s :: 0 <= s < |strips| ==> run.done[s] <= strips[s].blocks
    ensures BlocksLeft(strips, run, m) >= 0
    ensures BlocksLeft(strips, run, m) > 0 <==> exists s :: 0 <= s < m && run.done[s] != strips[s].blocks
  {
    if m > 0 {
      SomeStripIsReady(strips, run, m - 1);
      assert run.done[m - 1] <= strips[m - 1].blocks;
    }
  }

  /** No task waits for another or leaves its bounds: every task that is not through can go on, each step
      does one block, and the number of blocks left tells how many steps every run still takes. */
  lemma {:induction false} EveryRunFinishes(job: Job, strips: seq<Strip>, run: Run, schedule: seq<nat>, end: Run)
    requires IsJob(job) && Covers(job, strips, Total(job)) && FitsRun(job, strips, run)
    requires Inv(job, strips, run) && Reaches(job, strips, run, schedule, end)
    ensures |run.done| == |end.done| == |strips|
    ensures BlocksLeft(strips, end, |strips|) == BlocksLeft(strips, run, |strips|) - |schedule|
    ensures forall s :: 0 <= s < |strips| && end.done[s] != strips[s].blocks ==> CanStep(job, strips, end, s)
    ensures Finished(strips, end) <==> |schedule| == BlocksLeft(strips, run, |strips|)
    decreases |schedule|
  {
    hide IsJob, Covers, Total, Step, BlocksLeft, CanStep;
    if schedule == [] {
      forall s | 0 <= s < |strips|
        ensures run.done[s] <= strips[s].blocks
        ensures run.done[s] != strips[s].blocks ==> CanStep(job, strips, run, s)
      {
        assert StripDone(job, strips, run, s);
        if run.done[s] != strips[s].blocks {
          UnfinishedCanStep(job, strips, run, s);
        }
      }
      SomeStripIsReady(strips, run, |strips|);
    } else {
      StepKeepsInv(job, strips, run, schedule[0]);
      StepDoesOneBlock(job, strips, run, schedule[0], |strips|);
      EveryRunFinishes(job, strips, Step(job, strips, run, schedule[0]), schedule[1..], end);
    }
  }

  /** The image decoded from the words of any finished run shows, block by block, what the encoder made of
      the block at that place. */
  lemma DecodedBlockByBlock(job: Job, strips: seq<Strip>, dst: seq<bv64>, schedule: seq<nat>, end: Run, img: seq<Pixel>,
                            k: nat, i: nat, j: nat)
    requires IsJob(job) && Covers(job, strips, Total(job)) && |dst| == Total(job)
    requires Reaches(job, strips, Start(strips, dst), schedule, end) && Finished(strips, end)
    requires |img| == |job.img| && forall m :: 0 <= m < |end.dst| ==> TileShows(img, job.n, m, end.dst[m])
    requires k < Total(job) && i < 4 && j < 4
    ensures var at := At(TileStart(job.n, k), 4 * job.n, i, j);
            at < |img| && img[at] == PixelOf(job.enc(BlockOf(job.img, job.n, job.rows, k)).word, i, j)
  {
    hide Covers, Reaches, PixelOf, At, TileStart, BlockOf, Finished, PixelCount;
    AnyInterleavingIsSequential(job, strips, dst, schedule, end);
    assert TileShows(img, job.n, k, end.dst[k]);
    TileInImage(job.n, job.rows, k);
    TileInside(TileStart(job.n, k), 4 * job.n, |img|);
  }

  /** The merging loop: the pipes are copied one behind the other. */
  method MergePipes(pixelMat: seq<seq<PixBlock>>, finalPipe: array<PixBlock>) returns (finalPipeSize: nat)
    requires |Merged(pixelMat)| <= finalPipe.Length
    modifies finalPipe
    ensures finalPipeSize <= finalPipe.Length && finalPipe[..finalPipeSize] == Merged(pixelMat)
  {
    finalPipeSize := 0;
    assert pixelMat[..|pixelMat|] == pixelMat;
    for i := 0 to |pixelMat|
      invariant finalPipeSize == |Merged(pixelMat[..i])| <= finalPipe.Length
      invariant finalPipe[..finalPipeSize] == Merged(pixelMat[..i])
    {
      MergedLast(pixelMat, i + 1);
      MergedFits(pixelMat, i + 1);
      var pipe := pixelMat[i];
      for k := 0 to |pipe|
        invariant finalPipe[..finalPipeSize + k] == Merged(pixelMat[..i]) + pipe[..k]
      {
        finalPipe[finalPipeSize + k] := pipe[k];
      }
      assert pipe[..|pipe|] == pipe;
      finalPipeSize := finalPipeSize + |pipe|;
    }
  }

  lemma {:induction false} MergedFits(pipes: seq<seq<PixBlock>>, m: nat)
    requires m <= |pipes|
    ensures |Merged(pipes[..m])| <= |Merged(pipes)|
    decreases |pipes| - m
  {
    if m < |pipes| {
      MergedFits(pipes, m + 1);
      MergedLast(pipes, m + 1);
    } else {
      assert pipes[..m] == pipes;
    }
  }
}
