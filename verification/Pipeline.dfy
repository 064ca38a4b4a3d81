/** The strips of an image queued as tasks of the dispatcher and run by its threads: when Sync returns, in
    whatever interleaving, all words and the merged pipes are those of one sequential pass. Task number s
    is strip s; a task is done when its strip has no block left. */
module Pipeline {
  import opened BlockWalk
  import opened BlockDecoder
  import Strips
  import TaskDispatch

  datatype State = State(world: TaskDispatch.World, run: Strips.Run)

  /** A step of the dispatcher, or the next block of a strip whose task some thread holds. */
  datatype Step = Dispatch(step: TaskDispatch.Step) | Encode(s: nat)

  predicate IsThrough(strips: seq<Strips.Strip>, run: Strips.Run, t: nat) {
    t < |strips| ==> t < |run.done| && run.done[t] == strips[t].blocks
  }

  /** A thread holds task t. */
  predicate InHands(w: TaskDispatch.World, t: nat) {
    TaskDispatch.MainHand(w.main, t) + TaskDispatch.InHand(w.workers, t) > 0
  }

  predicate Enabled(job: Strips.Job, strips: seq<Strips.Strip>, st: State, step: Step) {
    match step
    case Dispatch(d) =>
      && TaskDispatch.Enabled(st.world, d)
      && (d.SyncRan? ==> IsThrough(strips, st.run, st.world.main.task))
      && (d.WorkerRan? ==> IsThrough(strips, st.run, st.world.workers[d.i].task))
    case Encode(s) => InHands(st.world, s) && Strips.CanStep(job, strips, st.run, s)
  }

  function Apply(job: Strips.Job, strips: seq<Strips.Strip>, st: State, step: Step): State
    requires Enabled(job, strips, st, step)
  {
    match step
    case Dispatch(d) => st.(world := TaskDispatch.Apply(st.world, d))
    case Encode(s) => st.(run := Strips.Step(job, strips, st.run, s))
  }

  ghost predicate Reaches(job: Strips.Job, strips: seq<Strips.Strip>, st: State, steps: seq<Step>, end: State)
    decreases |steps|
  {
    if steps == [] then st == end
    else Enabled(job, strips, st, steps[0]) && Reaches(job, strips, Apply(job, strips, st, steps[0]), steps[1..], end)
  }

  function Init(workers: nat, strips: seq<Strips.Strip>, dst: seq<bv64>): State {
    State(TaskDispatch.Init(workers), Strips.Start(strips, dst))
  }

  ghost predicate IsPlan(job: Strips.Job, strips: seq<Strips.Strip>) {
    Strips.IsJob(job) && Strips.Covers(job, strips, Strips.Total(job))
  }

  /** Tasks that have been run are through with their strips. */
  ghost predicate RanAreThrough(strips: seq<Strips.Strip>, st: State) {
    forall t: nat :: st.world.ran[t] > 0 ==> IsThrough(strips, st.run, t)
  }

  lemma StepKeepsThrough(job: Strips.Job, strips: seq<Strips.Strip>, st: State, step: Step)
    requires Enabled(job, strips, st, step) && RanAreThrough(strips, st) && |st.run.done| == |strips|
    ensures RanAreThrough(strips, Apply(job, strips, st, step)) && |Apply(job, strips, st, step).run.done| == |strips|
  {
    hide TileFits, TileAt, Entry;
    var next := Apply(job, strips, st, step);
    forall t: nat | next.world.ran[t] > 0 ensures IsThrough(strips, next.run, t) {
      if st.world.ran[t] > 0 {
        assert IsThrough(strips, st.run, t);
      }
    }
  }

  /** A run of the whole is a run of the dispatcher and a run of the strips. */
  lemma {:induction false} Projects(job: Strips.Job, strips: seq<Strips.Strip>, st: State, steps: seq<Step>, end: State)
    returns (ds: seq<TaskDispatch.Step>, schedule: seq<nat>)
    requires IsPlan(job, strips) && Strips.FitsRun(job, strips, st.run) && Strips.Inv(job, strips, st.run)
    requires RanAreThrough(strips, st) && Reaches(job, strips, st, steps, end)
    ensures TaskDispatch.Reaches(st.world, ds, end.world)
    ensures Strips.Reaches(job, strips, st.run, schedule, end.run)
    ensures RanAreThrough(strips, end) && Strips.FitsRun(job, strips, end.run) && Strips.Inv(job, strips, end.run)
    decreases |steps|
  {
    hide Strips.CanStep, Strips.Step, Strips.Inv, Strips.IsJob, Strips.Covers, Strips.Total, TaskDispatch.Apply,
         TaskDispatch.Enabled, RanAreThrough;
    if steps == [] {
      return [], [];
    }
    StepKeepsThrough(job, strips, st, steps[0]);
    match steps[0]
    case Dispatch(d) =>
      ds, schedule := Projects(job, strips, Apply(job, strips, st, steps[0]), steps[1..], end);
      assert ([d] + ds)[1..] == ds;
      ds := [d] + ds;
    case Encode(s) =>
      Strips.StepKeepsInv(job, strips, st.run, s);
      ds, schedule := Projects(job, strips, Apply(job, strips, st, steps[0]), steps[1..], end);
      assert ([s] + schedule)[1..] == schedule;
      schedule := [s] + schedule;
  }

  /** When Sync returns with all strips queued, the output holds the word of every block, and the pipes
      merged in the order of the strips are those of one sequential pass. */
  lemma SyncReturnsWithImageEncoded(job: Strips.Job, strips: seq<Strips.Strip>, workers: nat, dst: seq<bv64>,
                                    steps: seq<Step>, st: State, step: Step)
    requires IsPlan(job, strips) && |dst| == Strips.Total(job)
    requires Reaches(job, strips, Init(workers, strips, dst), steps, st) && Enabled(job, strips, st, step)
    requires forall s: nat :: s < |strips| ==> st.world.queued[s] > 0
    requires TaskDispatch.InSync(st.world.main) && !TaskDispatch.InSync(Apply(job, strips, st, step).world.main)
    ensures var end := Apply(job, strips, st, step);
            && |end.run.dst| == Strips.Total(job)
            && (forall k :: 0 <= k < Strips.Total(job) ==> end.run.dst[k] == Strips.WordAt(job, k))
            && Strips.Merged(end.run.pipes) == Strips.PipeAt(job, 0, Strips.Total(job))
  {
    hide Strips.CanStep, Strips.Step, Strips.Inv, Strips.IsJob, Strips.Covers, Strips.Total, Strips.WordAt,
         Strips.PipeAt,
         Strips.Merged, TaskDispatch.Enabled, Strips.Start, Reaches;
    var start := Init(workers, strips, dst);
    Strips.StartKeepsInv(job, strips, dst);
    assert RanAreThrough(strips, start);
    var ds, schedule := Projects(job, strips, start, steps, st);
    TaskDispatch.SyncReturnsWithAllRun(workers, ds, st.world, step.step);
    SameQueue(st.world, step.step);
    StepKeepsThrough(job, strips, st, step);
    var end := Apply(job, strips, st, step);
    forall s: nat | s < |strips| ensures end.run.done[s] == strips[s].blocks {
      assert end.world.ran[s] > 0;
      assert IsThrough(strips, end.run, s);
    }
    Strips.AnyInterleavingIsSequential(job, strips, dst, schedule, end.run);
  }

  lemma SameQueue(w: TaskDispatch.World, step: TaskDispatch.Step)
    requires TaskDispatch.InSync(w.main) && TaskDispatch.Enabled(w, step)
    ensures TaskDispatch.Apply(w, step).queued == w.queued
  {
  }

  /** And Sync is never stuck on the way: while it waits some thread can step or encode a block. */
  lemma SyncIsNeverStuck(job: Strips.Job, strips: seq<Strips.Strip>, workers: nat, dst: seq<bv64>, steps: seq<Step>,
                         st: State)
    requires IsPlan(job, strips) && |dst| == Strips.Total(job)
    requires Reaches(job, strips, Init(workers, strips, dst), steps, st) && TaskDispatch.InSync(st.world.main)
    ensures exists step :: Enabled(job, strips, st, step) && (step.Dispatch? ==> !TaskDispatch.IsWake(step.step))
  {
    hide Strips.CanStep, Strips.Step, Strips.IsJob, Strips.Covers, Strips.Total, Strips.Start, Reaches,
         Strips.StripDone;
    Strips.StartKeepsInv(job, strips, dst);
    var start := Init(workers, strips, dst);
    assert RanAreThrough(strips, start);
    var ds, schedule := Projects(job, strips, start, steps, st);
    TaskDispatch.SyncIsNeverStuck(workers, ds, st.world);
    var d :| TaskDispatch.Enabled(st.world, d) && !TaskDispatch.IsWake(d);
    if d.SyncRan? && !IsThrough(strips, st.run, st.world.main.task) {
      CanEncode(job, strips, st, st.world.main.task);
    } else if d.WorkerRan? && !IsThrough(strips, st.run, st.world.workers[d.i].task) {
      HandsCount(st.world.workers, d.i, st.world.workers[d.i].task);
      CanEncode(job, strips, st, st.world.workers[d.i].task);
    } else {
      assert Enabled(job, strips, st, Dispatch(d));
    }
  }

  lemma CanEncode(job: Strips.Job, strips: seq<Strips.Strip>, st: State, t: nat)
    requires IsPlan(job, strips) && Strips.FitsRun(job, strips, st.run) && Strips.Inv(job, strips, st.run)
    requires !IsThrough(strips, st.run, t) && InHands(st.world, t)
    ensures Enabled(job, strips, st, Encode(t))
  {
    hide Strips.CanStep, Strips.IsJob, Strips.Covers, Strips.Total, Strips.StripDone;
    Strips.UnfinishedCanStep(job, strips, st.run, t);
  }

  lemma {:induction false} HandsCount(ws: seq<TaskDispatch.Worker>, i: nat, t: nat)
    requires i < |ws| && ws[i] == TaskDispatch.Running(t)
    ensures TaskDispatch.InHand(ws, t) > 0
    decreases |ws|
  {
    var n := |ws| - 1;
    if i < n {
      HandsCount(ws[..n], i, t);
    }
  }
}
