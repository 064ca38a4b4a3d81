/** The work queue of TaskDispatch.cpp: one queue, a count of running jobs, two condition variables.
    The critical sections are the methods of a class; the threads are a system of interleaved steps
    over them. Tasks do not queue further tasks. */
module TaskDispatch {

  datatype Option<T> = None | Some(value: T)

  type Task = nat

  /** The shared state: m_queue, m_jobs and m_exit. */
  datatype Shared = Shared(queue: seq<Task>, jobs: nat, exit: bool)

  /** What a critical section tells its thread to do next. */
  datatype Decision = Take(task: Task) | Sleep | Leave

  function Last(queue: seq<Task>): Task
    requires queue != []
  {
    queue[|queue| - 1]
  }

  function WithoutLast(queue: seq<Task>): seq<Task>
    requires queue != []
  {
    queue[..|queue| - 1]
  }

  /** Queue stores a task, and notifies a worker unless the task is alone. */
  function AfterQueue(s: Shared, f: Task): Shared {
    s.(queue := s.queue + [f])
  }

  function QueueNotifies(s: Shared): bool { s.queue != [] }

  /** A worker whose task is done is no longer counted; the last one notifies Sync unless tasks are left. */
  function AfterFinish(s: Shared): Shared
    requires s.jobs > 0
  {
    s.(jobs := s.jobs - 1)
  }

  function FinishNotifies(s: Shared): bool { s.jobs == 1 && s.queue == [] }

  /** Sync takes the task queued last; with an empty queue it leaves or waits for the jobs. */
  function SyncDecision(s: Shared): Decision {
    if s.queue != [] then Take(Last(s.queue)) else if s.jobs == 0 then Leave else Sleep
  }

  function AfterSync(s: Shared): Shared {
    if s.queue != [] then s.(queue := WithoutLast(s.queue)) else s
  }

  /** A worker leaves when the dispatcher is shut down, takes a task when there is one, or sleeps. */
  function WorkerDecision(s: Shared): Decision {
    if s.exit then Leave else if s.queue != [] then Take(Last(s.queue)) else Sleep
  }

  function AfterWorker(s: Shared): Shared {
    if !s.exit && s.queue != [] then s.(queue := WithoutLast(s.queue), jobs := s.jobs + 1) else s
  }

  class Dispatcher {
    var queue: seq<Task>
    var jobs: nat
    var exit: bool

    function State(): Shared
      reads this
    {
      Shared(queue, jobs, exit)
    }

    constructor ()
      ensures State() == Shared([], 0, false)
    {
      queue, jobs, exit := [], 0, false;
    }

    /** Queue: whether to notify a worker. A lone task is left to Sync. */
    method Queue(f: Task) returns (notify: bool)
      modifies this
      ensures State() == AfterQueue(old(State()), f) && notify == QueueNotifies(old(State()))
    {
      queue := queue + [f];
      notify := |queue| > 1;
    }

    /** One turn of Sync under the lock. */
    method SyncTurn() returns (d: Decision)
      modifies this
      ensures d == SyncDecision(old(State())) && State() == AfterSync(old(State()))
    {
      if queue != [] {
        d := Take(queue[|queue| - 1]);
        queue := queue[..|queue| - 1];
      } else if jobs == 0 {
        d := Leave;
      } else {
        d := Sleep;
      }
    }

    /** A worker's turn under the lock, up to the task or the wait. */
    method WorkerTurn() returns (d: Decision)
      modifies this
      ensures d == WorkerDecision(old(State())) && State() == AfterWorker(old(State()))
    {
      if queue == [] && !exit {
        return Sleep;
      }
      if exit {
        return Leave;
      }
      d := Take(queue[|queue| - 1]);
      queue := queue[..|queue| - 1];
      jobs := jobs + 1;
    }

    /** A worker's turn under the lock after its task: whether to notify Sync. */
    method Finish() returns (notify: bool)
      requires jobs > 0
      modifies this
      ensures State() == AfterFinish(old(State())) && notify == FinishNotifies(old(State()))
    {
      jobs := jobs - 1;
      notify := jobs == 0 && queue == [];
    }
  }

  // ---------- the threads ----------

  /** The thread that queues, calls Sync, and finally destroys the dispatcher. */
  datatype Main =
    | Outside
    | Queued                  // task stored, a notification still to be sent
    | SyncTurns               // about to lock
    | SyncRuns(task: Task)
    | SyncSleeps
    | SyncWoken               // woken, about to lock and look at the jobs again
    | ExitSet
    | Joining
    | Destroyed

  datatype Worker =
    | Turning                 // about to lock
    | FallingAsleep           // has decided to sleep and still holds the lock
    | Sleeping
    | Running(task: Task)
    | Finishing               // task done, about to lock
    | Notifying               // unlocked, about to notify Sync
    | Exited

  /** All threads, with the tasks ever queued and the tasks ever run. */
  datatype World = World(shared: Shared, main: Main, workers: seq<Worker>, locked: bool,
                         queued: multiset<Task>, ran: multiset<Task>)

  datatype Step =
    | MainQueues(task: Task)
    | MainNotifies(woken: Option<nat>)
    | SyncBegins
    | SyncDecides
    | SyncRan
    | SyncWakes               // spuriously
    | SyncLooks
    | MainSetsExit
    | MainNotifiesAll
    | MainJoins
    | WorkerDecides(i: nat)
    | WorkerSleeps(i: nat)
    | WorkerWakes(i: nat)     // spuriously
    | WorkerRan(i: nat)
    | WorkerFinishes(i: nat)
    | WorkerNotifies(i: nat)

  predicate Is(w: World, i: nat, s: Worker) {
    i < |w.workers| && w.workers[i] == s
  }

  predicate Enabled(w: World, step: Step) {
    match step
    case MainQueues(_) => w.main == Outside && !w.locked
    case MainNotifies(None) => w.main == Queued && forall i :: 0 <= i < |w.workers| ==> w.workers[i] != Sleeping
    case MainNotifies(Some(i)) => w.main == Queued && Is(w, i, Sleeping)
    case SyncBegins => w.main == Outside
    case SyncDecides => w.main == SyncTurns && !w.locked
    case SyncRan => w.main.SyncRuns?
    case SyncWakes => w.main == SyncSleeps
    case SyncLooks => w.main == SyncWoken && !w.locked
    case MainSetsExit => w.main == Outside
    case MainNotifiesAll => w.main == ExitSet && !w.locked
    case MainJoins => w.main == Joining && forall i :: 0 <= i < |w.workers| ==> w.workers[i] == Exited
    case WorkerDecides(i) => Is(w, i, Turning) && !w.locked
    case WorkerSleeps(i) => Is(w, i, FallingAsleep)
    case WorkerWakes(i) => Is(w, i, Sleeping)
    case WorkerRan(i) => i < |w.workers| && w.workers[i].Running?
    case WorkerFinishes(i) => Is(w, i, Finishing) && !w.locked && w.shared.jobs > 0
    case WorkerNotifies(i) => Is(w, i, Notifying)
  }

  function Woken(s: Worker): Worker {
    if s == Sleeping then Turning else s
  }

  function WakeAll(ws: seq<Worker>): (r: seq<Worker>)
    ensures |r| == |ws| && forall i :: 0 <= i < |ws| ==> r[i] == Woken(ws[i])
  {
    seq(|ws|, i requires 0 <= i < |ws| => Woken(ws[i]))
  }

  function Apply(w: World, step: Step): World
    requires Enabled(w, step)
  {
    match step
    case MainQueues(t) =>
      w.(shared := AfterQueue(w.shared, t),
         main := if QueueNotifies(w.shared) then Queued else Outside,
         queued := w.queued + multiset{t})
    case MainNotifies(None) => w.(main := Outside)
    case MainNotifies(Some(i)) => w.(main := Outside, workers := w.workers[i := Turning])
    case SyncBegins => w.(main := SyncTurns)
    case SyncDecides =>
      w.(shared := AfterSync(w.shared),
         main := match SyncDecision(w.shared)
                 case Take(t) => SyncRuns(t)
                 case Leave => Outside
                 case Sleep => SyncSleeps)
    case SyncRan => w.(main := SyncTurns, ran := w.ran + multiset{w.main.task})
    case SyncWakes => w.(main := SyncWoken)
    case SyncLooks => w.(main := if w.shared.jobs == 0 then Outside else SyncSleeps)
    case MainSetsExit => w.(main := ExitSet, shared := w.shared.(exit := true))
    case MainNotifiesAll => w.(main := Joining, workers := WakeAll(w.workers))
    case MainJoins => w.(main := Destroyed)
    case WorkerDecides(i) =>
      (match WorkerDecision(w.shared)
       case Take(t) => w.(shared := AfterWorker(w.shared), workers := w.workers[i := Running(t)])
       case Leave => w.(workers := w.workers[i := Exited])
       case Sleep => w.(workers := w.workers[i := FallingAsleep], locked := true))
    case WorkerSleeps(i) => w.(workers := w.workers[i := Sleeping], locked := false)
    case WorkerWakes(i) => w.(workers := w.workers[i := Turning])
    case WorkerRan(i) => w.(workers := w.workers[i := Finishing], ran := w.ran + multiset{w.workers[i].task})
    case WorkerFinishes(i) =>
      w.(shared := AfterFinish(w.shared),
         workers := w.workers[i := if FinishNotifies(w.shared) then Notifying else Turning])
    case WorkerNotifies(i) =>
      w.(workers := w.workers[i := Turning], main := if w.main == SyncSleeps then SyncWoken else w.main)
  }

  function Init(workers: nat): World {
    World(Shared([], 0, false), Outside, seq(workers, _ => Turning), false, multiset{}, multiset{})
  }

  ghost predicate Reaches(w: World, steps: seq<Step>, end: World)
    decreases |steps|
  {
    if steps == [] then w == end
    else Enabled(w, steps[0]) && Reaches(Apply(w, steps[0]), steps[1..], end)
  }

  // ---------- what every step keeps ----------

  /** Workers with a job: those that m_jobs counts. */
  function Busy(ws: seq<Worker>): nat {
    if ws == [] then 0
    else Busy(ws[..|ws| - 1]) + BusyOne(ws[|ws| - 1])
  }

  /** How often task t is in the hands of workers, and in those of the main thread. */
  function InHand(ws: seq<Worker>, t: Task): nat {
    if ws == [] then 0
    else InHand(ws[..|ws| - 1], t) + HandOf(ws[|ws| - 1], t)
  }

  function HandOf(s: Worker, t: Task): nat {
    if s == Running(t) then 1 else 0
  }

  function MainHand(m: Main, t: Task): nat {
    if m == SyncRuns(t) then 1 else 0
  }

  function FallingCount(ws: seq<Worker>): nat {
    if ws == [] then 0
    else FallingCount(ws[..|ws| - 1]) + FallingOne(ws[|ws| - 1])
  }

  function BusyOne(s: Worker): nat {
    if s.Running? || s == Finishing then 1 else 0
  }

  function FallingOne(s: Worker): nat {
    if s == FallingAsleep then 1 else 0
  }

  lemma {:induction false} UpdateOne(ws: seq<Worker>, i: nat, s: Worker, t: Task)
    requires i < |ws|
    ensures Busy(ws[i := s]) == Busy(ws) - BusyOne(ws[i]) + BusyOne(s)
    ensures FallingCount(ws[i := s]) == FallingCount(ws) - FallingOne(ws[i]) + FallingOne(s)
    ensures InHand(ws[i := s], t) == InHand(ws, t) - HandOf(ws[i], t) + HandOf(s, t)
    decreases |ws|
  {
    hide BusyOne, FallingOne, HandOf;
    var n := |ws| - 1;
    if i == n {
      assert ws[i := s][..n] == ws[..n];
    } else {
      assert ws[i := s][..n] == ws[..n][i := s];
      UpdateOne(ws[..n], i, s, t);
    }
  }

  lemma {:induction false} UpdateAll(ws: seq<Worker>, t: Task)
    ensures Busy(WakeAll(ws)) == Busy(ws) && FallingCount(WakeAll(ws)) == FallingCount(ws)
    ensures InHand(WakeAll(ws), t) == InHand(ws, t)
  {
    if ws != [] {
      var n := |ws| - 1;
      assert WakeAll(ws)[..n] == WakeAll(ws[..n]);
      UpdateAll(ws[..n], t);
    }
  }

  ghost predicate SomeNotifying(w: World) {
    exists i :: 0 <= i < |w.workers| && w.workers[i] == Notifying
  }

  /** Every time task t was queued it is in the queue, in one thread's hands, or has been run. */
  ghost predicate Accounted(w: World, t: Task) {
    w.queued[t] == multiset(w.shared.queue)[t] + InHand(w.workers, t) + MainHand(w.main, t) + w.ran[t]
  }

  /** jobs counts the busy workers; the lock is held by the one worker that is falling asleep; Sync
      only waits with an empty queue, and it only sleeps while there is a job or a notification on
      its way; once the destructor has notified, no worker sleeps. */
  ghost predicate Control(w: World) {
    && w.shared.jobs == Busy(w.workers)
    && FallingCount(w.workers) == (if w.locked then 1 else 0)
    && (w.main == SyncSleeps || w.main == SyncWoken ==> w.shared.queue == [])
    && (w.main == SyncSleeps ==> w.shared.jobs > 0 || SomeNotifying(w))
    && (w.shared.exit <==> w.main == ExitSet || w.main == Joining || w.main == Destroyed)
    && (w.main == Joining || w.main == Destroyed ==>
          !w.locked && forall i :: 0 <= i < |w.workers| ==> w.workers[i] != Sleeping)
  }

  /** The invariant of every run. */
  ghost predicate Inv(w: World) {
    Control(w) && forall t :: Accounted(w, t)
  }

  lemma {:induction false} FallingExists(ws: seq<Worker>)
    ensures FallingCount(ws) > 0 <==> exists i :: 0 <= i < |ws| && ws[i] == FallingAsleep
  {
    if ws != [] {
      var n := |ws| - 1;
      FallingExists(ws[..n]);
      if exists i :: 0 <= i < |ws| && ws[i] == FallingAsleep {
        var i :| 0 <= i < |ws| && ws[i] == FallingAsleep;
        assert i < n ==> ws[..n][i] == FallingAsleep;
      }
    }
  }

  lemma {:induction false} BusyExists(ws: seq<Worker>)
    ensures Busy(ws) > 0 <==> exists i :: 0 <= i < |ws| && BusyOne(ws[i]) == 1
  {
    if ws != [] {
      var n := |ws| - 1;
      BusyExists(ws[..n]);
      if exists i :: 0 <= i < |ws| && BusyOne(ws[i]) == 1 {
        var i :| 0 <= i < |ws| && BusyOne(ws[i]) == 1;
        assert i < n ==> ws[..n][i] == ws[i];
      }
    }
  }

  // ---------- every step keeps the invariant ----------

  /** The queue's tasks when the last one is taken. */
  lemma TakeLast(queue: seq<Task>, t: Task)
    requires queue != []
    ensures multiset(queue)[t] == multiset(WithoutLast(queue))[t] + (if Last(queue) == t then 1 else 0)
  {
    assert queue == WithoutLast(queue) + [Last(queue)];
  }

  lemma AddLast(queue: seq<Task>, added: Task, t: Task)
    ensures multiset(queue + [added])[t] == multiset(queue)[t] + (if added == t then 1 else 0)
  {
  }

  predicate IsMainStep(step: Step) {
    step.MainQueues? || step.SyncBegins? || step.SyncDecides? || step.SyncRan? || step.SyncWakes? || step.SyncLooks?
    || step.MainNotifies? || step.MainSetsExit? || step.MainNotifiesAll? || step.MainJoins?
  }

  lemma MainAccounts(w: World, step: Step, t: Task)
    requires Accounted(w, t) && Enabled(w, step) && IsMainStep(step)
    ensures Accounted(Apply(w, step), t)
  {
    if step.SyncDecides? && w.shared.queue != [] {
      TakeLast(w.shared.queue, t);
    } else if step.MainQueues? {
      AddLast(w.shared.queue, step.task, t);
    } else if step.MainNotifiesAll? {
      UpdateAll(w.workers, t);
    } else if step.MainNotifies? && step.woken.Some? {
      UpdateOne(w.workers, step.woken.value, Turning, t);
    }
  }

  lemma WorkerAccounts(w: World, step: Step, t: Task)
    requires Accounted(w, t) && Enabled(w, step) && !IsMainStep(step)
    ensures Accounted(Apply(w, step), t)
  {
    UpdateOne(w.workers, step.i, Apply(w, step).workers[step.i], t);
    if step.WorkerDecides? && WorkerDecision(w.shared).Take? {
      TakeLast(w.shared.queue, t);
    }
  }

  lemma MainControls(w: World, step: Step)
    requires Control(w) && Enabled(w, step) && IsMainStep(step)
    ensures Control(Apply(w, step))
  {
    if step.MainNotifiesAll? {
      UpdateAll(w.workers, 0);
    } else if step.MainNotifies? && step.woken.Some? {
      UpdateOne(w.workers, step.woken.value, Turning, 0);
    }
  }

  lemma WorkerControls(w: World, step: Step)
    requires Control(w) && Enabled(w, step) && !IsMainStep(step)
    ensures Control(Apply(w, step))
  {
    hide Busy, FallingCount;
    var next := Apply(w, step);
    UpdateOne(w.workers, step.i, next.workers[step.i], 0);
    FallingExists(w.workers);
    if w.main == SyncSleeps {
      if SomeNotifying(w) {
        var k :| 0 <= k < |w.workers| && w.workers[k] == Notifying;
        assert k != step.i ==> next.workers[k] == Notifying;
      }
      if step.WorkerFinishes? {
        assert next.shared.jobs == 0 ==> next.workers[step.i] == Notifying;
      }
    }
  }

  lemma StepKeepsInv(w: World, step: Step)
    requires Inv(w) && Enabled(w, step)
    ensures Inv(Apply(w, step))
  {
    hide Control, Accounted, Enabled, Apply;
    if IsMainStep(step) {
      MainControls(w, step);
      forall t ensures Accounted(Apply(w, step), t) {
        assert Accounted(w, t);
        MainAccounts(w, step, t);
      }
    } else {
      WorkerControls(w, step);
      forall t ensures Accounted(Apply(w, step), t) {
        assert Accounted(w, t);
        WorkerAccounts(w, step, t);
      }
    }
  }

  lemma {:induction false} NobodyBusy(n: nat, t: Task)
    ensures Busy(seq(n, _ => Turning)) == 0 && FallingCount(seq(n, _ => Turning)) == 0
              && InHand(seq(n, _ => Turning), t) == 0
  {
    if n > 0 {
      assert seq(n, _ => Turning)[..n - 1] == seq(n - 1, _ => Turning);
      NobodyBusy(n - 1, t);
    }
  }

  lemma InitInv(workers: nat)
    ensures Inv(Init(workers))
  {
    hide Busy, FallingCount, InHand;
    NobodyBusy(workers, 0);
    forall t ensures Accounted(Init(workers), t) {
      NobodyBusy(workers, t);
    }
  }

  lemma {:induction false} RunsKeepInv(w: World, steps: seq<Step>, end: World)
    requires Inv(w) && Reaches(w, steps, end)
    ensures Inv(end)
    decreases |steps|
  {
    hide Inv, Enabled, Apply;
    if steps != [] {
      StepKeepsInv(w, steps[0]);
      RunsKeepInv(Apply(w, steps[0]), steps[1..], end);
    }
  }

  // ---------- queued work is noticed ----------

  predicate IsAwake(s: Worker) {
    s == Turning || s.Running? || s == Finishing || s == Notifying
  }

  ghost predicate SomeAwake(w: World) {
    exists i :: 0 <= i < |w.workers| && IsAwake(w.workers[i])
  }

  /** Two tasks or more are waiting for workers that all sleep, and no notification is due. */
  ghost predicate IsOverlooked(w: World) {
    !w.shared.exit && w.workers != [] && |w.shared.queue| >= 2 && w.main != Queued && !SomeAwake(w)
  }

  ghost predicate Noticed(w: World) {
    && (w.locked ==> w.shared.queue == [])
    && (!w.shared.exit ==> forall i :: 0 <= i < |w.workers| ==> w.workers[i] != Exited)
    && !IsOverlooked(w)
  }

  lemma StepKeepsNoticed(w: World, step: Step)
    requires Control(w) && Noticed(w) && Enabled(w, step)
    ensures Noticed(Apply(w, step))
  {
    hide Busy, FallingCount;
    var next := Apply(w, step);
    if step.MainNotifies? {
      FallingExists(w.workers);
      var i := match step.woken case Some(i) => i case None => 0;
      assert IsOverlooked(next) ==> IsAwake(next.workers[i]);
    } else if SomeAwake(w) {
      var i :| 0 <= i < |w.workers| && IsAwake(w.workers[i]);
      assert IsOverlooked(next) ==> IsAwake(next.workers[i]);
    } else if !IsMainStep(step) {
      assert IsOverlooked(next) ==> |w.shared.queue| >= 2;
    }
  }

  lemma {:induction false} RunsKeepNoticed(w: World, steps: seq<Step>, end: World)
    requires Inv(w) && Noticed(w) && Reaches(w, steps, end)
    ensures Noticed(end)
    decreases |steps|
  {
    hide Control, Accounted, Noticed, Enabled, Apply;
    if steps != [] {
      StepKeepsNoticed(w, steps[0]);
      StepKeepsInv(w, steps[0]);
      RunsKeepNoticed(Apply(w, steps[0]), steps[1..], end);
    }
  }

  /** While two or more tasks are queued, either the notification of a worker is still to come or some worker
      is awake and will look at the queue before it sleeps. */
  lemma QueuedTasksAreNoticed(workers: nat, steps: seq<Step>, w: World)
    requires Reaches(Init(workers), steps, w) && !w.shared.exit && w.workers != [] && |w.shared.queue| >= 2
    ensures w.main == Queued || exists i :: 0 <= i < |w.workers| && IsAwake(w.workers[i])
  {
    hide Inv;
    InitInv(workers);
    RunsKeepNoticed(Init(workers), steps, w);
  }

  // ---------- what Sync promises ----------

  predicate InSync(m: Main) {
    m == SyncTurns || m.SyncRuns? || m == SyncSleeps || m == SyncWoken
  }

  lemma {:induction false} IdleHands(ws: seq<Worker>, t: Task)
    ensures InHand(ws, t) <= Busy(ws)
  {
    if ws != [] {
      IdleHands(ws[..|ws| - 1], t);
    }
  }

  /** When Sync returns, in any run of any number of workers, the queue is empty, no worker has a
      job, and every task has been run exactly as often as it was queued. */
  lemma SyncReturnsWithAllRun(workers: nat, steps: seq<Step>, w: World, step: Step)
    requires Reaches(Init(workers), steps, w) && Enabled(w, step)
    requires InSync(w.main) && !InSync(Apply(w, step).main)
    ensures var end := Apply(w, step);
            && end.main == Outside
            && end.shared.queue == [] && end.shared.jobs == 0
            && (forall i :: 0 <= i < |end.workers| ==> BusyOne(end.workers[i]) == 0)
            && end.ran == end.queued
  {
    InitInv(workers);
    RunsKeepInv(Init(workers), steps, w);
    StepKeepsInv(w, step);
    var end := Apply(w, step);
    SyncReturnsIdle(w, step);
    BusyExists(end.workers);
    forall t ensures end.ran[t] == end.queued[t] {
      IdleHands(end.workers, t);
      assert Accounted(end, t);
    }
    assert end.ran == end.queued;
  }

  lemma SyncReturnsIdle(w: World, step: Step)
    requires Control(w) && Enabled(w, step) && InSync(w.main) && !InSync(Apply(w, step).main)
    ensures var end := Apply(w, step); end.main == Outside && end.shared.queue == [] && end.shared.jobs == 0
  {
  }

  // ---------- nothing waits for ever ----------

  predicate IsWake(step: Step) {
    step.SyncWakes? || step.WorkerWakes?
  }

  /** While Sync has not returned, some thread can take a step that is not a spurious wake-up. In
      particular no state is reachable in which Sync sleeps, no job is running and no notification
      is on its way. */
  lemma SyncIsNeverStuck(workers: nat, steps: seq<Step>, w: World)
    requires Reaches(Init(workers), steps, w) && InSync(w.main)
    ensures exists step :: Enabled(w, step) && !IsWake(step)
    ensures w.main == SyncSleeps ==>
              exists i :: 0 <= i < |w.workers| && (BusyOne(w.workers[i]) == 1 || w.workers[i] == Notifying)
  {
    InitInv(workers);
    RunsKeepInv(Init(workers), steps, w);
    SomebodyCanStep(w);
    BusyExists(w.workers);
  }

  lemma SomebodyCanStep(w: World)
    requires Control(w) && InSync(w.main)
    ensures exists step :: Enabled(w, step) && !IsWake(step)
  {
    hide Busy, FallingCount;
    FallingExists(w.workers);
    BusyExists(w.workers);
    if w.locked {
      var i :| 0 <= i < |w.workers| && w.workers[i] == FallingAsleep;
      assert Enabled(w, WorkerSleeps(i));
    } else if w.main == SyncTurns {
      assert Enabled(w, SyncDecides);
    } else if w.main.SyncRuns? {
      assert Enabled(w, SyncRan);
    } else if w.main == SyncWoken {
      assert Enabled(w, SyncLooks);
    } else if SomeNotifying(w) {
      var i :| 0 <= i < |w.workers| && w.workers[i] == Notifying;
      assert Enabled(w, WorkerNotifies(i));
    } else {
      var i :| 0 <= i < |w.workers| && BusyOne(w.workers[i]) == 1;
      assert Enabled(w, if w.workers[i] == Finishing then WorkerFinishes(i) else WorkerRan(i));
    }
  }

  /** The work still ahead of the threads. */
  function WorkOf(s: Worker): nat {
    match s
    case Running(_) => 6
    case Finishing => 5
    case Notifying => 4
    case Turning => 2
    case FallingAsleep => 1
    case Sleeping => 0
    case Exited => 0
  }

  function WorkersWork(ws: seq<Worker>): nat {
    if ws == [] then 0 else WorkersWork(ws[..|ws| - 1]) + WorkOf(ws[|ws| - 1])
  }

  function MainWork(m: Main): nat {
    match m
    case SyncRuns(_) => 3
    case SyncTurns => 2
    case SyncWoken => 1
    case Joining => 1
    case _ => 0
  }

  function Work(w: World): nat {
    5 * |w.shared.queue| + WorkersWork(w.workers) + MainWork(w.main)
  }

  lemma {:induction false} WorkUpdate(ws: seq<Worker>, i: nat, s: Worker)
    requires i < |ws|
    ensures WorkersWork(ws[i := s]) == WorkersWork(ws) - WorkOf(ws[i]) + WorkOf(s)
    decreases |ws|
  {
    hide WorkOf;
    var n := |ws| - 1;
    if i == n {
      assert ws[i := s][..n] == ws[..n];
    } else {
      assert ws[i := s][..n] == ws[..n][i := s];
      WorkUpdate(ws[..n], i, s);
    }
  }

  /** The main thread waits for the others, in Sync or in the destructor. */
  predicate Waits(m: Main) {
    InSync(m) || m == Joining
  }

  /** Meanwhile every step but a spurious wake-up leaves less work, and such a wake-up adds at most two
      units. */
  lemma StepDoesWork(w: World, step: Step)
    requires Waits(w.main) && Enabled(w, step)
    ensures IsWake(step) ==> Work(Apply(w, step)) <= Work(w) + 2
    ensures !IsWake(step) ==> Work(Apply(w, step)) < Work(w)
  {
    hide Work, Apply, Enabled;
    if IsMainStep(step) {
      MainDoesWork(w, step);
    } else {
      WorkerDoesWork(w, step);
    }
  }

  lemma MainDoesWork(w: World, step: Step)
    requires Waits(w.main) && Enabled(w, step) && IsMainStep(step)
    ensures IsWake(step) ==> Work(Apply(w, step)) <= Work(w) + 2
    ensures !IsWake(step) ==> Work(Apply(w, step)) < Work(w)
  {
    hide WorkersWork;
  }

  lemma WorkerDoesWork(w: World, step: Step)
    requires Waits(w.main) && Enabled(w, step) && !IsMainStep(step)
    ensures IsWake(step) ==> Work(Apply(w, step)) <= Work(w) + 2
    ensures !IsWake(step) ==> Work(Apply(w, step)) < Work(w)
  {
    hide WorkersWork;
    WorkUpdate(w.workers, step.i, Apply(w, step).workers[step.i]);
  }

  function Wakes(steps: seq<Step>): nat {
    if steps == [] then 0 else Wakes(steps[1..]) + (if IsWake(steps[0]) then 1 else 0)
  }

  ghost predicate KeepsWaiting(w: World, steps: seq<Step>)
    decreases |steps|
  {
    Waits(w.main) && (steps != [] ==> Enabled(w, steps[0]) && KeepsWaiting(Apply(w, steps[0]), steps[1..]))
  }

  /** However the threads interleave, Sync returns: a stretch of a run that stays within it has no more
      steps than the work at its beginning and three for every spurious wake-up. Whether any worker
      ever wakes does not matter. */
  lemma {:induction false} SyncReturnsInTime(w: World, steps: seq<Step>)
    requires KeepsWaiting(w, steps)
    ensures |steps| <= Work(w) + 3 * Wakes(steps)
    decreases |steps|
  {
    hide Work, Apply, Enabled, IsWake;
    if steps != [] {
      StepDoesWork(w, steps[0]);
      SyncReturnsInTime(Apply(w, steps[0]), steps[1..]);
    }
  }

  /** Nobody is left asleep when the destructor joins, so there is nobody to wake. */
  lemma {:induction false} NoWakesWhileJoining(w: World, steps: seq<Step>)
    requires Inv(w) && w.main == Joining && KeepsWaiting(w, steps)
    ensures Wakes(steps) == 0
    decreases |steps|
  {
    if steps != [] {
      StepKeepsInv(w, steps[0]);
      JoiningStep(w, steps[0]);
      NoWakesWhileJoining(Apply(w, steps[0]), steps[1..]);
    }
  }

  lemma JoiningStep(w: World, step: Step)
    requires Control(w) && w.main == Joining && Enabled(w, step) && Waits(Apply(w, step).main)
    ensures !IsWake(step) && Apply(w, step).main == Joining
  {
    hide Busy, FallingCount;
  }

  /** The destructor ends: from any state in which it joins there are no more steps than work left. */
  lemma JoinEndsInTime(workers: nat, steps: seq<Step>, w: World, more: seq<Step>)
    requires Reaches(Init(workers), steps, w) && w.main == Joining && KeepsWaiting(w, more)
    ensures |more| <= Work(w)
  {
    hide Inv, Apply, Enabled, Work;
    InitInv(workers);
    RunsKeepInv(Init(workers), steps, w);
    NoWakesWhileJoining(w, more);
    SyncReturnsInTime(w, more);
  }

  /** The destructor's join never blocks for ever: as long as a worker has not left, some worker can
      step, and no worker can be asleep or fall asleep again. */
  lemma JoinIsNeverStuck(workers: nat, steps: seq<Step>, w: World)
    requires Reaches(Init(workers), steps, w) && w.main == Joining
    ensures forall i :: 0 <= i < |w.workers| ==> w.workers[i] != Sleeping && w.workers[i] != FallingAsleep
    ensures Enabled(w, MainJoins) || exists step :: Enabled(w, step) && !IsMainStep(step)
  {
    hide Busy, FallingCount;
    InitInv(workers);
    RunsKeepInv(Init(workers), steps, w);
    FallingExists(w.workers);
    BusyExists(w.workers);
    if !Enabled(w, MainJoins) {
      var i :| 0 <= i < |w.workers| && w.workers[i] != Exited;
      var s := w.workers[i];
      var step := if s == Turning then WorkerDecides(i) else if s.Running? then WorkerRan(i)
                  else if s == Finishing then WorkerFinishes(i) else WorkerNotifies(i);
      assert Enabled(w, step);
    }
  }
}
