/** The producer and the workers of gcrane's recursiveCopy (pkg/gcrane/copy.go): a walker sends
    tasks over a bounded channel, workers drain it, and the first error cancels the context. */
module GcraneQueue {

  /** One manifest of one repository. */
  datatype Task = Task(repo: string, digest: string)

  datatype Walker = Walking | WalkReturned(ok: bool)

  datatype Worker = Ready | Copying(task: Task) | Returned(ok: bool)

  /** The channel is closed once the walker has returned.  `executed` and `failed` record the
      tasks whose copy ended, `todo` what the walker has not sent. */
  datatype System = System(todo: seq<Task>, walker: Walker, queue: seq<Task>, workers: seq<Worker>,
                           cancelled: bool, executed: multiset<Task>, failed: multiset<Task>)

  function Start(tasks: seq<Task>, jobs: nat): System {
    System(tasks, Walking, [], seq(jobs, _ => Ready), false, multiset{}, multiset{})
  }

  // ---------------------------------------------------------------- steps

  /** The select in copyRepo: send, or give up when the context is done. */
  predicate WalkerStep(jobs: nat, s: System, s': System) {
    && s.walker.Walking?
    && (|| (s.todo != [] && |s.queue| < 2 * jobs
            && s' == s.(todo := s.todo[1..], queue := s.queue + [s.todo[0]]))
        || (s.todo != [] && s.cancelled && s' == s.(walker := WalkReturned(false)))
        || (s.todo == [] && s' == s.(walker := WalkReturned(true))))
  }

  /** Worker i takes a task, ends one, or leaves the loop over the closed channel. */
  predicate WorkerStep(s: System, s': System, i: nat) {
    && i < |s.workers|
    && match s.workers[i]
       case Ready =>
         if s.queue != [] then
           s' == s.(queue := s.queue[1..], workers := s.workers[i := Copying(s.queue[0])])
         else s.walker.WalkReturned? && s' == s.(workers := s.workers[i := Returned(true)])
       case Copying(t) =>
         || s' == s.(workers := s.workers[i := Ready], executed := s.executed + multiset{t})
         || s' == s.(workers := s.workers[i := Returned(false)], failed := s.failed + multiset{t}, cancelled := true)
       case Returned(_) => false
  }

  /** What may happen but need not: listing fails for good, or the caller cancels. */
  predicate Misfortune(s: System, s': System) {
    || (s.walker.Walking? && s' == s.(walker := WalkReturned(false), cancelled := true))
    || (!s.cancelled && s' == s.(cancelled := true))
  }

  /** A step that does not depend on a misfortune. */
  ghost predicate Progress(jobs: nat, s: System, s': System) {
    WalkerStep(jobs, s, s') || exists i :: WorkerStep(s, s', i)
  }

  ghost predicate Step(jobs: nat, s: System, s': System) { Progress(jobs, s, s') || Misfortune(s, s') }

  predicate Finished(s: System) { s.walker.WalkReturned? && forall w :: w in s.workers ==> w.Returned? }

  /** What errgroup's Wait returns: nil when nobody returned an error. */
  predicate Succeeded(s: System) { Finished(s) && s.walker.ok && forall w :: w in s.workers ==> w.ok }

  // ---------------------------------------------------------------- the invariant

  function HandOf(w: Worker, t: Task): nat { if w == Copying(t) then 1 else 0 }

  /** How many workers are copying a task. */
  function InHand(workers: seq<Worker>, t: Task): nat {
    if workers == [] then 0
    else InHand(workers[..|workers| - 1], t) + HandOf(workers[|workers| - 1], t)
  }

  /** In how many places a task is. */
  function Places(s: System, t: Task): nat {
    multiset(s.todo)[t] + multiset(s.queue)[t] + InHand(s.workers, t) + s.executed[t] + s.failed[t]
  }

  ghost predicate Invariant(tasks: seq<Task>, jobs: nat, s: System) {
    && |s.workers| == jobs
    // every task is in exactly one place
    && (forall t :: multiset(tasks)[t] == Places(s, t))
    && (s.walker == WalkReturned(true) ==> s.todo == [])
    && (Returned(true) in s.workers ==> s.queue == [] && s.walker.WalkReturned?)
    && (Returned(false) in s.workers ==> s.cancelled)
    && (s.failed != multiset{} ==> Returned(false) in s.workers)
  }

  lemma {:induction false} InHandChanges(workers: seq<Worker>, i: nat, w: Worker, t: Task)
    requires i < |workers|
    ensures InHand(workers[i := w], t) + HandOf(workers[i], t) == InHand(workers, t) + HandOf(w, t)
  {
    var n := |workers| - 1;
    if i == n {
      assert workers[i := w][..n] == workers[..n];
    } else {
      assert workers[i := w][..n] == workers[..n][i := w];
      InHandChanges(workers[..n], i, w, t);
    }
  }

  lemma {:induction false} NobodyInHand(workers: seq<Worker>, t: Task)
    requires Copying(t) !in workers
    ensures InHand(workers, t) == 0
  {
    if workers != [] {
      NobodyInHand(workers[..|workers| - 1], t);
      assert workers[|workers| - 1] in workers;
    }
  }

  lemma StartInvariant(tasks: seq<Task>, jobs: nat)
    ensures Invariant(tasks, jobs, Start(tasks, jobs))
  {
    forall t
      ensures multiset(tasks)[t] == Places(Start(tasks, jobs), t)
    {
      NobodyInHand(Start(tasks, jobs).workers, t);
    }
  }

  /** Sending moves a task from one place to another. */
  lemma SendCounts(todo: seq<Task>, queue: seq<Task>, t: Task)
    requires todo != []
    ensures multiset(todo[1..])[t] + multiset(queue + [todo[0]])[t] == multiset(todo)[t] + multiset(queue)[t]
  {
    assert todo == [todo[0]] + todo[1..];
  }

  /** A worker's list membership after worker i has changed. */
  lemma OthersStay(workers: seq<Worker>, i: nat, w: Worker, x: Worker)
    requires i < |workers| && workers[i] != x
    ensures x in workers[i := w] <==> x in workers || x == w
  {
    if x in workers {
      var k :| 0 <= k < |workers| && workers[k] == x;
      assert workers[i := w][k] == x;
    }
    assert workers[i := w][i] == w;
  }

  lemma TakePlaces(s: System, i: nat, t: Task)
    requires i < |s.workers| && s.workers[i].Ready? && s.queue != []
    ensures Places(s.(queue := s.queue[1..], workers := s.workers[i := Copying(s.queue[0])]), t) == Places(s, t)
  {
    InHandChanges(s.workers, i, Copying(s.queue[0]), t);
    TakeCounts(s.queue, t);
    hide InHand;
  }

  lemma EndPlaces(s: System, i: nat, x: Task, t: Task, executed: multiset<Task>, failed: multiset<Task>, w': Worker, cancelled: bool)
    requires i < |s.workers| && s.workers[i] == Copying(x) && !w'.Copying?
    requires executed + failed == s.executed + s.failed + multiset{x}
    ensures Places(s.(workers := s.workers[i := w'], executed := executed, failed := failed, cancelled := cancelled), t) == Places(s, t)
  {
    InHandChanges(s.workers, i, w', t);
    assert executed[t] + failed[t] == (executed + failed)[t];
    hide InHand;
  }

  lemma WorkerCounts(s: System, s': System, i: nat, t: Task)
    requires WorkerStep(s, s', i)
    ensures Places(s', t) == Places(s, t)
  {
    hide Places, InHand;
    match s.workers[i]
    case Ready =>
      if s.queue != [] {
        TakePlaces(s, i, t);
      } else {
        ReturnPlaces(s, i, t);
      }
    case Copying(x) =>
      EndPlaces(s, i, x, t, s'.executed, s'.failed, s'.workers[i], s'.cancelled);
  }

  lemma ReturnPlaces(s: System, i: nat, t: Task)
    requires i < |s.workers| && s.workers[i].Ready?
    ensures Places(s.(workers := s.workers[i := Returned(true)]), t) == Places(s, t)
  {
    InHandChanges(s.workers, i, Returned(true), t);
    hide InHand;
  }

  lemma TakeCounts(queue: seq<Task>, t: Task)
    requires queue != []
    ensures multiset(queue)[t] == multiset(queue[1..])[t] + if queue[0] == t then 1 else 0
  {
    assert queue == [queue[0]] + queue[1..];
  }

  lemma WalkerCounts(jobs: nat, s: System, s': System, t: Task)
    requires WalkerStep(jobs, s, s') || Misfortune(s, s')
    ensures Places(s', t) == Places(s, t)
  {
    hide InHand;
    if s.todo != [] {
      SendCounts(s.todo, s.queue, t);
    }
  }

  lemma StepKeeps(tasks: seq<Task>, jobs: nat, s: System, s': System)
    requires Invariant(tasks, jobs, s) && Step(jobs, s, s')
    ensures Invariant(tasks, jobs, s')
  {
    hide Places;
    if i: nat :| WorkerStep(s, s', i) {
      OthersStay(s.workers, i, s'.workers[i], Returned(true));
      OthersStay(s.workers, i, s'.workers[i], Returned(false));
      forall t
        ensures multiset(tasks)[t] == Places(s', t)
      {
        WorkerCounts(s, s', i, t);
      }
    } else {
      forall t
        ensures multiset(tasks)[t] == Places(s', t)
      {
        WalkerCounts(jobs, s, s', t);
      }
    }
  }

  // ---------------------------------------------------------------- runs

  ghost predicate IsRun(run: seq<System>, tasks: seq<Task>, jobs: nat) {
    && run != [] && run[0] == Start(tasks, jobs)
    && forall n :: 0 <= n < |run| - 1 ==> Step(jobs, run[n], run[n + 1])
  }

  lemma {:induction false} RunInvariant(run: seq<System>, tasks: seq<Task>, jobs: nat, n: nat)
    requires IsRun(run, tasks, jobs) && n < |run|
    ensures Invariant(tasks, jobs, run[n])
  {
    if n == 0 {
      StartInvariant(tasks, jobs);
    } else {
      RunInvariant(run, tasks, jobs, n - 1);
      StepKeeps(tasks, jobs, run[n - 1], run[n]);
    }
  }

  lemma SucceededExecutedAll(tasks: seq<Task>, jobs: nat, s: System)
    requires jobs > 0 && Invariant(tasks, jobs, s) && Succeeded(s)
    ensures s.executed == multiset(tasks)
  {
    assert s.workers[0] in s.workers;
    forall t
      ensures s.executed[t] == multiset(tasks)[t]
    {
      assert multiset(tasks)[t] == Places(s, t);
      NobodyInHand(s.workers, t);
    }
  }

  /** A nil result means that every task was executed exactly once. */
  lemma SuccessMeansAllExecuted(run: seq<System>, tasks: seq<Task>, jobs: nat, n: nat)
    requires jobs > 0 && IsRun(run, tasks, jobs) && n < |run|
    requires Succeeded(run[n])
    ensures run[n].executed == multiset(tasks)
  {
    RunInvariant(run, tasks, jobs, n);
    SucceededExecutedAll(tasks, jobs, run[n]);
  }

  /** No task is ever executed more often than it was queued. */
  lemma NothingExecutedTwice(run: seq<System>, tasks: seq<Task>, jobs: nat, n: nat, t: Task)
    requires IsRun(run, tasks, jobs) && n < |run|
    ensures run[n].executed[t] + run[n].failed[t] <= multiset(tasks)[t]
  {
    RunInvariant(run, tasks, jobs, n);
    assert multiset(tasks)[t] == Places(run[n], t);
  }

  // ---------------------------------------------------------------- no stuck state

  lemma WorkerCanStep(s: System, i: nat)
    requires i < |s.workers| && !s.workers[i].Returned?
    requires s.workers[i].Ready? ==> s.queue != [] || s.walker.WalkReturned?
    ensures exists s' :: WorkerStep(s, s', i)
  {
    match s.workers[i]
    case Ready =>
      var s' := if s.queue != [] then s.(queue := s.queue[1..], workers := s.workers[i := Copying(s.queue[0])])
                else s.(workers := s.workers[i := Returned(true)]);
      assert WorkerStep(s, s', i);
    case Copying(t) =>
      assert WorkerStep(s, s.(workers := s.workers[i := Ready], executed := s.executed + multiset{t}), i);
  }

  lemma WalkerCanStep(jobs: nat, s: System)
    requires s.walker.Walking?
    requires s.todo == [] || s.cancelled || |s.queue| < 2 * jobs
    ensures exists s' :: WalkerStep(jobs, s, s')
  {
    var s' := if s.todo == [] then s.(walker := WalkReturned(true))
              else if s.cancelled then s.(walker := WalkReturned(false))
              else s.(todo := s.todo[1..], queue := s.queue + [s.todo[0]]);
    assert WalkerStep(jobs, s, s');
  }

  /** With at least one worker no reachable unfinished state is stuck, even if all workers
      have failed and the channel is full. */
  lemma NeverStuck(run: seq<System>, tasks: seq<Task>, jobs: nat, n: nat)
    requires jobs > 0 && IsRun(run, tasks, jobs) && n < |run|
    requires !Finished(run[n])
    ensures exists s' :: Progress(jobs, run[n], s')
  {
    RunInvariant(run, tasks, jobs, n);
    var s := run[n];
    if w :| w in s.workers && !w.Returned? && (w.Copying? || s.queue != [] || s.walker.WalkReturned?) {
      var i :| 0 <= i < |s.workers| && s.workers[i] == w;
      WorkerCanStep(s, i);
      var s' :| WorkerStep(s, s', i);
      assert Progress(jobs, s, s');
    } else {
      var first := s.workers[0];
      assert first in s.workers;
      assert first == Ready || first == Returned(true) || first == Returned(false);
      WalkerCanStep(jobs, s);
      var s' :| WalkerStep(jobs, s, s');
      assert Progress(jobs, s, s');
    }
  }

  /** A step in which nothing goes wrong. */
  ghost predicate GoodStep(jobs: nat, s: System, s': System) {
    WalkerStep(jobs, s, s') || exists i: nat :: WorkerStep(s, s', i) && s'.workers[i] != Returned(false)
  }

  /** Nothing has gone wrong so far. */
  predicate Fine(s: System) { !s.cancelled && s.walker != WalkReturned(false) && Returned(false) !in s.workers }

  lemma GoodStepsStayFine(jobs: nat, s: System, s': System)
    requires Fine(s) && GoodStep(jobs, s, s')
    ensures Fine(s') && Step(jobs, s, s')
  {
    if !WalkerStep(jobs, s, s') {
      var i: nat :| WorkerStep(s, s', i) && s'.workers[i] != Returned(false);
      assert s'.workers == s.workers[i := s'.workers[i]];
      OthersStay(s.workers, i, s'.workers[i], Returned(false));
      assert Progress(jobs, s, s');
    }
  }

  /** As long as nothing has gone wrong the end means success. */
  lemma FineAndFinished(s: System)
    requires Fine(s) && Finished(s)
    ensures Succeeded(s)
  {
    forall w | w in s.workers
      ensures w.ok
    {
      assert w.Returned? && w != Returned(false);
    }
  }

  /** With at least one worker and nothing gone wrong, an unfinished state has a good step: the walker's, or
      that of a worker that is ready or whose copy succeeds. */
  lemma GoodStepExists(tasks: seq<Task>, jobs: nat, s: System) returns (s': System)
    requires jobs > 0 && Invariant(tasks, jobs, s) && Fine(s) && !Finished(s)
    ensures GoodStep(jobs, s, s')
  {
    hide Places;
    if w :| w in s.workers && !w.Returned? && (w.Copying? || s.queue != [] || s.walker.WalkReturned?) {
      var i :| 0 <= i < |s.workers| && s.workers[i] == w;
      if w.Copying? {
        s' := s.(workers := s.workers[i := Ready], executed := s.executed + multiset{w.task});
      } else if s.queue != [] {
        s' := s.(queue := s.queue[1..], workers := s.workers[i := Copying(s.queue[0])]);
      } else {
        s' := s.(workers := s.workers[i := Returned(true)]);
      }
      assert WorkerStep(s, s', i);
    } else {
      var first := s.workers[0];
      assert first in s.workers;
      assert first == Ready || first == Returned(true) || first == Returned(false);
      WalkerCanStep(jobs, s);
      s' :| WalkerStep(jobs, s, s');
    }
  }

  /** When nothing goes wrong a run with at least one worker goes on until it has succeeded. */
  lemma {:induction false} GoodRunsSucceed(run: seq<System>, tasks: seq<Task>, jobs: nat, n: nat)
    requires jobs > 0 && run != [] && run[0] == Start(tasks, jobs) && n < |run|
    requires forall k :: 0 <= k < |run| - 1 ==> GoodStep(jobs, run[k], run[k + 1])
    ensures Fine(run[n]) && Invariant(tasks, jobs, run[n])
    ensures (forall s' :: !GoodStep(jobs, run[n], s')) ==> Succeeded(run[n]) && run[n].executed == multiset(tasks)
  {
    hide Places, GoodStep, Step;
    if n == 0 {
      StartInvariant(tasks, jobs);
    } else {
      GoodRunsSucceed(run, tasks, jobs, n - 1);
      GoodStepsStayFine(jobs, run[n - 1], run[n]);
      StepKeeps(tasks, jobs, run[n - 1], run[n]);
    }
    hide Invariant;
    if Finished(run[n]) {
      FineAndFinished(run[n]);
      SucceededExecutedAll(tasks, jobs, run[n]);
    } else {
      var s' := GoodStepExists(tasks, jobs, run[n]);
    }
  }

  /** The caller may cancel at any time, and a listing may fail for good while the walker is at work; the
      result is then an error. */
  lemma FailedListingIsAnError(run: seq<System>, tasks: seq<Task>, jobs: nat, n: nat, m: nat)
    requires IsRun(run, tasks, jobs) && n <= m < |run|
    ensures !run[n].cancelled ==> Step(jobs, run[n], run[n].(cancelled := true))
    ensures run[n].walker.Walking? ==> Step(jobs, run[n], run[n].(walker := WalkReturned(false), cancelled := true))
    ensures run[n].walker == WalkReturned(false) ==> !Succeeded(run[m])
  {
    if run[n].walker == WalkReturned(false) {
      WalkerStaysReturned(run, tasks, jobs, n, m);
    }
  }

  lemma {:induction false} WalkerStaysReturned(run: seq<System>, tasks: seq<Task>, jobs: nat, n: nat, m: nat)
    requires IsRun(run, tasks, jobs) && n <= m < |run| && run[n].walker.WalkReturned?
    ensures run[m].walker == run[n].walker
  {
    if n < m {
      WalkerStaysReturned(run, tasks, jobs, n, m - 1);
      assert Step(jobs, run[m - 1], run[m]);
    }
  }

  /** The channel never holds more than it has room for. */
  lemma {:induction false} QueueIsBounded(run: seq<System>, tasks: seq<Task>, jobs: nat, n: nat)
    requires IsRun(run, tasks, jobs) && n < |run|
    ensures |run[n].queue| <= 2 * jobs
  {
    if n > 0 {
      QueueIsBounded(run, tasks, jobs, n - 1);
      assert Step(jobs, run[n - 1], run[n]);
    }
  }

  /** Without workers the channel has no room, and the first task blocks the walker for good. */
  lemma StuckWithoutWorkers(tasks: seq<Task>)
    ensures (exists s' :: Progress(0, Start(tasks, 0), s')) <==> tasks == []
    ensures !Finished(Start(tasks, 0))
  {
    if tasks == [] {
      WalkerCanStep(0, Start(tasks, 0));
      var s' :| WalkerStep(0, Start(tasks, 0), s');
      assert Progress(0, Start(tasks, 0), s');
    }
  }

  // ---------------------------------------------------------------- every run ends

  function Weight(workers: seq<Worker>): nat {
    if workers == [] then 0
    else Weight(workers[..|workers| - 1])
         + match workers[|workers| - 1] case Ready => 1 case Copying(_) => 2 case Returned(_) => 0
  }

  lemma {:induction false} WeightChanges(workers: seq<Worker>, i: nat, w: Worker)
    requires i < |workers|
    ensures var weigh := (x: Worker) => match x case Ready => 1 case Copying(_) => 2 case Returned(_) => 0;
            Weight(workers[i := w]) + weigh(workers[i]) == Weight(workers) + weigh(w)
  {
    var n := |workers| - 1;
    if i == n {
      assert workers[i := w][..n] == workers[..n];
    } else {
      assert workers[i := w][..n] == workers[..n][i := w];
      WeightChanges(workers[..n], i, w);
    }
  }

  function Measure(s: System): nat {
    3 * |s.todo| + 2 * |s.queue| + Weight(s.workers)
    + (if s.walker.Walking? then 1 else 0) + (if s.cancelled then 0 else 1)
  }

  lemma StepsDecrease(jobs: nat, s: System, s': System)
    requires Step(jobs, s, s')
    ensures Measure(s') < Measure(s)
  {
    if i: nat :| WorkerStep(s, s', i) {
      WeightChanges(s.workers, i, s'.workers[i]);
    }
  }

  lemma {:induction false} StartWeight(jobs: nat)
    ensures Weight(seq(jobs, _ => Ready)) == jobs
  {
    if jobs > 0 {
      StartWeight(jobs - 1);
      var workers: seq<Worker> := seq(jobs, _ => Ready);
      assert workers[..jobs - 1] == seq(jobs - 1, _ => Ready);
    }
  }

  /** Every run is finite: at most three steps per task, one per worker, and two more. */
  lemma {:induction false} RunsEnd(run: seq<System>, tasks: seq<Task>, jobs: nat, n: nat)
    requires IsRun(run, tasks, jobs) && n < |run|
    ensures n + Measure(run[n]) <= 3 * |tasks| + jobs + 2
  {
    if n == 0 {
      StartWeight(jobs);
      assert Start(tasks, jobs).workers == seq(jobs, _ => Ready);
    } else {
      RunsEnd(run, tasks, jobs, n - 1);
      StepsDecrease(jobs, run[n - 1], run[n]);
    }
  }
}
