/** That remote.MultiWrite comes to an end (pkg/v1/remote/multi_write.go): no state in which it is
    running is stuck, and only so many steps can be made, whatever other clients do. */
module MultiWriteProgress {
  import opened PushServer
  import opened MultiWriteProtocol

  // ---------------------------------------------------------------- no stuck state

  lemma UploadCanStep(r: Registry, u: Upload)
    requires !u.Uploaded? && !u.UploadFailed?
    ensures UploadStep(r, u, r, UploadFailed(u.blob))
  {
  }

  /** A blob job starts by looking for the blob, a manifest job by committing it. */
  lemma JobsStart(b: Digest, ref: Ref, m: Content)
    ensures StartJob(UploadBlob(b)) == Uploading(Check(b))
    ensures StartJob(CommitManifest(ref, m)) == Committing(ref, m)
  {
  }

  /** A worker can move unless it has returned or waits for a job that is still to be sent. */
  lemma WorkerCanMove(s: System, i: nat)
    requires i < |s.workers| && !s.workers[i].Exited?
    requires s.workers[i].Idle? ==> s.queue != [] || s.todo == {}
    ensures exists s', r', queue', w' :: WorkerMoves(s, s', i, r', queue', w')
  {
    var w := s.workers[i];
    var queue' := if w.Idle? && s.queue != [] then s.queue[1..] else s.queue;
    var w' :=
      match w
      case Idle => if s.queue != [] then StartJob(s.queue[0]) else Exited(true)
      case Uploading(u) => if u.Uploaded? then Idle else if u.UploadFailed? then Exited(false) else Uploading(UploadFailed(u.blob))
      case Committing(_, _) => Exited(false)
      case Exited(_) => w;
    if w.Uploading? && !w.upload.Uploaded? && !w.upload.UploadFailed? {
      UploadCanStep(s.registry, w.upload);
    }
    hide UploadStep;
    var s' := s.(queue := queue', workers := s.workers[i := w']);
    assert WorkerMoves(s, s', i, s.registry, queue', w');
  }

  /** With at least one worker no state of a running push is stuck: not when the channel is full,
      and not when all workers have failed and jobs are left that nobody will take. */
  lemma NeverStuck(stages: Stages, jobs: nat, s: System)
    requires jobs > 0 && s.outcome == Running
    ensures exists s' :: SystemStep(stages, jobs, s, s')
  {
    hide WorkerMoves;
    if w :| w in s.workers && !w.Exited? && (w.Idle? ==> s.queue != [] || s.todo == {}) {
      var i :| 0 <= i < |s.workers| && s.workers[i] == w;
      WorkerCanMove(s, i);
      var s', r', queue', w' :| WorkerMoves(s, s', i, r', queue', w');
      assert SystemStep(stages, jobs, s, s');
    } else if w :| w in s.workers && !w.Exited? {
      var j :| j in s.todo;
      var s' := s.(todo := s.todo - {j}, queue := s.queue + [j]);
      assert FeederMoves(jobs, s, s', j);
      assert SystemStep(stages, jobs, s, s');
    } else {
      var s' := if Exited(false) in s.workers then s.(outcome := Failed)
                else StartStage(s.registry, stages, s.stage + 1, jobs);
      assert StageEnds(stages, jobs, s, s');
      assert SystemStep(stages, jobs, s, s');
    }
  }

  /** The channel never holds more than it has room for. */
  lemma {:induction false} QueueIsBounded(run: seq<System>, stages: Stages, jobs: nat, n: nat)
    requires IsRun(run, stages, jobs) && n < |run|
    ensures |run[n].queue| <= 2 * jobs
  {
    hide UploadStep, Evolves, Put;
    if n > 0 {
      QueueIsBounded(run, stages, jobs, n - 1);
      assert Step(stages, jobs, run[n - 1], run[n]);
    }
  }

  // ---------------------------------------------------------------- every push ends

  /** How many requests an upload can still make. */
  function RequestsLeft(u: Upload): nat {
    match u
    case Check(_) => 3 * UPLOAD_STEPS + 1
    case Initiate(_, n) => if n == 0 then 3 else 3 * n
    case Stream(_, _, n) => if n == 0 then 2 else 3 * n - 1
    case Commit(_, _, n) => if n == 0 then 1 else 3 * n - 2
    case _ => 0
  }

  const JOB_STEPS := 3 * UPLOAD_STEPS + 4

  /** How many moves a worker can still make without taking another job. */
  function MovesLeft(w: Worker): nat {
    match w
    case Idle => 1
    case Uploading(u) => 2 + RequestsLeft(u)
    case Committing(_, _) => 2
    case Exited(_) => 0
  }

  function Weight(workers: seq<Worker>): nat {
    if workers == [] then 0 else Weight(workers[..|workers| - 1]) + MovesLeft(workers[|workers| - 1])
  }

  function StagesLeft(stages: Stages, stage: nat, jobs: nat): nat
    decreases |stages| - stage
  {
    if stage >= |stages| then 0 else JOB_STEPS * |stages[stage]| + jobs + 1 + StagesLeft(stages, stage + 1, jobs)
  }

  /** An upper bound on the steps that are left. */
  function StepsLeft(stages: Stages, jobs: nat, s: System): nat {
    if s.outcome != Running then 0
    else JOB_STEPS * |s.todo| + (JOB_STEPS - 1) * |s.queue| + Weight(s.workers) + 1 + StagesLeft(stages, s.stage + 1, jobs)
  }

  lemma {:induction false} WeightChanges(workers: seq<Worker>, i: nat, w: Worker)
    requires i < |workers|
    ensures Weight(workers[i := w]) + MovesLeft(workers[i]) == Weight(workers) + MovesLeft(w)
  {
    var n := |workers| - 1;
    if i == n {
      assert workers[i := w][..n] == workers[..n];
    } else {
      assert workers[i := w][..n] == workers[..n][i := w];
      WeightChanges(workers[..n], i, w);
    }
  }

  lemma {:induction false} IdleWeight(jobs: nat)
    ensures Weight(seq(jobs, _ => Idle)) == jobs
  {
    if jobs > 0 {
      IdleWeight(jobs - 1);
      var workers: seq<Worker> := seq(jobs, _ => Idle);
      assert workers[..jobs - 1] == seq(jobs - 1, _ => Idle);
    }
  }

  lemma UploadGetsOn(r: Registry, u: Upload, r': Registry, u': Upload)
    requires UploadStep(r, u, r', u')
    ensures RequestsLeft(u') < RequestsLeft(u)
  {
  }

  lemma WorkerGetsOn(s: System, s': System, i: nat, r': Registry, queue': seq<Job>, w': Worker)
    requires WorkerMoves(s, s', i, r', queue', w')
    ensures s'.outcome == s.outcome && s'.stage == s.stage && s'.todo == s.todo
    ensures (JOB_STEPS - 1) * |s'.queue| + Weight(s'.workers) < (JOB_STEPS - 1) * |s.queue| + Weight(s.workers)
  {
    var w := s.workers[i];
    WeightChanges(s.workers, i, w');
    if w.Uploading? && w'.Uploading? {
      UploadGetsOn(s.registry, w.upload, r', w'.upload);
    }
    hide Weight, UploadStep;
  }

  lemma FeederGetsOn(stages: Stages, jobs: nat, s: System, s': System, j: Job)
    requires s.outcome == Running && FeederMoves(jobs, s, s', j)
    ensures StepsLeft(stages, jobs, s') < StepsLeft(stages, jobs, s)
  {
    assert |s'.todo| == |s.todo| - 1;
    hide Weight, StagesLeft;
  }

  lemma StageGetsOn(stages: Stages, jobs: nat, s: System, s': System)
    requires s.outcome == Running && StageEnds(stages, jobs, s, s')
    ensures StepsLeft(stages, jobs, s') < StepsLeft(stages, jobs, s)
  {
    hide Weight;
    IdleWeight(jobs);
  }

  lemma StepGetsOn(stages: Stages, jobs: nat, s: System, s': System)
    requires SystemStep(stages, jobs, s, s')
    ensures StepsLeft(stages, jobs, s') < StepsLeft(stages, jobs, s)
  {
    hide Weight, StagesLeft, WorkerMoves, FeederMoves, StageEnds;
    if i: nat, r', queue', w' :| WorkerMoves(s, s', i, r', queue', w') {
      WorkerGetsOn(s, s', i, r', queue', w');
    } else if j :| FeederMoves(jobs, s, s', j) {
      FeederGetsOn(stages, jobs, s, s', j);
    } else {
      StageGetsOn(stages, jobs, s, s');
    }
  }

  /** How many of the first n steps of a run are steps of the push, and not of other clients. */
  ghost function Moves(run: seq<System>, stages: Stages, jobs: nat, n: nat): nat
    requires n < |run|
  {
    if n == 0 then 0
    else Moves(run, stages, jobs, n - 1) + if SystemStep(stages, jobs, run[n - 1], run[n]) then 1 else 0
  }

  lemma {:induction false} MovesAreCounted(run: seq<System>, stages: Stages, jobs: nat, n: nat)
    requires IsRun(run, stages, jobs) && n < |run|
    ensures Moves(run, stages, jobs, n) + StepsLeft(stages, jobs, run[n]) <= StepsLeft(stages, jobs, run[0])
  {
    if n > 0 {
      MovesAreCounted(run, stages, jobs, n - 1);
      hide SystemStep, StepsLeft, Evolves;
      var s, s' := run[n - 1], run[n];
      if SystemStep(stages, jobs, s, s') {
        StepGetsOn(stages, jobs, s, s');
      } else {
        OthersDoNotCount(stages, jobs, s, s'.registry);
      }
    }
  }

  lemma OthersDoNotCount(stages: Stages, jobs: nat, s: System, r: Registry)
    ensures StepsLeft(stages, jobs, s.(registry := r)) == StepsLeft(stages, jobs, s)
  {
  }

  function JobsFrom(stages: Stages, stage: nat): nat
    decreases |stages| - stage
  {
    if stage >= |stages| then 0 else |stages[stage]| + JobsFrom(stages, stage + 1)
  }

  lemma {:induction false} StagesLeftIs(stages: Stages, stage: nat, jobs: nat)
    requires stage <= |stages|
    ensures StagesLeft(stages, stage, jobs) == JOB_STEPS * JobsFrom(stages, stage) + (jobs + 1) * (|stages| - stage)
    decreases |stages| - stage
  {
    if stage < |stages| {
      StagesLeftIs(stages, stage + 1, jobs);
      Distribute(|stages[stage]|, JobsFrom(stages, stage + 1), jobs + 1, |stages| - stage - 1);
    }
  }

  lemma Distribute(a: nat, b: nat, c: nat, d: nat)
    ensures JOB_STEPS * (a + b) + c * (d + 1) == JOB_STEPS * a + c + (JOB_STEPS * b + c * d)
  {
  }

  /** A push fails only by a worker that has returned an error. */
  lemma {:induction false} FailedByAWorker(run: seq<System>, stages: Stages, jobs: nat, n: nat)
    requires IsRun(run, stages, jobs) && n < |run|
    ensures run[n].outcome == Failed ==> Exited(false) in run[n].workers
  {
    if n > 0 {
      FailedByAWorker(run, stages, jobs, n - 1);
      hide Evolves, WorkerStep;
    }
  }

  /** Every run comes to an end: besides what other clients do there are at most 13 steps for every
      job, and in every stage one for each worker to return and one to go on.  With at least one worker
      it stops only when it has succeeded or a worker has returned an error. */
  lemma MultiWriteEnds(run: seq<System>, stages: Stages, jobs: nat, n: nat)
    requires IsRun(run, stages, jobs) && n < |run|
    ensures Moves(run, stages, jobs, n) <= 13 * JobsFrom(stages, 0) + (jobs + 1) * |stages|
    ensures jobs > 0 && (forall s' :: !SystemStep(stages, jobs, run[n], s')) ==>
              run[n].outcome == Succeeded || Exited(false) in run[n].workers
  {
    MovesAreCounted(run, stages, jobs, n);
    StagesLeftIs(stages, 0, jobs);
    IdleWeight(jobs);
    FailedByAWorker(run, stages, jobs, n);
    hide Weight, SystemStep;
    if jobs > 0 && run[n].outcome == Running {
      NeverStuck(stages, jobs, run[n]);
    }
  }
}
