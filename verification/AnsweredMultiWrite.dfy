/** That MultiWrite succeeds, as in AnsweredPush: when every request is answered, with at least one
    worker, for a request of trees of images and indexes. */
module AnsweredMultiWrite {
  import opened Common
  import opened ServedPush
  import opened AnsweredPush
  import M = ManifestStore
  import P = PushServer
  import R = RegistryRefinement
  import MP = MultiWritePlan
  import MW = MultiWriteProtocol
  import MG = MultiWriteProgress

  // ---------------------------------------------------------------- steps

  function UploadOf(x: MW.Worker): P.Upload {
    if x.Uploading? then x.upload else P.Uploaded(P.Sha256(P.Blob("")))
  }

  /** The uploads of the workers. */
  function UploadsOf(workers: seq<MW.Worker>): seq<P.Upload> {
    seq(|workers|, i requires 0 <= i < |workers| => UploadOf(workers[i]))
  }

  ghost predicate AnsweredWorkerStep(w: R.Wire, repo: string, srv: Server, s: MW.System, x: MW.Worker,
                                     srv': Server, queue': seq<MW.Job>, x': MW.Worker) {
    match x
    case Uploading(u) =>
      && queue' == s.queue
      && (if u.Uploaded? then srv' == srv && x' == MW.Idle
          else if u.UploadFailed? then srv' == srv && x' == MW.Exited(false)
          else x'.Uploading? && AnsweredUpload(w, repo, srv, u, srv', x'.upload, Held(UploadsOf(s.workers))))
    case Committing(ref, m) =>
      && queue' == s.queue
      && exists ok :: AnsweredCommit(w, repo, srv, ref, m, srv', ok) && x' == if ok then MW.Idle else MW.Exited(false)
    case _ => srv' == srv && MW.WorkerStep(s.registry, s.queue, s.todo, x, s.registry, queue', x')
  }

  ghost predicate AnsweredWorkerMoves(w: R.Wire, repo: string, s: Multi, s': Multi, i: nat, queue': seq<MW.Job>, x': MW.Worker) {
    && i < |s.system.workers|
    && AnsweredWorkerStep(w, repo, s.server, s.system, s.system.workers[i], s'.server, queue', x')
    && s'.system == s.system.(queue := queue', workers := s.system.workers[i := x'])
  }

  ghost predicate AnsweredSystemStep(w: R.Wire, repo: string, stages: MW.Stages, jobs: nat, s: Multi, s': Multi) {
    && s.system.outcome == MW.Running
    && (|| (s'.server == s.server && exists j :: MW.FeederMoves(jobs, s.system, s'.system, j))
        || (exists i, queue', x' :: AnsweredWorkerMoves(w, repo, s, s', i, queue', x'))
        || (s'.server == s.server && MW.StageEnds(stages, jobs, s.system, s'.system)))
  }

  // ---------------------------------------------------------------- what is to be committed

  /** All children of an index are images and indexes. */
  ghost predicate OnlyManifests(m: P.Content) {
    m.IndexManifest? ==> forall d :: d in m.manifests ==> d.mediaType.IsIndex() || d.mediaType.IsImage()
  }

  ghost predicate OnlyManifestJobs(stages: MW.Stages) {
    forall t, ref, m {:trigger MW.CommitManifest(ref, m) in stages[t]} ::
      0 <= t < |stages| && MW.CommitManifest(ref, m) in stages[t] ==> OnlyManifests(m)
  }

  lemma {:induction false} DescendantsAreManifests(m: P.Content, depth: nat, d: P.Digest)
    requires MP.Collectable(m) && d in MP.AtDepth(m, depth)
    ensures OnlyManifests(d.content)
    decreases m
  {
    var desc :| desc in m.manifests
                && if depth == 0 then desc.digest == d
                   else desc.mediaType.IsIndex() && d in MP.AtDepth(desc.digest.content, depth - 1);
    if depth > 0 {
      DescendantsAreManifests(desc.digest.content, depth - 1, d);
    }
  }

  lemma JobsAreManifests(request: MP.Request, blobs: set<P.Digest>, levels: MP.Levels, images: MP.Request, indexes: MP.Request)
    requires MP.Collected(request, blobs, levels, images, indexes)
    ensures OnlyManifestJobs(MW.StagesOf(blobs, levels, images, indexes))
  {
    var stages := MW.StagesOf(blobs, levels, images, indexes);
    forall t, ref, m | 0 <= t < |stages| && MW.CommitManifest(ref, m) in stages[t]
      ensures OnlyManifests(m)
    {
      if t == 1 || t == |levels| + 2 {
        var part := if t == 1 then images else indexes;
        assert stages[t] == MW.CommitJobs(part);
        assert m in request.Values && MP.Pushable(m);
      } else {
        var k := |levels| + 1 - t;
        assert stages[t] == MW.LevelJobs(levels[k]);
        var d :| d in levels[k] && m == levels[k][d];
        assert d in MP.Keys(levels, k) && d in MP.KeysFor(request.Values, k);
        var root :| root in request.Values && d in MP.AtDepth(root, k);
        DescendantsAreManifests(root, k, d);
      }
    }
  }

  // ---------------------------------------------------------------- the invariant

  ghost predicate MultiOnItsWay(stages: MW.Stages, jobs: nat, s: MW.System) {
    && MW.Invariant(stages, jobs, s) && s.outcome != MW.Failed
    && (s.outcome == MW.Running ==> MW.Exited(false) !in s.workers && AllFlow(s.registry, UploadsOf(s.workers)))
  }

  lemma UploadsChange(workers: seq<MW.Worker>, i: nat, x': MW.Worker)
    requires i < |workers|
    ensures UploadsOf(workers[i := x']) == UploadsOf(workers)[i := UploadOf(x')]
    ensures MW.Exited(false) !in workers && x' != MW.Exited(false) ==> MW.Exited(false) !in workers[i := x']
  {
    forall x | x in workers[i := x']
      ensures x in workers || x == x'
    {
    }
  }

  lemma OneMoreFlows(r: P.Registry, group: seq<P.Upload>, i: nat, u: P.Upload)
    requires AllFlow(r, group) && i < |group| && Flows(r, u) && !HasID(u)
    ensures AllFlow(r, group[i := u])
  {
  }

  lemma PutLetsFlow(r: P.Registry, ref: P.Ref, m: P.Content, group: seq<P.Upload>)
    requires AllFlow(r, group)
    ensures AllFlow(P.Put(r, ref, m), group)
  {
  }

  lemma IdleFlow(r: P.Registry, jobs: nat)
    ensures AllFlow(r, UploadsOf(seq(jobs, _ => MW.Idle))) && MW.Exited(false) !in seq(jobs, _ => MW.Idle)
  {
  }

  lemma WorkerGoesOn(w: R.Wire, repo: string, stages: MW.Stages, jobs: nat, s: Multi, r: P.Registry, s': Multi,
                     i: nat, queue': seq<MW.Job>, x': MW.Worker) returns (r': P.Registry)
    requires R.Faithful(w) && Holds(w, repo, s.server, r) && ProperJobs(stages) && OnlyManifestJobs(stages) && MW.Ordered(stages)
    requires s.system.outcome == MW.Running && MultiOnItsWay(stages, jobs, Ideal(s, r))
    requires AnsweredWorkerMoves(w, repo, s, s', i, queue', x')
    ensures MW.WorkerMoves(Ideal(s, r), Ideal(s', r'), i, r', queue', x') && Holds(w, repo, s'.server, r')
    ensures x' != MW.Exited(false) && AllFlow(r', UploadsOf(s'.system.workers))
  {
    var x, uploads := s.system.workers[i], UploadsOf(s.system.workers);
    assert uploads[i] == UploadOf(x) && AllFlow(r, uploads);
    hide R.Faithful, Holds, AnsweredUpload, AnsweredCommit, P.UploadStep, P.Put, GoesOn, AllFlow, MW.Ordered, ProperJobs, UploadsOf,
      OnlyManifestJobs, MW.Invariant;
    EachFlows(r, uploads, i);
    UploadsChange(s.system.workers, i, x');
    r' := r;
    match x {
      case Idle =>
        OneMoreFlows(r, uploads, i, UploadOf(x'));
      case Uploading(u) =>
        if u.Uploaded? {
          OneMoreFlows(r, uploads, i, UploadOf(x'));
        } else {
          r' := UploadGoesOn(w, repo, s.server, r, u, s'.server, x'.upload, Held(uploads));
          OneFlowsOn(r, uploads, i, r', x'.upload);
        }
      case Committing(ref, m) =>
        CommitCanBeTaken(stages, jobs, Ideal(s, r), i);
        var ok :| AnsweredCommit(w, repo, s.server, ref, m, s'.server, ok) && x' == if ok then MW.Idle else MW.Exited(false);
        CommitIsTaken(w, repo, s.server, r, ref, m, s'.server, ok);
        r' := P.Put(r, ref, m);
        PutLetsFlow(r, ref, m, uploads);
        OneMoreFlows(r', uploads, i, UploadOf(x'));
      case Exited(_) =>
    }
  }

  lemma CommitCanBeTaken(stages: MW.Stages, jobs: nat, s: MW.System, i: nat)
    requires ProperJobs(stages) && OnlyManifestJobs(stages) && MW.Ordered(stages) && MW.Invariant(stages, jobs, s)
    requires s.outcome == MW.Running && i < |s.workers| && s.workers[i].Committing?
    ensures R.Proper(s.workers[i].ref) && R.Taken(s.registry, s.workers[i].content)
  {
    var x := s.workers[i];
    MW.CommitIsSatisfied(stages, jobs, s, x);
    assert MW.WorkerFits(s, stages[s.stage], x) && MW.WorkingOn(x, MW.CommitManifest(x.ref, x.content));
    assert MW.CommitManifest(x.ref, x.content) in stages[s.stage];
    R.SatisfiedIsTaken(s.registry, x.content);
  }

  /** An answered step keeps MultiWrite on its way and is a step of the ideal system. */
  lemma MultiGoesOn(w: R.Wire, repo: string, stages: MW.Stages, jobs: nat, s: Multi, r: P.Registry, s': Multi)
    returns (r': P.Registry)
    requires jobs > 0 && R.Faithful(w) && Holds(w, repo, s.server, r)
    requires ProperJobs(stages) && OnlyManifestJobs(stages) && MW.Ordered(stages)
    requires MultiOnItsWay(stages, jobs, Ideal(s, r)) && AnsweredSystemStep(w, repo, stages, jobs, s, s')
    ensures Holds(w, repo, s'.server, r') && P.Evolves(r, r') && MultiOnItsWay(stages, jobs, Ideal(s', r'))
    ensures MG.StepsLeft(stages, jobs, s'.system) < MG.StepsLeft(stages, jobs, s.system)
  {
    hide R.Faithful, Holds, P.Evolves, AnsweredWorkerMoves, AllFlow, MW.Ordered, ProperJobs, UploadsOf, OnlyManifestJobs, MW.Invariant,
      MG.StepsLeft, MW.WorkerStep, MW.FeederMoves;
    r' := r;
    if i: nat, queue', x' :| AnsweredWorkerMoves(w, repo, s, s', i, queue', x') {
      r' := WorkerGoesOn(w, repo, stages, jobs, s, r, s', i, queue', x');
      WorkerHasMoved(w, repo, s, s', i, queue', x');
      assert MW.SystemStep(stages, jobs, Ideal(s, r), Ideal(s', r'));
    } else if j :| s'.server == s.server && MW.FeederMoves(jobs, s.system, s'.system, j) {
      FeedsIdeally(jobs, s, s', r, j);
      assert MW.SystemStep(stages, jobs, Ideal(s, r), Ideal(s', r));
    } else {
      assert MW.StageEnds(stages, jobs, Ideal(s, r), Ideal(s', r));
      IdleFlow(r, jobs);
      assert MW.SystemStep(stages, jobs, Ideal(s, r), Ideal(s', r));
    }
    MW.SystemStepKeeps(stages, jobs, Ideal(s, r), Ideal(s', r'));
    MG.StepGetsOn(stages, jobs, Ideal(s, r), Ideal(s', r'));
    MG.OthersDoNotCount(stages, jobs, s.system, r);
    MG.OthersDoNotCount(stages, jobs, s'.system, r');
  }

  lemma WorkerHasMoved(w: R.Wire, repo: string, s: Multi, s': Multi, i: nat, queue': seq<MW.Job>, x': MW.Worker)
    requires AnsweredWorkerMoves(w, repo, s, s', i, queue', x')
    ensures s'.system.outcome == s.system.outcome
    ensures MW.Exited(false) !in s.system.workers && x' != MW.Exited(false) ==> MW.Exited(false) !in s'.system.workers
  {
    UploadsChange(s.system.workers, i, x');
  }

  lemma FeedsIdeally(jobs: nat, s: Multi, s': Multi, r: P.Registry, j: MW.Job)
    requires MW.FeederMoves(jobs, s.system, s'.system, j)
    ensures MW.FeederMoves(jobs, Ideal(s, r), Ideal(s', r), j)
    ensures s'.system.outcome == s.system.outcome && s'.system.workers == s.system.workers
  {
  }

  // ---------------------------------------------------------------- no stuck state

  lemma WorkerIsAnswered(w: R.Wire, repo: string, s: Multi, r: P.Registry, i: nat)
    returns (s': Multi, queue': seq<MW.Job>, x': MW.Worker)
    requires Holds(w, repo, s.server, r) && i < |s.system.workers| && !s.system.workers[i].Exited?
    requires s.system.workers[i].Idle? ==> s.system.queue != [] || s.system.todo == {}
    ensures AnsweredWorkerMoves(w, repo, s, s', i, queue', x')
  {
    hide Holds, AnsweredUpload, AnsweredCommit, UploadsOf;
    var srv', queue := s.server, s.system.queue;
    match s.system.workers[i] {
      case Idle =>
        if queue != [] {
          x', queue := MW.StartJob(queue[0]), queue[1..];
        } else {
          x' := MW.Exited(true);
        }
      case Uploading(u) =>
        if u.Uploaded? {
          x' := MW.Idle;
        } else if u.UploadFailed? {
          x' := MW.Exited(false);
        } else {
          var u';
          srv', u' := UploadIsAnswered(w, repo, s.server, r, u, Held(UploadsOf(s.system.workers)));
          x' := MW.Uploading(u');
        }
      case Committing(ref, m) =>
        var ok;
        srv', ok := CommitIsAnswered(w, repo, s.server, ref, m);
        x' := if ok then MW.Idle else MW.Exited(false);
    }
    queue' := queue;
    s' := Multi(srv', s.system.(queue := queue', workers := s.system.workers[i := x']));
  }

  lemma SomeMultiAnswer(w: R.Wire, repo: string, stages: MW.Stages, jobs: nat, s: Multi, r: P.Registry) returns (s': Multi)
    requires jobs > 0 && Holds(w, repo, s.server, r) && s.system.outcome == MW.Running
    ensures AnsweredSystemStep(w, repo, stages, jobs, s, s')
  {
    hide Holds, AnsweredWorkerMoves;
    var workers := s.system.workers;
    if i :| 0 <= i < |workers| && !workers[i].Exited? && (workers[i].Idle? ==> s.system.queue != [] || s.system.todo == {}) {
      var queue', x';
      s', queue', x' := WorkerIsAnswered(w, repo, s, r, i);
    } else if i :| 0 <= i < |workers| && !workers[i].Exited? {
      var j :| j in s.system.todo;
      s' := Multi(s.server, s.system.(todo := s.system.todo - {j}, queue := s.system.queue + [j]));
      assert MW.FeederMoves(jobs, s.system, s'.system, j);
    } else {
      s' := Multi(s.server, if MW.Exited(false) in workers then s.system.(outcome := MW.Failed)
                            else MW.StartStage(s.system.registry, stages, s.system.stage + 1, jobs));
      assert MW.StageEnds(stages, jobs, s.system, s'.system);
    }
  }

  // ---------------------------------------------------------------- runs

  ghost predicate IsAnsweredMultiRun(w: R.Wire, repo: string, run: seq<Multi>, stages: MW.Stages, jobs: nat) {
    && run != [] && run[0].system == MW.StartStage(run[0].system.registry, stages, 0, jobs)
    && forall i :: 0 <= i < |run| - 1 ==>
         || AnsweredSystemStep(w, repo, stages, jobs, run[i], run[i + 1])
         || (OthersLeave(w, repo, run[i].server, run[i + 1].server, Held(UploadsOf(run[i].system.workers)))
             && run[i + 1].system == run[i].system)
  }

  ghost function MultiAnswers(w: R.Wire, repo: string, run: seq<Multi>, stages: MW.Stages, jobs: nat, n: nat): nat
    requires n < |run|
  {
    if n == 0 then 0
    else MultiAnswers(w, repo, run, stages, jobs, n - 1)
         + if AnsweredSystemStep(w, repo, stages, jobs, run[n - 1], run[n]) then 1 else 0
  }

  lemma StartsMulti(r: P.Registry, stages: MW.Stages, jobs: nat)
    ensures MultiOnItsWay(stages, jobs, MW.StartStage(r, stages, 0, jobs))
    ensures MG.StepsLeft(stages, jobs, MW.StartStage(r, stages, 0, jobs)) <= 13 * MG.JobsFrom(stages, 0) + (jobs + 1) * |stages|
  {
    hide MG.Weight, MG.JobsFrom, MW.Invariant, AllFlow, UploadsOf;
    MW.StartStageInvariant(r, stages, 0, jobs);
    IdleFlow(r, jobs);
    StartLeft(r, stages, jobs);
  }

  lemma StartLeft(r: P.Registry, stages: MW.Stages, jobs: nat)
    ensures MG.StepsLeft(stages, jobs, MW.StartStage(r, stages, 0, jobs)) <= 13 * MG.JobsFrom(stages, 0) + (jobs + 1) * |stages|
  {
    hide MG.Weight, MG.JobsFrom;
    MG.StagesLeftIs(stages, 0, jobs);
    MG.IdleWeight(jobs);
  }

  lemma StillMulti(stages: MW.Stages, jobs: nat, s: MW.System, r': P.Registry)
    requires MultiOnItsWay(stages, jobs, s) && OthersEvolve(s.registry, r', Held(UploadsOf(s.workers)))
    ensures MultiOnItsWay(stages, jobs, s.(registry := r'))
  {
    hide MW.Invariant, AllFlow, P.Evolves, UploadsOf;
    MW.InvariantSurvives(stages, jobs, s, r');
    if s.outcome == MW.Running {
      OthersLetFlow(s.registry, r', UploadsOf(s.workers));
    }
  }

  lemma {:induction false} MultiRunInvariant(w: R.Wire, repo: string, run: seq<Multi>, stages: MW.Stages, jobs: nat,
                                             first: P.Registry, n: nat) returns (r: P.Registry)
    requires n < |run| && jobs > 0 && R.Faithful(w) && IsAnsweredMultiRun(w, repo, run, stages, jobs)
    requires ProperJobs(stages) && OnlyManifestJobs(stages) && MW.Ordered(stages)
    requires Holds(w, repo, run[0].server, first) && P.Closed(first)
    ensures Holds(w, repo, run[n].server, r) && P.Closed(r) && MultiOnItsWay(stages, jobs, Ideal(run[n], r))
    ensures MultiAnswers(w, repo, run, stages, jobs, n) + MG.StepsLeft(stages, jobs, run[n].system)
            <= 13 * MG.JobsFrom(stages, 0) + (jobs + 1) * |stages|
  {
    hide R.Faithful, Holds, P.Closed, AnsweredSystemStep, MultiOnItsWay, OthersEvolve, MG.StepsLeft, MG.JobsFrom, ProperJobs,
      OnlyManifestJobs, MW.Ordered;
    if n == 0 {
      r := first;
      StartsMulti(r, stages, jobs);
      StartsMulti(run[0].system.registry, stages, jobs);
      assert Ideal(run[0], r) == MW.StartStage(r, stages, 0, jobs);
    } else {
      var before := MultiRunInvariant(w, repo, run, stages, jobs, first, n - 1);
      var s, s' := run[n - 1], run[n];
      if AnsweredSystemStep(w, repo, stages, jobs, s, s') {
        r := MultiGoesOn(w, repo, stages, jobs, s, before, s');
        EvolvesClosed(before, r);
      } else {
        r :| Holds(w, repo, s'.server, r) && OthersEvolve(before, r, Held(UploadsOf(s.system.workers)));
        StillMulti(stages, jobs, Ideal(s, before), r);
        OthersKeepClosed(before, r, Held(UploadsOf(s.system.workers)));
      }
    }
  }

  lemma SucceededIsThere(request: MP.Request, blobs: set<P.Digest>, levels: MP.Levels, images: MP.Request, indexes: MP.Request,
                         jobs: nat, s: MW.System)
    requires MP.Collected(request, blobs, levels, images, indexes)
    requires MultiOnItsWay(MW.StagesOf(blobs, levels, images, indexes), jobs, s) && s.outcome == MW.Succeeded && P.Closed(s.registry)
    ensures forall ref :: ref in request ==> P.TreePresent(s.registry, request[ref])
  {
    hide MP.Collected, P.Closed, P.TreePresent;
    forall ref | ref in request
      ensures P.TreePresent(s.registry, request[ref])
    {
      MW.RootIsCommitted(request, blobs, levels, images, indexes, s, ref);
      P.RootMeansTree(s.registry, request[ref]);
    }
  }

  /** When every request of a MultiWrite with at least one worker is answered, it never fails, takes at
      most so many steps, and when no answer is to come any more it has succeeded, and every requested tree
      can be pulled whole. */
  lemma MultiWriteSucceeds(w: R.Wire, repo: string, run: seq<Multi>, request: MP.Request, blobs: set<P.Digest>,
                           levels: MP.Levels, images: MP.Request, indexes: MP.Request, jobs: nat, first: P.Registry, n: nat)
    requires n < |run| && jobs > 0 && R.Faithful(w)
    requires MP.Collected(request, blobs, levels, images, indexes) && MW.Sensible(request)
    requires forall ref :: ref in request ==> R.Proper(ref)
    requires IsAnsweredMultiRun(w, repo, run, MW.StagesOf(blobs, levels, images, indexes), jobs)
    requires Holds(w, repo, run[0].server, first) && P.Closed(first)
    ensures var stages := MW.StagesOf(blobs, levels, images, indexes);
            && run[n].system.outcome != MW.Failed
            && MultiAnswers(w, repo, run, stages, jobs, n) <= 13 * MG.JobsFrom(stages, 0) + (jobs + 1) * |stages|
            && ((forall s' :: !AnsweredSystemStep(w, repo, stages, jobs, run[n], s')) ==>
                  && run[n].system.outcome == MW.Succeeded
                  && forall ref :: ref in request ==> Serves(w, repo, run[n].server, request[ref]))
  {
    var stages := MW.StagesOf(blobs, levels, images, indexes);
    hide *;
    MW.StagesAreOrdered(request, blobs, levels, images, indexes);
    RequestJobsAreProper(request, blobs, levels, images, indexes);
    JobsAreManifests(request, blobs, levels, images, indexes);
    var r := MultiRunInvariant(w, repo, run, stages, jobs, first, n);
    IdealOutcome(run[n], r);
    NotFailed(stages, jobs, Ideal(run[n], r));
    if run[n].system.outcome == MW.Running {
      var s' := SomeMultiAnswer(w, repo, stages, jobs, run[n], r);
    } else {
      SucceededIsThere(request, blobs, levels, images, indexes, jobs, Ideal(run[n], r));
      forall ref | ref in request
        ensures Serves(w, repo, run[n].server, request[ref])
      {
        PresentIsServed(w, repo, run[n].server, r, request[ref]);
      }
    }
  }

  /** Answered steps are among the steps that ServedPush is about. */
  lemma AnsweredIsServed(w: R.Wire, repo: string, stages: MW.Stages, jobs: nat, s: Multi, s': Multi)
    requires AnsweredSystemStep(w, repo, stages, jobs, s, s')
    ensures ServedSystemStep(w, repo, stages, jobs, s, s')
  {
    hide ServeBlob, M.Handle, MW.WorkerStep, MW.StageEnds, MW.FeederMoves;
    if i: nat, queue', x' :| AnsweredWorkerMoves(w, repo, s, s', i, queue', x') {
      match s.system.workers[i] {
        case Uploading(u) =>
        case Committing(ref, m) =>
          var ok :| AnsweredCommit(w, repo, s.server, ref, m, s'.server, ok) && x' == if ok then MW.Idle else MW.Exited(false);
          assert ServedCommit(w, repo, s.server, ref, m, s'.server, ok);
        case _ =>
      }
      assert ServedWorkerMoves(w, repo, s, s', i, queue', x');
    }
  }

  lemma NotFailed(stages: MW.Stages, jobs: nat, s: MW.System)
    requires MultiOnItsWay(stages, jobs, s)
    ensures s.outcome != MW.Failed
  {
  }
}
