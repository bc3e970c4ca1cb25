/** remote.MultiWrite pushing a collected plan with a fixed number of workers
    (pkg/v1/remote/multi_write.go).

    The push goes through stages: all blobs, the requested images, the discovered manifests
    from the lowest level up, the requested indexes.  In each stage a feeder sends the jobs
    over a bounded channel, the workers drain it, and the next stage starts only when every
    worker has returned without an error. */
module MultiWriteProtocol {
  import opened PushServer
  import opened MultiWritePlan

  datatype Job = UploadBlob(blob: Digest) | CommitManifest(ref: Ref, content: Content)

  type Stages = seq<set<Job>>

  function BlobJobs(blobs: set<Digest>): set<Job> { set b | b in blobs :: UploadBlob(b) }

  function CommitJobs(m: Request): set<Job> { set ref | ref in m :: CommitManifest(ref, m[ref]) }

  function LevelJobs(level: map<Digest, Content>): set<Job> {
    set d | d in level :: CommitManifest(ByDigest(d), level[d])
  }

  /** The stages in the order MultiWrite runs them. */
  function StagesOf(blobs: set<Digest>, levels: Levels, images: Request, indexes: Request): Stages {
    [BlobJobs(blobs), CommitJobs(images)]
    + seq(|levels|, i requires 0 <= i < |levels| => LevelJobs(levels[|levels| - 1 - i]))
    + [CommitJobs(indexes)]
  }

  // ---------------------------------------------------------------- dependencies

  /** A manifest's blobs and children are jobs of earlier stages. */
  ghost predicate Ready(stages: Stages, t: nat, m: Content) {
    && (forall b :: b in BlobsOf(m) ==> exists e :: 0 <= e < t && e < |stages| && UploadBlob(b) in stages[e])
    && (forall c :: c in ChildrenOf(m) ==>
          exists e :: 0 <= e < t && e < |stages| && CommitManifest(ByDigest(c), c.content) in stages[e])
  }

  ghost predicate Ordered(stages: Stages) {
    forall t, ref, m {:trigger CommitManifest(ref, m) in stages[t]} ::
      0 <= t < |stages| && CommitManifest(ref, m) in stages[t] ==>
        Ready(stages, t, m) && (ref.ByDigest? ==> ref == IdOf(m))
  }

  ghost predicate Sensible(request: Request) {
    forall ref :: ref in request ==> (ref.ByDigest? ==> ref == IdOf(request[ref]))
  }

  lemma LevelStage(blobs: set<Digest>, levels: Levels, images: Request, indexes: Request, k: nat, d: Digest)
    requires k < |levels| && d in levels[k]
    ensures var stages := StagesOf(blobs, levels, images, indexes);
            var t := 1 + |levels| - k;
            t < |stages| && CommitManifest(ByDigest(d), levels[k][d]) in stages[t]
  {
    var stages := StagesOf(blobs, levels, images, indexes);
    assert stages[1 + |levels| - k] == LevelJobs(levels[k]);
  }

  /** A blob job is a job of the first stage. */
  lemma BlobStage(blobs: set<Digest>, levels: Levels, images: Request, indexes: Request)
    ensures var stages := StagesOf(blobs, levels, images, indexes);
            |stages| == |levels| + 3 && forall b :: b in blobs ==> UploadBlob(b) in stages[0]
  {
  }

  lemma RootIsCovered(request: Request, blobs: set<Digest>, levels: Levels, m: Content)
    requires PlanCovers(request.Values, blobs, levels) && m in request.Values
    ensures m.ImageManifest? ==> BlobsOf(m) <= blobs
    ensures forall c :: c in ChildrenOf(m) ==> |levels| > 0 && c in levels[0] && levels[0][c] == c.content
  {
    PlanHasLevelProperty(request.Values, blobs, levels);
    forall c | c in ChildrenOf(m)
      ensures |levels| > 0 && c in levels[0] && levels[0][c] == c.content
    {
      assert c in levels[0];
    }
    if m.ImageManifest? {
      ImagePushable(m);
      forall b | b in BlobsOf(m)
        ensures b in blobs
      {
        assert b in TreeBlobs(m);
      }
    }
  }

  /** The level property makes the stages respect every dependency. */
  lemma StagesAreOrdered(request: Request, blobs: set<Digest>, levels: Levels, images: Request, indexes: Request)
    requires Collected(request, blobs, levels, images, indexes) && Sensible(request)
    ensures Ordered(StagesOf(blobs, levels, images, indexes))
  {
    var stages := StagesOf(blobs, levels, images, indexes);
    BlobStage(blobs, levels, images, indexes);
    forall t, ref, m | 0 <= t < |stages| && CommitManifest(ref, m) in stages[t]
      ensures Ready(stages, t, m) && (ref.ByDigest? ==> ref == IdOf(m))
    {
      if t == 1 || t == |levels| + 2 {
        var part := if t == 1 then images else indexes;
        assert stages[t] == CommitJobs(part);
        assert ref in part && part[ref] == m && request[ref] == m;
        RootIsCovered(request, blobs, levels, m);
        forall c | c in ChildrenOf(m)
          ensures t == |levels| + 2 && CommitManifest(ByDigest(c), c.content) in stages[1 + |levels|]
        {
          LevelStage(blobs, levels, images, indexes, 0, c);
        }
      } else {
        var k := |levels| + 1 - t;
        assert stages[t] == LevelJobs(levels[k]);
        var d :| d in levels[k] && ref == ByDigest(d) && m == levels[k][d];
        PlanHasLevelProperty(request.Values, blobs, levels);
        assert m == d.content;
        forall c | c in ChildrenOf(m)
          ensures CommitManifest(ByDigest(c), c.content) in stages[t - 1]
        {
          assert c in levels[k + 1] && levels[k + 1][c] == c.content;
          LevelStage(blobs, levels, images, indexes, k + 1, c);
        }
      }
    }
  }

  // ---------------------------------------------------------------- the system

  datatype Worker =
    | Idle
    | Uploading(upload: Upload)
    | Committing(ref: Ref, content: Content)
    | Exited(ok: bool)

  datatype Outcome = Running | Succeeded | Failed

  /** `todo` is what the feeder still has to send; it closes the channel when nothing is left. */
  datatype System = System(registry: Registry, stage: nat, todo: set<Job>, queue: seq<Job>,
                           workers: seq<Worker>, outcome: Outcome)

  function StartJob(j: Job): Worker {
    match j
    case UploadBlob(b) => Uploading(StartUpload(b, false))
    case CommitManifest(ref, m) => Committing(ref, m)
  }

  function StartStage(r: Registry, stages: Stages, stage: nat, jobs: nat): System {
    if stage < |stages| then System(r, stage, stages[stage], [], seq(jobs, _ => Idle), Running)
    else System(r, stage, {}, [], seq(jobs, _ => Idle), Succeeded)
  }

  /** One move of one worker against the registry. */
  ghost predicate WorkerStep(r: Registry, queue: seq<Job>, todo: set<Job>, w: Worker,
                             r': Registry, queue': seq<Job>, w': Worker) {
    match w
    case Idle =>
      && r' == r
      && (|| (queue != [] && queue' == queue[1..] && w' == StartJob(queue[0]))
          || (queue == [] && todo == {} && queue' == queue && w' == Exited(true)))
    case Uploading(u) =>
      && queue' == queue
      && (if u.Uploaded? then r' == r && w' == Idle
          else if u.UploadFailed? then r' == r && w' == Exited(false)
          else w'.Uploading? && UploadStep(r, u, r', w'.upload))
    case Committing(ref, m) =>
      && queue' == queue
      && (|| (r' == Put(r, ref, m) && w' in {Idle, Exited(false)})
          || (r' == r && w' == Exited(false)))
    case Exited(_) => false
  }

  /** The feeder sends one more job if the channel has room. */
  ghost predicate FeederMoves(jobs: nat, s: System, s': System, j: Job) {
    && j in s.todo && |s.queue| < 2 * jobs
    && s' == s.(todo := s.todo - {j}, queue := s.queue + [j])
  }

  ghost predicate WorkerMoves(s: System, s': System, i: nat, r': Registry, queue': seq<Job>, w': Worker) {
    && i < |s.workers|
    && WorkerStep(s.registry, s.queue, s.todo, s.workers[i], r', queue', w')
    && s' == s.(registry := r', queue := queue', workers := s.workers[i := w'])
  }

  /** All workers have returned: the push fails, or goes on with the next stage. */
  ghost predicate StageEnds(stages: Stages, jobs: nat, s: System, s': System) {
    && (forall w :: w in s.workers ==> w.Exited?)
    && s' == if Exited(false) in s.workers then s.(outcome := Failed)
             else StartStage(s.registry, stages, s.stage + 1, jobs)
  }

  ghost predicate SystemStep(stages: Stages, jobs: nat, s: System, s': System) {
    && s.outcome == Running
    && (|| (exists j :: FeederMoves(jobs, s, s', j))
        || (exists i, r', queue', w' :: WorkerMoves(s, s', i, r', queue', w'))
        || StageEnds(stages, jobs, s, s'))
  }

  // ---------------------------------------------------------------- the invariant

  ghost predicate Done(r: Registry, j: Job) {
    match j
    case UploadBlob(b) => b in r.blobs
    case CommitManifest(_, m) => IdOf(m) in r.manifests
  }

  ghost predicate WorkingOn(w: Worker, j: Job) {
    match w
    case Uploading(u) => j == UploadBlob(u.blob)
    case Committing(ref, m) => j == CommitManifest(ref, m)
    case _ => false
  }

  ghost predicate Accounted(s: System, j: Job) {
    || j in s.todo || j in s.queue || Done(s.registry, j)
    || (exists w :: w in s.workers && WorkingOn(w, j))
    || Exited(false) in s.workers
  }

  ghost predicate StagesDone(r: Registry, stages: Stages, n: nat) {
    forall t, j :: 0 <= t < n && t < |stages| && j in stages[t] ==> Done(r, j)
  }

  ghost predicate WorkerFits(s: System, stage: set<Job>, w: Worker) {
    && (forall j :: WorkingOn(w, j) ==> j in stage)
    && (w.Uploading? && w.upload.Uploaded? ==> w.upload.blob in s.registry.blobs)
    && (w == Exited(true) ==> s.todo == {} && s.queue == [])
  }

  ghost predicate Invariant(stages: Stages, jobs: nat, s: System) {
    && |s.workers| == jobs
    && StagesDone(s.registry, stages, s.stage)
    && (s.outcome == Succeeded ==> s.stage >= |stages|)
    && (s.outcome == Running ==>
          && s.stage < |stages|
          && s.todo <= stages[s.stage]
          && (forall j :: j in s.queue ==> j in stages[s.stage])
          && (forall w :: w in s.workers ==> WorkerFits(s, stages[s.stage], w))
          && (forall j :: j in stages[s.stage] ==> Accounted(s, j)))
  }

  lemma DoneSurvives(r: Registry, r': Registry, stages: Stages, n: nat)
    requires Evolves(r, r') && StagesDone(r, stages, n)
    ensures StagesDone(r', stages, n)
  {
    forall t, j | 0 <= t < n && t < |stages| && j in stages[t]
      ensures Done(r', j)
    {
      assert Done(r, j);
    }
  }

  lemma InvariantSurvives(stages: Stages, jobs: nat, s: System, r': Registry)
    requires Invariant(stages, jobs, s) && Evolves(s.registry, r')
    ensures Invariant(stages, jobs, s.(registry := r'))
  {
    DoneSurvives(s.registry, r', stages, s.stage);
    var s' := s.(registry := r');
    if s.outcome == Running {
      forall j | j in stages[s.stage]
        ensures Accounted(s', j)
      {
        assert Accounted(s, j);
      }
      forall w | w in s'.workers
        ensures WorkerFits(s', stages[s.stage], w)
      {
        assert WorkerFits(s, stages[s.stage], w);
      }
    }
  }

  /** A new stage starts with every job still to be sent. */
  lemma StartStageInvariant(r: Registry, stages: Stages, stage: nat, jobs: nat)
    requires StagesDone(r, stages, stage)
    ensures Invariant(stages, jobs, StartStage(r, stages, stage, jobs))
  {
  }

  /** A manifest about to be committed has all it refers to, so a server that checks an
      index's children has no reason to reject it. */
  lemma CommitIsSatisfied(stages: Stages, jobs: nat, s: System, w: Worker)
    requires Ordered(stages) && Invariant(stages, jobs, s) && s.outcome == Running
    requires w in s.workers && w.Committing?
    ensures Satisfied(s.registry, w.content)
    ensures w.ref.ByDigest? ==> w.ref == IdOf(w.content)
  {
    var job := CommitManifest(w.ref, w.content);
    assert WorkerFits(s, stages[s.stage], w) && WorkingOn(w, job);
    assert job in stages[s.stage];
    assert Ready(stages, s.stage, w.content);
    forall b | b in BlobsOf(w.content)
      ensures b in s.registry.blobs
    {
      var e :| 0 <= e < s.stage && e < |stages| && UploadBlob(b) in stages[e];
      assert Done(s.registry, UploadBlob(b));
    }
    forall c | c in ChildrenOf(w.content)
      ensures ByDigest(c) in s.registry.manifests
    {
      var e :| 0 <= e < s.stage && e < |stages| && CommitManifest(ByDigest(c), c.content) in stages[e];
      assert Done(s.registry, CommitManifest(ByDigest(c), c.content));
    }
  }

  /** The registry's part of a worker's move. */
  lemma WorkerStepEvolves(stages: Stages, jobs: nat, s: System, i: nat, r': Registry, queue': seq<Job>, w': Worker)
    requires Ordered(stages) && Invariant(stages, jobs, s) && s.outcome == Running && i < |s.workers|
    requires WorkerStep(s.registry, s.queue, s.todo, s.workers[i], r', queue', w')
    ensures Evolves(s.registry, r')
    ensures s.workers[i].Committing? && w' == Idle ==> IdOf(s.workers[i].content) in r'.manifests
    ensures s.workers[i].Uploading? && w'.Uploading? ==>
              w'.upload.blob == s.workers[i].upload.blob && (w'.upload.Uploaded? ==> w'.upload.blob in r'.blobs)
  {
    var w := s.workers[i];
    if w.Uploading? && w'.Uploading? {
      UploadStepEvolves(s.registry, w.upload, r', w'.upload);
    } else if w.Committing? {
      CommitIsSatisfied(stages, jobs, s, w);
      PutEvolves(s.registry, w.ref, w.content);
    }
  }

  /** What a worker's move does to the job it holds or takes. */
  lemma WorkerStepAccounts(stages: Stages, jobs: nat, s: System, i: nat, r': Registry, queue': seq<Job>, w': Worker, j: Job)
    requires Ordered(stages) && Invariant(stages, jobs, s) && s.outcome == Running && i < |s.workers|
    requires WorkerStep(s.registry, s.queue, s.todo, s.workers[i], r', queue', w')
    requires j in stages[s.stage]
    ensures Accounted(s.(registry := r', queue := queue', workers := s.workers[i := w']), j)
  {
    hide Ordered, Closed, Evolves, UploadStep, StagesDone;
    WorkerStepEvolves(stages, jobs, s, i, r', queue', w');
    var s' := s.(registry := r', queue := queue', workers := s.workers[i := w']);
    var w := s.workers[i];
    assert WorkerFits(s, stages[s.stage], w);
    assert s'.workers[i] in s'.workers;
    assert Accounted(s, j);
    if Done(s.registry, j) {
      DoneStays(s.registry, r', j);
    } else if x :| x in s.workers && (WorkingOn(x, j) || x == Exited(false)) {
      var k :| 0 <= k < |s.workers| && s.workers[k] == x;
      if k != i {
        assert s'.workers[k] in s'.workers;
      } else {
        assert WorkingOn(w, j);
      }
    } else if j in s.queue && j !in queue' {
      assert s.queue == [s.queue[0]] + s.queue[1..];
      assert WorkingOn(w', j);
    }
  }

  lemma DoneStays(r: Registry, r': Registry, j: Job)
    requires Evolves(r, r') && Done(r, j)
    ensures Done(r', j)
  {
  }

  lemma WorkerStepKeeps(stages: Stages, jobs: nat, s: System, i: nat, r': Registry, queue': seq<Job>, w': Worker)
    requires Ordered(stages) && Invariant(stages, jobs, s) && s.outcome == Running && i < |s.workers|
    requires WorkerStep(s.registry, s.queue, s.todo, s.workers[i], r', queue', w')
    ensures Evolves(s.registry, r')
    ensures Invariant(stages, jobs, s.(registry := r', queue := queue', workers := s.workers[i := w']))
  {
    hide Ordered, Closed, UploadStep, Accounted;
    WorkerStepEvolves(stages, jobs, s, i, r', queue', w');
    DoneSurvives(s.registry, r', stages, s.stage);
    var s' := s.(registry := r', queue := queue', workers := s.workers[i := w']);
    var stage := stages[s.stage];
    forall j | j in stage
      ensures Accounted(s', j)
    {
      WorkerStepAccounts(stages, jobs, s, i, r', queue', w', j);
    }
    assert WorkerFits(s, stage, s.workers[i]);
    forall x | x in s'.workers
      ensures WorkerFits(s', stage, x)
    {
      var k :| 0 <= k < |s'.workers| && s'.workers[k] == x;
      if k != i {
        assert WorkerFits(s, stage, s.workers[k]);
      }
    }
  }

  /** All workers have returned without an error, so the stage is done.  Here it matters that
      there is a worker: none at all would skip every job. */
  lemma StageCompletes(stages: Stages, jobs: nat, s: System)
    requires jobs > 0
    requires Invariant(stages, jobs, s) && s.outcome == Running
    requires forall w :: w in s.workers ==> w == Exited(true)
    ensures StagesDone(s.registry, stages, s.stage + 1)
  {
    assert s.workers[0] in s.workers;
    assert WorkerFits(s, stages[s.stage], s.workers[0]);
    forall t, j | 0 <= t < s.stage + 1 && t < |stages| && j in stages[t]
      ensures Done(s.registry, j)
    {
      if t == s.stage {
        assert Accounted(s, j);
      }
    }
  }

  lemma SystemStepKeeps(stages: Stages, jobs: nat, s: System, s': System)
    requires jobs > 0 && Ordered(stages)
    requires Invariant(stages, jobs, s) && SystemStep(stages, jobs, s, s')
    ensures Evolves(s.registry, s'.registry) && Invariant(stages, jobs, s')
  {
    hide Ordered, Ready;
    if exists i, r', queue', w' :: WorkerMoves(s, s', i, r', queue', w') {
      var i: nat, r', queue', w' :| WorkerMoves(s, s', i, r', queue', w');
      WorkerStepKeeps(stages, jobs, s, i, r', queue', w');
    } else if exists j :: FeederMoves(jobs, s, s', j) {
      var j :| FeederMoves(jobs, s, s', j);
      FeedKeeps(stages, jobs, s, j);
    } else if Exited(false) !in s.workers {
      StageCompletes(stages, jobs, s);
      StartStageInvariant(s.registry, stages, s.stage + 1, jobs);
    }
  }

  lemma FeedKeeps(stages: Stages, jobs: nat, s: System, j: Job)
    requires Invariant(stages, jobs, s) && s.outcome == Running && j in s.todo
    ensures Invariant(stages, jobs, s.(todo := s.todo - {j}, queue := s.queue + [j]))
  {
    var s' := s.(todo := s.todo - {j}, queue := s.queue + [j]);
    forall x | x in stages[s.stage]
      ensures Accounted(s', x)
    {
      assert Accounted(s, x);
    }
    forall w | w in s'.workers
      ensures WorkerFits(s', stages[s.stage], w)
    {
      assert WorkerFits(s, stages[s.stage], w);
    }
  }

  // ---------------------------------------------------------------- runs

  ghost predicate Step(stages: Stages, jobs: nat, s: System, s': System) {
    || SystemStep(stages, jobs, s, s')
    || (Evolves(s.registry, s'.registry) && s' == s.(registry := s'.registry))
  }

  ghost predicate IsRun(run: seq<System>, stages: Stages, jobs: nat) {
    && run != []
    && Closed(run[0].registry) && run[0] == StartStage(run[0].registry, stages, 0, jobs)
    && forall i :: 0 <= i < |run| - 1 ==> Step(stages, jobs, run[i], run[i + 1])
  }

  lemma {:induction false} RunInvariant(run: seq<System>, stages: Stages, jobs: nat, n: nat)
    requires jobs > 0 && Ordered(stages) && IsRun(run, stages, jobs) && n < |run|
    ensures Closed(run[n].registry) && Invariant(stages, jobs, run[n])
  {
    if n == 0 {
      StartStageInvariant(run[0].registry, stages, 0, jobs);
    } else {
      RunInvariant(run, stages, jobs, n - 1);
      var s, s' := run[n - 1], run[n];
      assert Step(stages, jobs, s, s');
      if SystemStep(stages, jobs, s, s') {
        SystemStepKeeps(stages, jobs, s, s');
      } else {
        InvariantSurvives(stages, jobs, s, s'.registry);
      }
    }
  }

  /** In every prefix of every interleaving of a MultiWrite with at least one worker the
      registry is closed, no commit is premature, and success means every requested tree is
      there. */
  lemma MultiWriteKeepsIntegrity(request: Request, blobs: set<Digest>, levels: Levels,
                                 images: Request, indexes: Request, run: seq<System>, jobs: nat, n: nat)
    requires Collected(request, blobs, levels, images, indexes) && Sensible(request)
    requires jobs > 0 && IsRun(run, StagesOf(blobs, levels, images, indexes), jobs) && n < |run|
    ensures Closed(run[n].registry)
    ensures run[n].outcome == Running ==>
              forall w :: w in run[n].workers && w.Committing? ==> Satisfied(run[n].registry, w.content)
    ensures run[n].outcome == Succeeded ==>
              forall ref :: ref in request ==> TreePresent(run[n].registry, request[ref])
  {
    var stages := StagesOf(blobs, levels, images, indexes);
    StagesAreOrdered(request, blobs, levels, images, indexes);
    RunInvariant(run, stages, jobs, n);
    var s := run[n];
    if s.outcome == Running {
      forall w | w in s.workers && w.Committing?
        ensures Satisfied(s.registry, w.content)
      {
        CommitIsSatisfied(stages, jobs, s, w);
      }
    } else if s.outcome == Succeeded {
      forall ref | ref in request
        ensures TreePresent(s.registry, request[ref])
      {
        RootIsCommitted(request, blobs, levels, images, indexes, s, ref);
        RootMeansTree(s.registry, request[ref]);
      }
    }
  }

  lemma RootIsCommitted(request: Request, blobs: set<Digest>, levels: Levels,
                        images: Request, indexes: Request, s: System, ref: Ref)
    requires Collected(request, blobs, levels, images, indexes) && ref in request
    requires StagesDone(s.registry, StagesOf(blobs, levels, images, indexes), |levels| + 3)
    ensures IdOf(request[ref]) in s.registry.manifests
  {
    var stages := StagesOf(blobs, levels, images, indexes);
    var m := request[ref];
    assert m in request.Values && Pushable(m);
    var t := if m.ImageManifest? then 1 else |levels| + 2;
    var part := if m.ImageManifest? then images else indexes;
    assert stages[t] == CommitJobs(part) && ref in part && part[ref] == m;
    assert CommitManifest(ref, m) in stages[t];
    assert Done(s.registry, CommitManifest(ref, m));
  }
}
