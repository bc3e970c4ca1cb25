/** gcrane's recursiveCopy (pkg/gcrane/copy.go): the walker sends the tasks of GcraneDiff for every
    repository below the source, and the workers of GcraneQueue run copyImages on them, with its
    retries. */
module GcraneSync {
  import D = GcraneDiff
  import Q = GcraneQueue

  /** What is to be copied from one repository: to where, what is there and what is at the target. */
  datatype Job = Job(target: string, source: D.Repo, want: D.Listing, have: D.Listing)

  /** A repository that does not exist has nothing. */
  function At(repos: map<string, D.Repo>, name: string): D.Repo {
    if name in repos then repos[name] else D.Repo({}, map[])
  }

  /** The repositories that the walk comes to, and the state of all before it starts. */
  datatype Walk = Walk(jobs: map<string, Job>, before: map<string, D.Repo>)
  {
    ghost predicate ListingsAreTrue() {
      forall r :: r in jobs ==> D.Lists(jobs[r].want, jobs[r].source) && D.Lists(jobs[r].have, At(before, jobs[r].target))
    }

    /** No two repositories are copied to one. */
    ghost predicate TargetsAreDistinct() {
      forall r, q :: r in jobs && q in jobs && jobs[r].target == jobs[q].target ==> r == q
    }

    ghost predicate Valid() { ListingsAreTrue() && TargetsAreDistinct() }
  }

  /** The puts that have taken effect, by the repository they are copied from. */
  type Log = map<string, seq<D.Put>>

  function Of(log: Log, repo: string): seq<D.Put> { if repo in log then log[repo] else [] }

  function More(log: Log, repo: string, p: D.Put): Log { log[repo := Of(log, repo) + [p]] }

  /** `dests` are all repositories as they are now; `progress` says for every worker how far its
      current attempt at its task has come. */
  datatype Sync = Sync(queue: Q.System, dests: map<string, D.Repo>, log: Log, progress: seq<nat>)

  function Start(w: Walk, tasks: seq<Q.Task>, jobs: nat): Sync {
    Sync(Q.Start(tasks, jobs), w.before, map[], seq(jobs, _ => 0))
  }

  ghost function Puts(w: Walk, t: Q.Task): (puts: seq<D.Put>)
    requires w.Valid()
    ensures puts != [] ==> t.repo in w.jobs
  {
    if t.repo in w.jobs && t.digest in w.jobs[t.repo].want then
      var j := w.jobs[t.repo];
      D.TaskPuts(j.source, j.want, j.have, t.digest)
    else []
  }

  // ---------------------------------------------------------------- steps

  /** A put of repository `repo` takes effect. */
  function Effect(w: Walk, s: Sync, repo: string, p: D.Put): Sync
    requires repo in w.jobs
  {
    var target := w.jobs[repo].target;
    s.(dests := s.dests[target := D.Apply(At(s.dests, target), p)], log := More(s.log, repo, p))
  }

  /** Worker i sends the next put of its task. */
  ghost predicate SendStep(w: Walk, s: Sync, s': Sync, i: nat)
    requires w.Valid()
  {
    && i < |s.queue.workers| == |s.progress| && s.queue.workers[i].Copying?
    && var t, n := s.queue.workers[i].task, s.progress[i];
       n < |Puts(w, t)| &&
       // it succeeds, or the attempt fails before or after the put has taken effect
       (|| s' == Effect(w, s, t.repo, Puts(w, t)[n]).(progress := s.progress[i := n + 1])
        || s' == Effect(w, s, t.repo, Puts(w, t)[n]).(progress := s.progress[i := 0])
        || s' == s.(progress := s.progress[i := 0]))
  }

  /** Worker i takes a task, ends one or returns; copyImages succeeds only when all puts have. */
  ghost predicate WorkerStep(w: Walk, s: Sync, s': Sync, i: nat)
    requires w.Valid()
  {
    && Q.WorkerStep(s.queue, s'.queue, i) && i < |s.progress|
    && s' == s.(queue := s'.queue, progress := s.progress[i := 0])
    && (s.queue.workers[i].Copying? && s'.queue.workers[i].Ready? ==>
          s.progress[i] == |Puts(w, s.queue.workers[i].task)|)
  }

  ghost predicate OtherStep(jobs: nat, s: Sync, s': Sync) {
    && (Q.WalkerStep(jobs, s.queue, s'.queue) || Q.Misfortune(s.queue, s'.queue))
    && s' == s.(queue := s'.queue)
  }

  ghost predicate Step(w: Walk, jobs: nat, s: Sync, s': Sync)
    requires w.Valid()
  {
    (exists i :: SendStep(w, s, s', i)) || (exists i :: WorkerStep(w, s, s', i)) || OtherStep(jobs, s, s')
  }

  // ---------------------------------------------------------------- the invariant

  ghost predicate AllSent(w: Walk, log: Log, t: Q.Task, n: nat)
    requires w.Valid()
  {
    n <= |Puts(w, t)| && forall k :: 0 <= k < n ==> Puts(w, t)[k] in Of(log, t.repo)
  }

  ghost predicate LogJustified(w: Walk, tasks: seq<Q.Task>, log: Log)
    requires w.Valid()
  {
    forall r, p :: p in Of(log, r) ==> exists t :: t in tasks && t.repo == r && p in Puts(w, t)
  }

  /** The targets are what the puts have made of them, and the other repositories are untouched. */
  ghost predicate DestsAre(w: Walk, dests: map<string, D.Repo>, log: Log) {
    && (forall r :: r in w.jobs ==> At(dests, w.jobs[r].target) == D.Run(At(w.before, w.jobs[r].target), Of(log, r)))
    && (forall name :: (forall r :: r in w.jobs ==> w.jobs[r].target != name) ==> At(dests, name) == At(w.before, name))
  }

  /** Every worker with a task has sent what its attempt has come to. */
  ghost predicate AttemptsSent(w: Walk, tasks: seq<Q.Task>, workers: seq<Q.Worker>, log: Log, progress: seq<nat>)
    requires w.Valid()
  {
    && |progress| == |workers|
    && forall i :: 0 <= i < |workers| && workers[i].Copying? ==>
         workers[i].task in tasks && AllSent(w, log, workers[i].task, progress[i])
  }

  /** A task ends when all its puts have been made. */
  ghost predicate EndedSent(w: Walk, executed: multiset<Q.Task>, log: Log)
    requires w.Valid()
  {
    forall t :: executed[t] > 0 ==> AllSent(w, log, t, |Puts(w, t)|)
  }

  ghost predicate Invariant(w: Walk, tasks: seq<Q.Task>, jobs: nat, s: Sync)
    requires w.Valid()
  {
    && Q.Invariant(tasks, jobs, s.queue)
    && QueueKnown(s.queue, tasks)
    && DestsAre(w, s.dests, s.log)
    && LogJustified(w, tasks, s.log)
    && AttemptsSent(w, tasks, s.queue.workers, s.log, s.progress)
    && EndedSent(w, s.queue.executed, s.log)
  }

  lemma StartInvariant(w: Walk, tasks: seq<Q.Task>, jobs: nat)
    requires w.Valid()
    ensures Invariant(w, tasks, jobs, Start(w, tasks, jobs))
  {
    Q.StartInvariant(tasks, jobs);
    hide Q.Invariant;
  }

  lemma SentStays(w: Walk, log: Log, repo: string, p: D.Put)
    requires w.Valid()
    ensures forall t, n :: AllSent(w, log, t, n) ==> AllSent(w, More(log, repo, p), t, n)
  {
    hide Puts;
  }

  lemma RunOneMore(r: D.Repo, puts: seq<D.Put>, p: D.Put)
    ensures D.Run(r, puts + [p]) == D.Apply(D.Run(r, puts), p)
  {
    assert (puts + [p])[..|puts|] == puts;
  }

  /** What a put does to the target of its repository and of another. */
  lemma TargetFollows(w: Walk, s: Sync, repo: string, p: D.Put, r: string)
    requires w.Valid() && repo in w.jobs && r in w.jobs
    requires At(s.dests, w.jobs[r].target) == D.Run(At(w.before, w.jobs[r].target), Of(s.log, r))
    ensures var s' := Effect(w, s, repo, p);
            At(s'.dests, w.jobs[r].target) == D.Run(At(w.before, w.jobs[r].target), Of(s'.log, r))
  {
    assert r != repo ==> w.jobs[r].target != w.jobs[repo].target;
    RunOneMore(At(w.before, w.jobs[repo].target), Of(s.log, repo), p);
    hide Walk.Valid, D.Run, D.Apply;
  }

  lemma DestsFollow(w: Walk, s: Sync, repo: string, p: D.Put)
    requires w.Valid() && repo in w.jobs && DestsAre(w, s.dests, s.log)
    ensures DestsAre(w, Effect(w, s, repo, p).dests, More(s.log, repo, p))
  {
    hide Walk.Valid, D.Run, D.Apply;
    var s' := Effect(w, s, repo, p);
    forall r | r in w.jobs
      ensures At(s'.dests, w.jobs[r].target) == D.Run(At(w.before, w.jobs[r].target), Of(s'.log, r))
    {
      TargetFollows(w, s, repo, p, r);
    }
  }

  lemma AttemptGoesOn(w: Walk, tasks: seq<Q.Task>, workers: seq<Q.Worker>, log: Log, progress: seq<nat>, i: nat, m: nat)
    requires w.Valid() && AttemptsSent(w, tasks, workers, log, progress) && i < |workers| && workers[i].Copying?
    requires progress[i] < |Puts(w, workers[i].task)| && m in {0, progress[i] + 1}
    ensures var t := workers[i].task;
            t in tasks && AttemptsSent(w, tasks, workers, More(log, t.repo, Puts(w, t)[progress[i]]), progress[i := m])
  {
    var t := workers[i].task;
    var p := Puts(w, t)[progress[i]];
    assert AllSent(w, log, t, progress[i]);
    assert AllSent(w, More(log, t.repo, p), t, progress[i] + 1);
    hide AllSent, Puts;
    SentStays(w, log, t.repo, p);
    NothingSent(w, More(log, t.repo, p), t);
  }

  lemma AttemptRestarts(w: Walk, tasks: seq<Q.Task>, workers: seq<Q.Worker>, log: Log, progress: seq<nat>, i: nat)
    requires w.Valid() && AttemptsSent(w, tasks, workers, log, progress) && i < |progress|
    ensures AttemptsSent(w, tasks, workers, log, progress[i := 0])
  {
    hide Puts;
  }

  lemma EndedStays(w: Walk, executed: multiset<Q.Task>, log: Log, repo: string, p: D.Put)
    requires w.Valid() && EndedSent(w, executed, log)
    ensures EndedSent(w, executed, More(log, repo, p))
  {
    SentStays(w, log, repo, p);
    hide AllSent, Puts;
  }

  lemma NothingSent(w: Walk, log: Log, t: Q.Task)
    requires w.Valid()
    ensures AllSent(w, log, t, 0)
  {
  }

  lemma LogKeeps(w: Walk, tasks: seq<Q.Task>, log: Log, t: Q.Task, p: D.Put)
    requires w.Valid() && t in tasks && p in Puts(w, t) && LogJustified(w, tasks, log)
    ensures LogJustified(w, tasks, More(log, t.repo, p))
  {
    hide Puts;
    var more := More(log, t.repo, p);
    forall r, q | q in Of(more, r)
      ensures exists x :: x in tasks && x.repo == r && q in Puts(w, x)
    {
      assert (r == t.repo && q == p) || q in Of(log, r);
    }
  }

  ghost predicate QueueKnown(q: Q.System, tasks: seq<Q.Task>) {
    forall t :: t in q.todo || t in q.queue ==> t in tasks
  }

  lemma WorkerQueueKnown(q: Q.System, q': Q.System, tasks: seq<Q.Task>, i: nat)
    requires QueueKnown(q, tasks) && Q.WorkerStep(q, q', i)
    ensures QueueKnown(q', tasks)
    ensures q'.workers[i].Copying? ==> q'.workers[i].task in tasks
  {
    if q.queue != [] {
      assert q.queue[0] in q.queue;
      assert forall t :: t in q.queue[1..] ==> t in q.queue;
    }
  }

  lemma WorkerAttempts(w: Walk, tasks: seq<Q.Task>, s: Sync, s': Sync, i: nat)
    requires w.Valid() && AttemptsSent(w, tasks, s.queue.workers, s.log, s.progress)
    requires QueueKnown(s.queue, tasks) && WorkerStep(w, s, s', i)
    ensures AttemptsSent(w, tasks, s'.queue.workers, s'.log, s'.progress)
  {
    WorkerQueueKnown(s.queue, s'.queue, tasks, i);
    if s'.queue.workers[i].Copying? {
      NothingSent(w, s.log, s'.queue.workers[i].task);
    }
    assert s'.queue.workers == s.queue.workers[i := s'.queue.workers[i]];
    hide Puts, AllSent, QueueKnown;
  }

  lemma WorkerEnds(w: Walk, tasks: seq<Q.Task>, s: Sync, s': Sync, i: nat)
    requires w.Valid() && AttemptsSent(w, tasks, s.queue.workers, s.log, s.progress)
    requires EndedSent(w, s.queue.executed, s.log) && WorkerStep(w, s, s', i)
    ensures EndedSent(w, s'.queue.executed, s'.log)
  {
    hide Puts, AllSent;
  }

  lemma OtherQueueKnown(q: Q.System, q': Q.System, jobs: nat, tasks: seq<Q.Task>)
    requires QueueKnown(q, tasks) && (Q.WalkerStep(jobs, q, q') || Q.Misfortune(q, q'))
    ensures QueueKnown(q', tasks) && q'.workers == q.workers && q'.executed == q.executed
  {
    if q.todo != [] {
      assert q.todo[0] in q.todo;
      assert forall t :: t in q.todo[1..] ==> t in q.todo;
    }
  }

  lemma StepKeeps(w: Walk, tasks: seq<Q.Task>, jobs: nat, s: Sync, s': Sync)
    requires w.Valid() && Invariant(w, tasks, jobs, s) && Step(w, jobs, s, s')
    ensures Invariant(w, tasks, jobs, s')
  {
    hide Q.Invariant, Q.WorkerStep, Q.WalkerStep, Q.Misfortune, Walk.Valid, Puts, D.Apply, D.Run, AllSent, QueueKnown, DestsAre,
      LogJustified, AttemptsSent, EndedSent;
    if i: nat :| SendStep(w, s, s', i) {
      var t, n := s.queue.workers[i].task, s.progress[i];
      if s'.log != s.log {
        var p := Puts(w, t)[n];
        DestsFollow(w, s, t.repo, p);
        AttemptGoesOn(w, tasks, s.queue.workers, s.log, s.progress, i, s'.progress[i]);
        EndedStays(w, s.queue.executed, s.log, t.repo, p);
        LogKeeps(w, tasks, s.log, t, p);
      } else {
        AttemptRestarts(w, tasks, s.queue.workers, s.log, s.progress, i);
      }
    } else if i: nat :| WorkerStep(w, s, s', i) {
      Q.StepKeeps(tasks, jobs, s.queue, s'.queue);
      WorkerAttempts(w, tasks, s, s', i);
      WorkerQueueKnown(s.queue, s'.queue, tasks, i);
      WorkerEnds(w, tasks, s, s', i);
    } else {
      OtherQueueKnown(s.queue, s'.queue, jobs, tasks);
      Q.StepKeeps(tasks, jobs, s.queue, s'.queue);
    }
  }

  // ---------------------------------------------------------------- runs

  ghost predicate IsRun(run: seq<Sync>, w: Walk, tasks: seq<Q.Task>, jobs: nat)
    requires w.Valid()
  {
    && run != [] && run[0] == Start(w, tasks, jobs)
    && forall n :: 0 <= n < |run| - 1 ==> Step(w, jobs, run[n], run[n + 1])
  }

  lemma {:induction false} RunInvariant(run: seq<Sync>, w: Walk, tasks: seq<Q.Task>, jobs: nat, n: nat)
    requires w.Valid() && IsRun(run, w, tasks, jobs) && n < |run|
    ensures Invariant(w, tasks, jobs, run[n])
  {
    hide Invariant, Step;
    if n == 0 {
      StartInvariant(w, tasks, jobs);
    } else {
      RunInvariant(run, w, tasks, jobs, n - 1);
      StepKeeps(w, tasks, jobs, run[n - 1], run[n]);
    }
  }

  /** The tasks that copyRepo queues for all repositories: the digests of the differences, in some
      order. */
  ghost predicate QueuesTheDifferences(w: Walk, tasks: seq<Q.Task>) {
    forall t :: t in tasks <==> t.repo in w.jobs && t.digest in D.Need(w.jobs[t.repo].want, w.jobs[t.repo].have)
  }

  lemma SuccessCompletes(w: Walk, tasks: seq<Q.Task>, jobs: nat, s: Sync, repo: string)
    requires w.Valid() && QueuesTheDifferences(w, tasks) && jobs > 0 && repo in w.jobs
    requires Invariant(w, tasks, jobs, s) && Q.Succeeded(s.queue)
    ensures var j := w.jobs[repo]; D.Completes(Of(s.log, repo), j.source, j.want, j.have)
  {
    hide Q.Invariant, Q.Succeeded, D.TaskPuts, D.Todo, D.Needed, D.Run, D.Lists, DestsAre, AttemptsSent;
    Q.SucceededExecutedAll(tasks, jobs, s.queue);
    var j := w.jobs[repo];
    forall p
      ensures p in Of(s.log, repo) <==> p in D.AllPuts(j.source, j.want, j.have)
    {
      if p in Of(s.log, repo) {
        var t :| t in tasks && t.repo == repo && p in Puts(w, t);
        assert t.digest in D.Need(j.want, j.have);
      }
      if p in D.AllPuts(j.source, j.want, j.have) {
        var d :| d in j.want && D.Needed(j.want, j.have, d) && p in D.TaskPuts(j.source, j.want, j.have, d);
        var t := Q.Task(repo, d);
        assert d in D.Need(j.want, j.have) && t in tasks;
        assert multiset(tasks)[t] > 0;
        assert AllSent(w, s.log, t, |Puts(w, t)|);
      }
    }
  }

  /** When recursiveCopy returns nil, in any interleaving and with any retries, the target of every
      repository has every wanted digest and every wanted tag on its digest, nothing else has changed
      there or anywhere, and a second difference is empty. */
  lemma NilMeansSynced(run: seq<Sync>, w: Walk, tasks: seq<Q.Task>, jobs: nat, n: nat, repo: string, again: D.Listing)
    requires w.Valid() && QueuesTheDifferences(w, tasks) && jobs > 0 && repo in w.jobs
    requires IsRun(run, w, tasks, jobs) && n < |run| && Q.Succeeded(run[n].queue)
    ensures var j := w.jobs[repo];
            var was, now := At(w.before, j.target), At(run[n].dests, j.target);
            && now == D.Repo(was.digests + j.source.digests, was.tags + j.source.tags)
            && (D.Lists(again, now) ==> D.Need(j.want, again) == map[])
  {
    var j := w.jobs[repo];
    var was, now := At(w.before, j.target), At(run[n].dests, j.target);
    var steps := Of(run[n].log, repo);
    RunInvariant(run, w, tasks, jobs, n);
    SuccessCompletes(w, tasks, jobs, run[n], repo);
    assert now == D.Run(was, steps);
    hide *;
    D.SyncReachesSource(j.source, was, j.want, j.have, steps);
    if D.Lists(again, now) {
      D.SecondDiffIsEmpty(j.source, was, j.want, j.have, steps, again);
    }
  }

  /** In every state of every run, failed ones included, no tag or digest has been written that
      was not to be copied, and no repository that is not a target has changed. */
  lemma OnlyTheDifferencesAreWritten(run: seq<Sync>, w: Walk, tasks: seq<Q.Task>, jobs: nat, n: nat, name: string)
    requires w.Valid() && QueuesTheDifferences(w, tasks)
    requires IsRun(run, w, tasks, jobs) && n < |run|
    ensures (forall r :: r in w.jobs ==> w.jobs[r].target != name) ==> At(run[n].dests, name) == At(w.before, name)
    ensures forall r :: r in w.jobs && w.jobs[r].target == name ==>
              && At(run[n].dests, name) == D.Run(At(w.before, name), Of(run[n].log, r))
              && forall p :: p in Of(run[n].log, r) ==> p in D.AllPuts(w.jobs[r].source, w.jobs[r].want, w.jobs[r].have)
  {
    RunInvariant(run, w, tasks, jobs, n);
    hide D.TaskPuts, D.Todo, D.Needed, D.Run, Q.Invariant;
    forall r, p | r in w.jobs && p in Of(run[n].log, r)
      ensures p in D.AllPuts(w.jobs[r].source, w.jobs[r].want, w.jobs[r].have)
    {
      var t :| t in tasks && t.repo == r && p in Puts(w, t);
      assert t.digest in D.Need(w.jobs[r].want, w.jobs[r].have);
    }
  }

  // ---------------------------------------------------------------- when nothing fails

  /** A put that succeeds, or a good step of the queue. */
  ghost predicate GoodStep(w: Walk, jobs: nat, s: Sync, s': Sync)
    requires w.Valid()
  {
    || (exists i: nat :: SendStep(w, s, s', i) && s'.log != s.log && s'.progress[i] == s.progress[i] + 1)
    || (exists i: nat :: WorkerStep(w, s, s', i) && i < |s'.queue.workers| && s'.queue.workers[i] != Q.Returned(false))
    || (Q.WalkerStep(jobs, s.queue, s'.queue) && s' == s.(queue := s'.queue))
  }

  lemma GoodStepsStayFine(w: Walk, jobs: nat, s: Sync, s': Sync)
    requires w.Valid() && Q.Fine(s.queue) && GoodStep(w, jobs, s, s')
    ensures Q.Fine(s'.queue) && Step(w, jobs, s, s')
  {
    hide Walk.Valid, Puts, Q.Fine, Q.WorkerStep, Q.WalkerStep, Q.Misfortune, Effect;
    if i: nat :| SendStep(w, s, s', i) && s'.log != s.log && s'.progress[i] == s.progress[i] + 1 {
      SendsOnly(w, s, s', i);
    } else if i: nat :| WorkerStep(w, s, s', i) && i < |s'.queue.workers| && s'.queue.workers[i] != Q.Returned(false) {
      Q.GoodStepsStayFine(jobs, s.queue, s'.queue);
    } else {
      Q.GoodStepsStayFine(jobs, s.queue, s'.queue);
    }
  }

  lemma SendsOnly(w: Walk, s: Sync, s': Sync, i: nat)
    requires w.Valid() && SendStep(w, s, s', i)
    ensures s'.queue == s.queue
  {
    hide Walk.Valid, Puts;
  }

  /** With at least one worker and nothing gone wrong, there is a good step until all has returned. */
  lemma GoodStepExists(w: Walk, tasks: seq<Q.Task>, jobs: nat, s: Sync) returns (s': Sync)
    requires w.Valid() && jobs > 0 && Invariant(w, tasks, jobs, s) && Q.Fine(s.queue) && !Q.Finished(s.queue)
    ensures GoodStep(w, jobs, s, s')
  {
    hide Walk.Valid, Puts, Q.Invariant, Q.WalkerStep, Q.Fine, Q.Finished, DestsAre, LogJustified, EndedSent, QueueKnown;
    var q' := Q.GoodStepExists(tasks, jobs, s.queue);
    if Q.WalkerStep(jobs, s.queue, q') {
      s' := s.(queue := q');
    } else {
      var i: nat :| Q.WorkerStep(s.queue, q', i) && q'.workers[i] != Q.Returned(false);
      s' := s.(queue := q', progress := s.progress[i := 0]);
      if s.queue.workers[i].Copying? {
        var t, n := s.queue.workers[i].task, s.progress[i];
        assert AllSent(w, s.log, t, n);
        if n < |Puts(w, t)| {
          s' := Effect(w, s, t.repo, Puts(w, t)[n]).(progress := s.progress[i := n + 1]);
          LogHasGrown(s.log, t.repo, Puts(w, t)[n]);
          assert SendStep(w, s, s', i);
        } else {
          assert WorkerStep(w, s, s', i);
        }
      } else {
        assert WorkerStep(w, s, s', i);
      }
    }
  }

  lemma LogHasGrown(log: Log, repo: string, p: D.Put)
    ensures More(log, repo, p) != log
  {
    assert |Of(More(log, repo, p), repo)| == |Of(log, repo)| + 1;
  }

  /** When no request fails and nothing else goes wrong, a run with at least one worker goes on until
      recursiveCopy returns nil; NilMeansSynced says what has been reached then. */
  lemma {:induction false} GoodRunsSucceed(run: seq<Sync>, w: Walk, tasks: seq<Q.Task>, jobs: nat, n: nat)
    requires w.Valid() && jobs > 0 && run != [] && run[0] == Start(w, tasks, jobs) && n < |run|
    requires forall k :: 0 <= k < |run| - 1 ==> GoodStep(w, jobs, run[k], run[k + 1])
    ensures Q.Fine(run[n].queue) && Invariant(w, tasks, jobs, run[n])
    ensures (forall s' :: !GoodStep(w, jobs, run[n], s')) ==> Q.Succeeded(run[n].queue)
  {
    hide Walk.Valid, GoodStep, Step, Invariant;
    if n == 0 {
      StartInvariant(w, tasks, jobs);
    } else {
      GoodRunsSucceed(run, w, tasks, jobs, n - 1);
      GoodStepsStayFine(w, jobs, run[n - 1], run[n]);
      StepKeeps(w, tasks, jobs, run[n - 1], run[n]);
    }
    if Q.Finished(run[n].queue) {
      Q.FineAndFinished(run[n].queue);
    } else {
      var s' := GoodStepExists(w, tasks, jobs, run[n]);
    }
  }
}
