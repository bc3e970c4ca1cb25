/** Any number of Write, WriteIndex and MultiWrite calls of pkg/v1/remote at work on one in-memory
    registry of pkg/registry, in any repositories and in any interleaving.  Nothing is assumed of the
    other clients: they are such calls, too. */
module SharedServer {
  import opened ServedPush
  import B = BlobStore
  import M = ManifestStore
  import P = PushServer
  import R = RegistryRefinement
  import W = WriteProtocol
  import MP = MultiWritePlan
  import MW = MultiWriteProtocol

  /** What MultiWrite has collected from its request. */
  datatype Plan = Plan(request: MP.Request, blobs: set<P.Digest>, levels: MP.Levels, images: MP.Request, indexes: MP.Request)
  {
    function Stages(): MW.Stages { MW.StagesOf(blobs, levels, images, indexes) }
  }

  /** One call: what it was called with and how far it has come. */
  datatype Client =
    | Writing(repo: string, ref: P.Ref, root: P.Content, streamed: set<P.Digest>, push: W.Push)
    | MultiWriting(repo: string, plan: Plan, jobs: nat, system: MW.System)

  datatype Net = Net(server: Server, clients: seq<Client>)

  /** A call that makes sense: a manifest that is addressed by a digest has that digest. */
  ghost predicate Sensible(c: Client) {
    match c
    case Writing(_, ref, root, _, _) =>
      (root.ImageManifest? || root.IndexManifest?) && W.RefFits(ref, root) && R.Proper(ref)
    case MultiWriting(_, plan, jobs, _) =>
      && jobs > 0 && MP.Collected(plan.request, plan.blobs, plan.levels, plan.images, plan.indexes)
      && MW.Sensible(plan.request) && forall ref :: ref in plan.request ==> R.Proper(ref)
  }

  ghost predicate AtStart(c: Client) {
    && Sensible(c)
    && match c
       case Writing(_, ref, root, streamed, push) => push == W.StartPush(ref, root, streamed)
       case MultiWriting(_, plan, jobs, system) => system == MW.StartStage(system.registry, plan.Stages(), 0, jobs)
  }

  ghost predicate ClientStep(w: R.Wire, srv: Server, c: Client, srv': Server, c': Client) {
    match c
    case Writing(repo, _, _, streamed, push) =>
      c'.Writing? && c' == c.(push := c'.push) && ServedPushStep(w, repo, srv, push, srv', c'.push, streamed)
    case MultiWriting(repo, plan, jobs, system) =>
      && c'.MultiWriting? && c' == c.(system := c'.system)
      && ServedSystemStep(w, repo, plan.Stages(), jobs, Multi(srv, system), Multi(srv', c'.system))
  }

  /** One of the clients moves. */
  ghost predicate Step(w: R.Wire, s: Net, s': Net) {
    exists i, c' :: 0 <= i < |s.clients| && ClientStep(w, s.server, s.clients[i], s'.server, c')
                    && s'.clients == s.clients[i := c']
  }

  /** A run of calls that find the server as `run[0]` has it. */
  ghost predicate IsRun(w: R.Wire, run: seq<Net>) {
    && run != []
    && (forall c :: c in run[0].clients ==> AtStart(c))
    && forall n :: 0 <= n < |run| - 1 ==> Step(w, run[n], run[n + 1])
  }

  // ---------------------------------------------------------------- the ideal registries

  /** One ideal registry for each repository; they share their blobs. */
  datatype Ideals = Ideals(blobs: set<P.Digest>, uploads: map<nat, P.Content>, manifests: map<string, map<P.Ref, P.Content>>)

  function In(ideals: Ideals, repo: string): P.Registry {
    P.Registry(ideals.blobs, ideals.uploads, if repo in ideals.manifests then ideals.manifests[repo] else map[])
  }

  function Updated(ideals: Ideals, repo: string, r: P.Registry): Ideals {
    Ideals(r.blobs, r.uploads, ideals.manifests[repo := r.manifests])
  }

  /** The server holds these registries, and whatever a manifest refers to is there. */
  ghost predicate HoldsAll(w: R.Wire, srv: Server, ideals: Ideals) {
    forall repo :: Holds(w, repo, srv, In(ideals, repo)) && P.Closed(In(ideals, repo))
  }

  // ---------------------------------------------------------------- other repositories

  ghost predicate OnlyIn(repo: string, srv: Server, srv': Server) {
    forall other :: other != repo ==> M.Entries(srv'.manifests, other) == M.Entries(srv.manifests, other)
  }

  lemma StaysInRepo(w: R.Wire, srv: Server, c: Client, srv': Server, c': Client)
    requires ClientStep(w, srv, c, srv', c')
    ensures OnlyIn(c.repo, srv, srv')
  {
    hide B.Handle, M.Acceptable, W.ChildAction, HasManifest, MW.StagesOf;
  }

  /** The blobs are those of the whole server, the manifests those of the repository. */
  lemma HeldAcross(w: R.Wire, repo: string, other: string, srv: Server, srv': Server, r: P.Registry, r': P.Registry)
    requires Holds(w, other, srv, r) && Holds(w, repo, srv', r')
    requires M.Entries(srv'.manifests, other) == M.Entries(srv.manifests, other)
    ensures Holds(w, other, srv', P.Registry(r'.blobs, r'.uploads, r.manifests))
  {
  }

  /** A step in one repository, seen from all of them. */
  lemma OthersHold(w: R.Wire, repo: string, srv: Server, srv': Server, ideals: Ideals, r': P.Registry)
    requires HoldsAll(w, srv, ideals) && OnlyIn(repo, srv, srv')
    requires Holds(w, repo, srv', r') && P.Evolves(In(ideals, repo), r')
    ensures HoldsAll(w, srv', Updated(ideals, repo, r'))
    ensures forall other :: P.Evolves(In(ideals, other), In(Updated(ideals, repo, r'), other))
    ensures In(Updated(ideals, repo, r'), repo) == r'
  {
    assert In(ideals, repo).blobs <= r'.blobs && P.Closed(r') by {
      assert P.Closed(In(ideals, repo));
    }
    hide Holds, P.Closed, P.Evolves;
    var ideals' := Updated(ideals, repo, r');
    assert In(ideals', repo) == r';
    forall other
      ensures Holds(w, other, srv', In(ideals', other)) && P.Closed(In(ideals', other))
      ensures P.Evolves(In(ideals, other), In(ideals', other))
    {
      assert Holds(w, other, srv, In(ideals, other));
      if other != repo {
        HeldAcross(w, repo, other, srv, srv', In(ideals, other), r');
        MoreBlobs(In(ideals, other), In(ideals', other));
      }
    }
  }

  lemma MoreBlobs(r: P.Registry, r': P.Registry)
    requires P.Closed(r) && r'.manifests == r.manifests && r.blobs <= r'.blobs
    ensures P.Closed(r') && P.Evolves(r, r')
  {
    forall ref | ref in r'.manifests
      ensures P.Satisfied(r', r'.manifests[ref])
    {
      assert P.Satisfied(r, r.manifests[ref]);
    }
  }

  // ---------------------------------------------------------------- the invariant

  ghost predicate Fits(r: P.Registry, c: Client) {
    && Sensible(c)
    && match c
       case Writing(_, _, root, _, push) => ProperPush(push) && W.PushInvariant(r, push, root)
       case MultiWriting(_, plan, jobs, system) => MW.Invariant(plan.Stages(), jobs, system.(registry := r))
  }

  ghost predicate AllFit(ideals: Ideals, clients: seq<Client>) {
    forall c :: c in clients ==> Fits(In(ideals, c.repo), c)
  }

  lemma StartFits(r: P.Registry, c: Client)
    requires AtStart(c)
    ensures Fits(r, c)
  {
    match c
    case Writing(_, ref, root, streamed, _) =>
      if root.ImageManifest? {
        W.StartWriteInvariant(r, ref, root, streamed);
      }
    case MultiWriting(_, plan, jobs, _) =>
      MW.StartStageInvariant(r, plan.Stages(), 0, jobs);
  }

  lemma StillFits(r: P.Registry, r': P.Registry, c: Client)
    requires Fits(r, c) && P.Evolves(r, r')
    ensures Fits(r', c)
  {
    match c
    case Writing(_, _, root, _, push) => W.PushInvariantSurvives(r, r', push, root);
    case MultiWriting(_, plan, jobs, system) =>
      MW.InvariantSurvives(plan.Stages(), jobs, system.(registry := r), r');
  }

  lemma ClientKeeps(w: R.Wire, srv: Server, r: P.Registry, c: Client, srv': Server, c': Client) returns (r': P.Registry)
    requires R.Faithful(w) && Holds(w, c.repo, srv, r) && Fits(r, c) && ClientStep(w, srv, c, srv', c')
    ensures Holds(w, c.repo, srv', r') && P.Evolves(r, r') && Fits(r', c') && c'.repo == c.repo
  {
    hide R.Faithful, Holds, ServedPushStep, W.PushStep, P.Evolves, W.PushInvariant, ProperPush, ServedSystemStep, MW.SystemStep,
      MW.Invariant, MW.Ordered, ProperJobs, MP.Collected, MW.StagesOf;
    match c
    case Writing(repo, _, root, streamed, push) =>
      r' := PushStepIsServed(w, repo, srv, r, push, srv', c'.push, streamed);
      StaysProper(r, push, r', c'.push, streamed);
      W.PushStepKeeps(r, push, r', c'.push, root, streamed);
    case MultiWriting(repo, plan, jobs, system) =>
      var s, s' := Multi(srv, system), Multi(srv', c'.system);
      MW.StagesAreOrdered(plan.request, plan.blobs, plan.levels, plan.images, plan.indexes);
      RequestJobsAreProper(plan.request, plan.blobs, plan.levels, plan.images, plan.indexes);
      r' := SystemStepIsServed(w, repo, plan.Stages(), jobs, s, r, s');
      MW.SystemStepKeeps(plan.Stages(), jobs, Ideal(s, r), Ideal(s', r'));
  }

  lemma {:induction false} RunInvariant(w: R.Wire, run: seq<Net>, first: Ideals, n: nat) returns (ideals: Ideals)
    requires n < |run| && R.Faithful(w) && IsRun(w, run) && HoldsAll(w, run[0].server, first)
    ensures HoldsAll(w, run[n].server, ideals) && AllFit(ideals, run[n].clients)
  {
    hide R.Faithful, Holds, P.Closed, P.Evolves, ClientStep, Fits, AtStart, OnlyIn, In, Updated;
    if n == 0 {
      ideals := first;
      forall c | c in run[0].clients
        ensures Fits(In(first, c.repo), c)
      {
        StartFits(In(first, c.repo), c);
      }
    } else {
      var before := RunInvariant(w, run, first, n - 1);
      var s, s' := run[n - 1], run[n];
      assert Step(w, s, s');
      var i, c' :| 0 <= i < |s.clients| && ClientStep(w, s.server, s.clients[i], s'.server, c')
                   && s'.clients == s.clients[i := c'];
      var c := s.clients[i];
      assert Holds(w, c.repo, s.server, In(before, c.repo));
      var r' := ClientKeeps(w, s.server, In(before, c.repo), c, s'.server, c');
      StaysInRepo(w, s.server, c, s'.server, c');
      OthersHold(w, c.repo, s.server, s'.server, before, r');
      ideals := Updated(before, c.repo, r');
      forall x | x in s'.clients
        ensures Fits(In(ideals, x.repo), x)
      {
        if x != c' {
          assert x in s.clients;
          StillFits(In(before, x.repo), In(ideals, x.repo), x);
        }
      }
    }
  }

  // ---------------------------------------------------------------- what the calls achieve

  /** What a call that has returned nil promises. */
  ghost predicate Delivered(w: R.Wire, srv: Server, c: Client) {
    match c
    case Writing(repo, _, root, _, push) => push.Pushed? ==> Serves(w, repo, srv, root)
    case MultiWriting(repo, plan, _, system) =>
      system.outcome == MW.Succeeded ==> forall ref :: ref in plan.request ==> Serves(w, repo, srv, plan.request[ref])
  }

  /** At any time after a call has returned nil, whatever the other calls have done and do, pulling
      what it pushed by digest gives the whole tree as it was pushed. */
  lemma EveryPushIsServed(w: R.Wire, run: seq<Net>, first: Ideals, n: nat)
    requires n < |run| && R.Faithful(w) && IsRun(w, run) && HoldsAll(w, run[0].server, first)
    ensures forall c :: c in run[n].clients ==> Delivered(w, run[n].server, c)
  {
    hide R.Faithful, IsRun, P.Closed, Serves, P.TreePresent, Holds;
    var ideals := RunInvariant(w, run, first, n);
    var srv := run[n].server;
    forall c | c in run[n].clients
      ensures Delivered(w, srv, c)
    {
      var r := In(ideals, c.repo);
      assert Holds(w, c.repo, srv, r) && P.Closed(r) && Fits(r, c);
      hide HoldsAll, AllFit, In;
      match c
      case Writing(repo, _, root, _, push) =>
        if push.Pushed? {
          P.RootMeansTree(r, root);
          PresentIsServed(w, repo, srv, r, root);
        }
      case MultiWriting(repo, plan, jobs, system) =>
        if system.outcome == MW.Succeeded {
          forall ref | ref in plan.request
            ensures Serves(w, repo, srv, plan.request[ref])
          {
            MW.RootIsCommitted(plan.request, plan.blobs, plan.levels, plan.images, plan.indexes, system.(registry := r), ref);
            P.RootMeansTree(r, plan.request[ref]);
            PresentIsServed(w, repo, srv, r, plan.request[ref]);
          }
        }
    }
  }

  /** At any time, even between the requests of unfinished and failed calls, a manifest that the server
      has under its digest can be pulled with all that is below it. */
  lemma NothingIsServedInPart(w: R.Wire, run: seq<Net>, first: Ideals, n: nat, repo: string, m: P.Content)
    requires n < |run| && R.Faithful(w) && IsRun(w, run) && HoldsAll(w, run[0].server, first)
    ensures HasManifest(w, repo, run[n].server, P.Sha256(m)) <==> Serves(w, repo, run[n].server, m)
  {
    var ideals := RunInvariant(w, run, first, n);
    var r := In(ideals, repo);
    assert Holds(w, repo, run[n].server, r) && P.Closed(r);
    HasManifestWhenHeld(w, repo, run[n].server, r, P.Sha256(m));
    P.RootMeansTree(r, m);
    if HasManifest(w, repo, run[n].server, P.Sha256(m)) {
      hide *;
      PresentIsServed(w, repo, run[n].server, r, m);
    }
  }

  /** On a server that has just been started: nothing is assumed of it. */
  lemma FreshServerServesEveryPush(w: R.Wire, run: seq<Net>, n: nat)
    requires n < |run| && R.Faithful(w) && IsRun(w, run) && run[0].server == Server(B.EMPTY, map[])
    ensures forall c :: c in run[n].clients ==> Delivered(w, run[n].server, c)
  {
    var first := Ideals({}, map[], map[]);
    forall repo
      ensures Holds(w, repo, run[0].server, In(first, repo)) && P.Closed(In(first, repo))
    {
      EmptyServer(w, repo);
    }
    hide R.Faithful, IsRun, Delivered, Holds, P.Closed;
    EveryPushIsServed(w, run, first, n);
  }
}
