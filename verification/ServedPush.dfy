/** The push protocols of pkg/v1/remote with the handlers of pkg/registry as their server: every
    run is a run against the ideal registry, so that what was pushed can be pulled. */
module ServedPush {
  import opened Common
  import B = BlobStore
  import M = ManifestStore
  import P = PushServer
  import R = RegistryRefinement
  import W = WriteProtocol
  import MP = MultiWritePlan
  import MW = MultiWriteProtocol

  /** The in-memory registry. */
  datatype Server = Server(blobs: B.Store, manifests: M.Repos)

  ghost predicate Holds(w: R.Wire, repo: string, srv: Server, r: P.Registry) {
    && R.HoldsBlobs(w, srv.blobs, r)
    && R.HoldsManifests(w, M.Entries(srv.manifests, repo), r)
    && B.ContentAddressed(w.codec.hash, srv.blobs)
  }

  // ---------------------------------------------------------------- requests

  function ServeBlob(w: R.Wire, repo: string, srv: Server, u: P.Upload): (B.Response, Server)
    requires !u.Uploaded? && !u.UploadFailed?
  {
    var (reply, blobs) := B.Handle(w.codec.hash, srv.blobs, R.RequestOf(w, repo, u));
    (reply, srv.(blobs := blobs))
  }

  /** After a request of the upload has failed: a check is not repeated, an attempt may be. */
  predicate GivesUpOrRetries(u: P.Upload, u': P.Upload)
    requires !u.Uploaded? && !u.UploadFailed?
  {
    if u.Check? then u' == P.UploadFailed(u.blob) else P.Retries(u', u.blob, u.tries)
  }

  /** One request of an upload: it is answered, or it fails before or after it was served.  A new
      upload gets a new name. */
  ghost predicate ServedUpload(w: R.Wire, repo: string, srv: Server, u: P.Upload, srv': Server, u': P.Upload) {
    && !u.Uploaded? && !u.UploadFailed?
    && (|| (&& srv' == ServeBlob(w, repo, srv, u).1
            && exists id: nat :: w.uploadID(id) !in srv.blobs.uploads && u' == R.NextUpload(u, ServeBlob(w, repo, srv, u).0, id))
        || (srv' == ServeBlob(w, repo, srv, u).1 && GivesUpOrRetries(u, u'))
        || (srv' == srv && GivesUpOrRetries(u, u')))
  }

  /** Any request may be lost, before it reaches the server or after it was served. */
  lemma AnyRequestMayBeLost(w: R.Wire, repo: string, srv: Server, u: P.Upload, ref: P.Ref, m: P.Content)
    requires !u.Uploaded? && !u.UploadFailed?
    ensures ServedUpload(w, repo, srv, u, srv, P.UploadFailed(u.blob))
    ensures ServedUpload(w, repo, srv, u, ServeBlob(w, repo, srv, u).1, P.UploadFailed(u.blob))
    ensures ServedCommit(w, repo, srv, ref, m, srv, false)
    ensures ServedCommit(w, repo, srv, ref, m,
                         srv.(manifests := M.Handle(w.codec, srv.manifests, R.CommitRequest(w, repo, ref, m)).1), false)
  {
    hide ServeBlob, M.Handle;
  }

  lemma ServedKeepsAddresses(hash: Bytes -> string, s: B.Store, q: B.Request)
    requires B.ContentAddressed(hash, s)
    ensures B.ContentAddressed(hash, B.Handle(hash, s, q).1)
  {
  }

  lemma UploadIsServed(w: R.Wire, repo: string, srv: Server, r: P.Registry, u: P.Upload, srv': Server, u': P.Upload)
    returns (r': P.Registry)
    requires R.Faithful(w) && Holds(w, repo, srv, r) && ServedUpload(w, repo, srv, u, srv', u')
    ensures P.UploadStep(r, u, r', u') && Holds(w, repo, srv', r')
  {
    hide R.Faithful, R.HoldsManifests, B.Handle, B.ContentAddressed;
    var (reply, served) := ServeBlob(w, repo, srv, u);
    ServedKeepsAddresses(w.codec.hash, srv.blobs, R.RequestOf(w, repo, u));
    ManifestsUntouched(w, srv, repo, r, u, reply);
    r' := R.NextRegistry(r, u, reply);
    if id: nat :| srv' == served && w.uploadID(id) !in srv.blobs.uploads && u' == R.NextUpload(u, reply, id) {
      assert id !in r.uploads;
      R.UploadRefines(w, srv.blobs, r, repo, u, id);
      hide R.HoldsBlobs, P.UploadStep;
    } else if srv' != served {
      r' := r;
    } else if u.Initiate? {
      R.InitiateChangesNothing(w, srv.blobs, repo, u);
    } else {
      R.UploadRefines(w, srv.blobs, r, repo, u, 0);
      hide R.HoldsBlobs;
    }
  }

  lemma ManifestsUntouched(w: R.Wire, srv: Server, repo: string, r: P.Registry, u: P.Upload, reply: B.Response)
    requires R.HoldsManifests(w, M.Entries(srv.manifests, repo), r)
    ensures R.HoldsManifests(w, M.Entries(srv.manifests, repo), R.NextRegistry(r, u, reply))
  {
  }

  /** The PUT of a manifest: `ok` is what the client learns. */
  ghost predicate ServedCommit(w: R.Wire, repo: string, srv: Server, ref: P.Ref, m: P.Content, srv': Server, ok: bool) {
    var (reply, manifests) := M.Handle(w.codec, srv.manifests, R.CommitRequest(w, repo, ref, m));
    || (srv' == srv.(manifests := manifests) && (ok ==> reply.Stored?))
    || (srv' == srv && !ok)
  }

  lemma CommitIsServed(w: R.Wire, repo: string, srv: Server, r: P.Registry, ref: P.Ref, m: P.Content, srv': Server, ok: bool)
    returns (r': P.Registry)
    requires R.Faithful(w) && Holds(w, repo, srv, r) && R.Proper(ref)
    requires ServedCommit(w, repo, srv, ref, m, srv', ok)
    ensures r' in {r, P.Put(r, ref, m)} && (ok ==> r' == P.Put(r, ref, m)) && Holds(w, repo, srv', r')
  {
    R.CommitManifestRefines(w, srv.manifests, repo, r, ref, m);
    assert R.HoldsBlobs(w, srv.blobs, P.Put(r, ref, m));
    hide M.Handle, R.HoldsBlobs, R.HoldsManifests, B.ContentAddressed, R.Taken;
    r' := if srv' == srv || !R.Taken(r, m) then r else P.Put(r, ref, m);
    if srv' == srv && ok {
      r' := if R.Taken(r, m) then P.Put(r, ref, m) else r;
    }
  }

  // ---------------------------------------------------------------- Write and WriteIndex

  ghost predicate ServedWriteStep(w: R.Wire, repo: string, srv: Server, p: W.Write, srv': Server, o: W.Outcome) {
    || (exists i, u' :: 0 <= i < |p.group| && ServedUpload(w, repo, srv, p.group[i], srv', u')
                        && o == W.Continues(p.(group := p.group[i := u'])))
    || (&& !p.configStarted && p.image.ImageManifest? && srv' == srv
        && o == W.Continues(p.(group := p.group + [P.Check(p.image.config)], configStarted := true)))
    || (W.AllStopped(p.group) && !W.AllUploaded(p.group) && srv' == srv && o == W.WriteFailed)
    || (&& W.AllUploaded(p.group) && p.configStarted
        && exists ok :: ServedCommit(w, repo, srv, p.ref, p.image, srv', ok) && o == if ok then W.Written else W.WriteFailed)
  }

  /** Whether the server answers a HEAD of a manifest by digest with the manifest. */
  predicate HasManifest(w: R.Wire, repo: string, srv: Server, d: P.Digest) {
    M.Handle(w.codec, srv.manifests, M.Request(M.HEAD, repo, R.Digest(w, d), "", [])).0.Header?
  }

  lemma HasManifestWhenHeld(w: R.Wire, repo: string, srv: Server, r: P.Registry, d: P.Digest)
    requires Holds(w, repo, srv, r)
    ensures HasManifest(w, repo, srv, d) <==> P.ByDigest(d) in r.manifests
  {
    assert R.Proper(P.ByDigest(d)) && R.Key(w, P.ByDigest(d)) == R.Digest(w, d);
  }

  ghost predicate ServedPushStep(w: R.Wire, repo: string, srv: Server, p: W.Push, srv': Server, p': W.Push, streamed: set<P.Digest>) {
    && p.Pushing?
    && if p.writing.For? then
         exists o :: ServedWriteStep(w, repo, srv, p.writing.write, srv', o) &&
           match o
           case Continues(x) => p' == W.Pushing(p.frames, W.For(x))
           case Written => p' == W.Return(p.frames)
           case WriteFailed => p' == W.PushFailed
       else
         && p.frames != []
         && var f := p.frames[|p.frames| - 1];
            f.index.IndexManifest? &&
            if f.next < |f.index.manifests| then
              && srv' == srv
              && var desc := f.index.manifests[f.next];
                 p' in {W.PushFailed, W.ChildAction(HasManifest(w, repo, srv, desc.digest), p.frames, desc, streamed)}
            else
              exists ok :: ServedCommit(w, repo, srv, f.ref, f.index, srv', ok)
                && p' == if ok then W.Return(p.frames[..|p.frames| - 1]) else W.PushFailed
  }

  /** Every manifest of the push goes to a proper tag or to a digest. */
  ghost predicate ProperPush(p: W.Push) {
    p.Pushing? ==>
      && (forall f :: f in p.frames ==> R.Proper(f.ref))
      && (p.writing.For? ==> R.Proper(p.writing.write.ref))
  }

  lemma StaysProper(r: P.Registry, p: W.Push, r': P.Registry, p': W.Push, streamed: set<P.Digest>)
    requires ProperPush(p) && W.PushStep(r, p, r', p', streamed)
    ensures ProperPush(p')
  {
    hide P.Put, P.UploadStep, W.LayerUploads;
    if p.frames != [] {
      assert p.frames[|p.frames| - 1] in p.frames;
    }
  }

  lemma PushStepIsServed(w: R.Wire, repo: string, srv: Server, r: P.Registry, p: W.Push, srv': Server, p': W.Push,
                         streamed: set<P.Digest>) returns (r': P.Registry)
    requires R.Faithful(w) && Holds(w, repo, srv, r) && ProperPush(p)
    requires ServedPushStep(w, repo, srv, p, srv', p', streamed)
    ensures W.PushStep(r, p, r', p', streamed) && Holds(w, repo, srv', r')
  {
    hide R.Faithful, Holds, ServedUpload, ServedCommit, P.UploadStep, P.Put, W.ChildAction, HasManifest;
    r' := r;
    if p.writing.For? {
      var x := p.writing.write;
      var o :| ServedWriteStep(w, repo, srv, x, srv', o) &&
               match o
               case Continues(y) => p' == W.Pushing(p.frames, W.For(y))
               case Written => p' == W.Return(p.frames)
               case WriteFailed => p' == W.PushFailed;
      if i, u' :| 0 <= i < |x.group| && ServedUpload(w, repo, srv, x.group[i], srv', u')
                  && o == W.Continues(x.(group := x.group[i := u'])) {
        r' := UploadIsServed(w, repo, srv, r, x.group[i], srv', u');
      } else if ok :| W.AllUploaded(x.group) && x.configStarted && ServedCommit(w, repo, srv, x.ref, x.image, srv', ok)
                      && o == if ok then W.Written else W.WriteFailed {
        r' := CommitIsServed(w, repo, srv, r, x.ref, x.image, srv', ok);
      }
      assert W.WriteStep(r, x, r', o);
    } else {
      var f := p.frames[|p.frames| - 1];
      if f.next < |f.index.manifests| {
        HasManifestWhenHeld(w, repo, srv, r, f.index.manifests[f.next].digest);
      } else {
        var ok :| ServedCommit(w, repo, srv, f.ref, f.index, srv', ok)
                  && p' == if ok then W.Return(p.frames[..|p.frames| - 1]) else W.PushFailed;
        r' := CommitIsServed(w, repo, srv, r, f.ref, f.index, srv', ok);
      }
    }
  }

  // ---------------------------------------------------------------- runs

  datatype State = State(server: Server, push: W.Push)

  /** What other clients do is, on whatever ideal registry the server holds, an evolution. */
  ghost predicate OthersMove(w: R.Wire, repo: string, srv: Server, srv': Server) {
    forall r :: Holds(w, repo, srv, r) ==> exists r' :: Holds(w, repo, srv', r') && P.Evolves(r, r')
  }

  ghost predicate Step(w: R.Wire, repo: string, s: State, s': State, streamed: set<P.Digest>) {
    || ServedPushStep(w, repo, s.server, s.push, s'.server, s'.push, streamed)
    || (OthersMove(w, repo, s.server, s'.server) && s'.push == s.push)
  }

  ghost predicate IsRun(w: R.Wire, repo: string, run: seq<State>, ref: P.Ref, root: P.Content, streamed: set<P.Digest>) {
    && run != []
    && (root.ImageManifest? || root.IndexManifest?)
    && W.RefFits(ref, root) && R.Proper(ref)
    && run[0].push == W.StartPush(ref, root, streamed)
    && forall i :: 0 <= i < |run| - 1 ==> Step(w, repo, run[i], run[i + 1], streamed)
  }

  /** Every run against the server is a run against the ideal registry. */
  lemma {:induction false} RunIsIdeal(w: R.Wire, repo: string, run: seq<State>, ref: P.Ref, root: P.Content,
                                      streamed: set<P.Digest>, r: P.Registry, n: nat) returns (ideal: seq<W.State>)
    requires R.Faithful(w) && IsRun(w, repo, run, ref, root, streamed) && n < |run|
    requires Holds(w, repo, run[0].server, r) && P.Closed(r)
    ensures W.IsRun(ideal, ref, root, streamed) && |ideal| == n + 1
    ensures ideal[n].push == run[n].push && ProperPush(run[n].push) && Holds(w, repo, run[n].server, ideal[n].registry)
  {
    hide R.Faithful, Holds, P.Closed, W.RefFits, ServedPushStep, W.PushStep, P.Evolves;
    if n == 0 {
      ideal := [W.State(r, run[0].push)];
    } else {
      ideal := RunIsIdeal(w, repo, run, ref, root, streamed, r, n - 1);
      var s, s' := run[n - 1], run[n];
      var r := ideal[n - 1].registry;
      assert Step(w, repo, s, s', streamed);
      var r';
      if ServedPushStep(w, repo, s.server, s.push, s'.server, s'.push, streamed) {
        r' := PushStepIsServed(w, repo, s.server, r, s.push, s'.server, s'.push, streamed);
        StaysProper(r, s.push, r', s'.push, streamed);
      } else {
        r' :| Holds(w, repo, s'.server, r') && P.Evolves(r, r');
      }
      assert W.Step(ideal[n - 1], W.State(r', s'.push), streamed);
      ideal := ideal + [W.State(r', s'.push)];
    }
  }

  // ---------------------------------------------------------------- pulling

  /** The server returns the manifest by its digest, the blobs it refers to, and the same for all
      its children: their bytes as they were pushed. */
  ghost predicate Serves(w: R.Wire, repo: string, srv: Server, m: P.Content)
    decreases m
  {
    && M.Handle(w.codec, srv.manifests, R.GetManifest(w, repo, P.IdOf(m))).0
       == M.Content(w.encode(m), R.Digest(w, P.Sha256(m)), w.contentType(m))
    && (forall d :: d in P.BlobsOf(m) ==>
          B.Handle(w.codec.hash, srv.blobs, R.GetBlob(w, repo, d)).0 == B.Content(w.encode(d.content), R.Digest(w, d)))
    && (m.IndexManifest? ==>
          forall d :: d in m.manifests && (d.mediaType.IsIndex() || d.mediaType.IsImage()) ==>
                        Serves(w, repo, srv, d.digest.content))
  }

  lemma {:induction false} PresentIsServed(w: R.Wire, repo: string, srv: Server, r: P.Registry, m: P.Content)
    requires R.Faithful(w) && Holds(w, repo, srv, r) && P.TreePresent(r, m)
    ensures Serves(w, repo, srv, m)
    decreases m
  {
    R.ManifestIsServed(w, srv.manifests, r, repo, P.IdOf(m));
    forall d | d in P.BlobsOf(m)
      ensures B.Handle(w.codec.hash, srv.blobs, R.GetBlob(w, repo, d)).0 == B.Content(w.encode(d.content), R.Digest(w, d))
    {
      R.BlobIsServed(w, srv.blobs, r, repo, d);
    }
    hide M.Handle, B.Handle, R.Faithful, Holds;
    if m.IndexManifest? {
      forall d | d in m.manifests && (d.mediaType.IsIndex() || d.mediaType.IsImage())
        ensures Serves(w, repo, srv, d.digest.content)
      {
        PresentIsServed(w, repo, srv, r, d.digest.content);
      }
    }
  }

  /** After a successful Write or WriteIndex against the in-memory registry, whatever other clients
      have done meanwhile, pulling the root by its digest gives the whole tree as it was pushed. */
  lemma PushedIsServed(w: R.Wire, repo: string, run: seq<State>, ref: P.Ref, root: P.Content, streamed: set<P.Digest>,
                       r: P.Registry, n: nat)
    requires R.Faithful(w) && IsRun(w, repo, run, ref, root, streamed) && n < |run|
    requires Holds(w, repo, run[0].server, r) && P.Closed(r)
    requires run[n].push.Pushed?
    ensures Serves(w, repo, run[n].server, root)
  {
    hide R.Faithful, Holds, P.Closed, IsRun, W.IsRun, Serves, P.TreePresent;
    var ideal := RunIsIdeal(w, repo, run, ref, root, streamed, r, n);
    W.PushKeepsIntegrity(ideal, ref, root, streamed, n);
    PresentIsServed(w, repo, run[n].server, ideal[n].registry, root);
  }

  /** An empty server holds an empty registry. */
  lemma EmptyServer(w: R.Wire, repo: string)
    ensures Holds(w, repo, Server(B.EMPTY, map[]), P.Registry({}, map[], map[]))
    ensures P.Closed(P.Registry({}, map[], map[]))
  {
  }

  // ---------------------------------------------------------------- MultiWrite

  /** MultiWrite's system against the server; the registry inside `system` is not looked at. */
  datatype Multi = Multi(server: Server, system: MW.System)

  ghost function Ideal(s: Multi, r: P.Registry): MW.System { s.system.(registry := r) }

  ghost predicate ServedWorkerStep(w: R.Wire, repo: string, srv: Server, s: MW.System, x: MW.Worker,
                                   srv': Server, queue': seq<MW.Job>, x': MW.Worker) {
    match x
    case Uploading(u) =>
      && queue' == s.queue
      && (if u.Uploaded? then srv' == srv && x' == MW.Idle
          else if u.UploadFailed? then srv' == srv && x' == MW.Exited(false)
          else x'.Uploading? && ServedUpload(w, repo, srv, u, srv', x'.upload))
    case Committing(ref, m) =>
      && queue' == s.queue
      && exists ok :: ServedCommit(w, repo, srv, ref, m, srv', ok) && x' == if ok then MW.Idle else MW.Exited(false)
    case _ => srv' == srv && MW.WorkerStep(s.registry, s.queue, s.todo, x, s.registry, queue', x')
  }

  ghost predicate ServedWorkerMoves(w: R.Wire, repo: string, s: Multi, s': Multi, i: nat, queue': seq<MW.Job>, x': MW.Worker) {
    && i < |s.system.workers|
    && ServedWorkerStep(w, repo, s.server, s.system, s.system.workers[i], s'.server, queue', x')
    && s'.system == s.system.(queue := queue', workers := s.system.workers[i := x'])
  }

  ghost predicate ServedSystemStep(w: R.Wire, repo: string, stages: MW.Stages, jobs: nat, s: Multi, s': Multi) {
    && s.system.outcome == MW.Running
    && (|| (s'.server == s.server && exists j :: MW.FeederMoves(jobs, s.system, s'.system, j))
        || (exists i, queue', x' :: ServedWorkerMoves(w, repo, s, s', i, queue', x'))
        || (s'.server == s.server && MW.StageEnds(stages, jobs, s.system, s'.system)))
  }

  ghost predicate MultiStep(w: R.Wire, repo: string, stages: MW.Stages, jobs: nat, s: Multi, s': Multi) {
    || ServedSystemStep(w, repo, stages, jobs, s, s')
    || (OthersMove(w, repo, s.server, s'.server) && s'.system == s.system)
  }

  ghost predicate IsMultiRun(w: R.Wire, repo: string, run: seq<Multi>, stages: MW.Stages, jobs: nat) {
    && run != [] && run[0].system == MW.StartStage(run[0].system.registry, stages, 0, jobs)
    && forall i :: 0 <= i < |run| - 1 ==> MultiStep(w, repo, stages, jobs, run[i], run[i + 1])
  }

  ghost predicate ProperJobs(stages: MW.Stages) {
    forall t, ref, m {:trigger MW.CommitManifest(ref, m) in stages[t]} ::
      0 <= t < |stages| && MW.CommitManifest(ref, m) in stages[t] ==> R.Proper(ref)
  }

  lemma SystemStepIsServed(w: R.Wire, repo: string, stages: MW.Stages, jobs: nat, s: Multi, r: P.Registry, s': Multi)
    returns (r': P.Registry)
    requires R.Faithful(w) && Holds(w, repo, s.server, r) && ProperJobs(stages)
    requires MW.Invariant(stages, jobs, Ideal(s, r)) && ServedSystemStep(w, repo, stages, jobs, s, s')
    ensures MW.SystemStep(stages, jobs, Ideal(s, r), Ideal(s', r')) && Holds(w, repo, s'.server, r')
  {
    hide R.Faithful, Holds, ServedUpload, ServedCommit, P.UploadStep, P.Put, MW.Accounted, MW.StagesDone;
    r' := r;
    if i: nat, queue', x' :| ServedWorkerMoves(w, repo, s, s', i, queue', x') {
      var x := s.system.workers[i];
      match x {
        case Uploading(u) =>
          if !u.Uploaded? && !u.UploadFailed? {
            r' := UploadIsServed(w, repo, s.server, r, u, s'.server, x'.upload);
          }
        case Committing(ref, m) =>
          assert MW.WorkerFits(Ideal(s, r), stages[s.system.stage], x) && MW.WorkingOn(x, MW.CommitManifest(ref, m));
          assert R.Proper(ref);
          var ok :| ServedCommit(w, repo, s.server, ref, m, s'.server, ok) && x' == if ok then MW.Idle else MW.Exited(false);
          r' := CommitIsServed(w, repo, s.server, r, ref, m, s'.server, ok);
        case _ =>
      }
      assert MW.WorkerMoves(Ideal(s, r), Ideal(s', r'), i, r', queue', x');
    } else if j :| s'.server == s.server && MW.FeederMoves(jobs, s.system, s'.system, j) {
      assert MW.FeederMoves(jobs, Ideal(s, r), Ideal(s', r), j);
    } else {
      assert MW.StageEnds(stages, jobs, Ideal(s, r), Ideal(s', r));
    }
  }

  /** Every run of MultiWrite against the server is a run against the ideal registry. */
  lemma {:induction false} MultiRunIsIdeal(w: R.Wire, repo: string, run: seq<Multi>, stages: MW.Stages, jobs: nat,
                                           r: P.Registry, n: nat) returns (ideal: seq<MW.System>)
    requires R.Faithful(w) && IsMultiRun(w, repo, run, stages, jobs) && n < |run|
    requires jobs > 0 && MW.Ordered(stages) && ProperJobs(stages)
    requires Holds(w, repo, run[0].server, r) && P.Closed(r)
    ensures MW.IsRun(ideal, stages, jobs) && |ideal| == n + 1
    ensures ideal[n] == Ideal(run[n], ideal[n].registry) && Holds(w, repo, run[n].server, ideal[n].registry)
  {
    hide R.Faithful, Holds, P.Closed, MW.Ordered, ProperJobs, ServedSystemStep, MW.SystemStep, P.Evolves;
    if n == 0 {
      ideal := [Ideal(run[0], r)];
    } else {
      ideal := MultiRunIsIdeal(w, repo, run, stages, jobs, r, n - 1);
      var s, s' := run[n - 1], run[n];
      var r := ideal[n - 1].registry;
      assert MultiStep(w, repo, stages, jobs, s, s');
      MW.RunInvariant(ideal, stages, jobs, n - 1);
      var r';
      if ServedSystemStep(w, repo, stages, jobs, s, s') {
        r' := SystemStepIsServed(w, repo, stages, jobs, s, r, s');
      } else {
        r' :| Holds(w, repo, s'.server, r') && P.Evolves(r, r');
      }
      assert MW.Step(stages, jobs, ideal[n - 1], Ideal(s', r'));
      ideal := ideal + [Ideal(s', r')];
    }
  }

  lemma RequestJobsAreProper(request: MP.Request, blobs: set<P.Digest>, levels: MP.Levels, images: MP.Request, indexes: MP.Request)
    requires MP.Collected(request, blobs, levels, images, indexes)
    requires forall ref :: ref in request ==> R.Proper(ref)
    ensures ProperJobs(MW.StagesOf(blobs, levels, images, indexes))
  {
    hide MP.PlanCovers;
    var stages := MW.StagesOf(blobs, levels, images, indexes);
    forall t, ref, m | 0 <= t < |stages| && MW.CommitManifest(ref, m) in stages[t]
      ensures R.Proper(ref)
    {
      if t == 1 {
        assert stages[t] == MW.CommitJobs(images);
      } else if t == |levels| + 2 {
        assert stages[t] == MW.CommitJobs(indexes);
      } else if t > 1 {
        assert stages[t] == MW.LevelJobs(levels[|levels| + 1 - t]);
      }
    }
  }

  /** After a successful MultiWrite with at least one worker against the in-memory registry, in any
      interleaving and whatever other clients have done meanwhile, pulling any requested manifest by
      its digest gives the whole tree as it was pushed. */
  lemma MultiWrittenIsServed(w: R.Wire, repo: string, run: seq<Multi>, request: MP.Request, blobs: set<P.Digest>,
                             levels: MP.Levels, images: MP.Request, indexes: MP.Request, jobs: nat, r: P.Registry, n: nat)
    requires R.Faithful(w)
    requires MP.Collected(request, blobs, levels, images, indexes) && MW.Sensible(request)
    requires forall ref :: ref in request ==> R.Proper(ref)
    requires jobs > 0 && IsMultiRun(w, repo, run, MW.StagesOf(blobs, levels, images, indexes), jobs) && n < |run|
    requires Holds(w, repo, run[0].server, r) && P.Closed(r)
    requires run[n].system.outcome == MW.Succeeded
    ensures forall ref :: ref in request ==> Serves(w, repo, run[n].server, request[ref])
  {
    var stages := MW.StagesOf(blobs, levels, images, indexes);
    MW.StagesAreOrdered(request, blobs, levels, images, indexes);
    RequestJobsAreProper(request, blobs, levels, images, indexes);
    hide *;
    var ideal := MultiRunIsIdeal(w, repo, run, stages, jobs, r, n);
    IdealOutcome(run[n], ideal[n].registry);
    MW.MultiWriteKeepsIntegrity(request, blobs, levels, images, indexes, ideal, jobs, n);
    forall ref | ref in request
      ensures Serves(w, repo, run[n].server, request[ref])
    {
      PresentIsServed(w, repo, run[n].server, ideal[n].registry, request[ref]);
    }
  }

  lemma IdealOutcome(s: Multi, r: P.Registry)
    ensures Ideal(s, r).outcome == s.system.outcome && Ideal(s, r).registry == r
  {
  }
}
