/** remote.Write and remote.WriteIndex as steps against a registry (pkg/v1/remote/write.go).

    A run interleaves the requests of all upload goroutines with each other and with any
    other client that keeps the registry closed. */
module WriteProtocol {
  import opened PushServer

  // ---------------------------------------------------------------- Write

  /** One call of Write.  `group` holds the upload goroutines started so far.  The config is
      started with the layers when all digests are known at the start; otherwise it is started
      as soon as it can be read, at the latest when all layers have been uploaded. */
  datatype Write = Write(ref: Ref, image: Content, group: seq<Upload>, configStarted: bool)

  /** The upload goroutines for the layers: foreign layers are left out, and of the layers
      with a known digest each is uploaded once. */
  function LayerUploads(layers: seq<Descriptor>, streamed: set<Digest>): seq<Upload> {
    if layers == [] then []
    else
      var rest := LayerUploads(layers[..|layers| - 1], streamed);
      var l := layers[|layers| - 1];
      if !l.mediaType.IsDistributable() then rest
      else if l.digest !in streamed && exists u :: u in rest && u.blob == l.digest then rest
      else rest + [StartUpload(l.digest, l.digest in streamed)]
  }

  function StartWrite(ref: Ref, image: Content, streamed: set<Digest>): Write
    requires image.ImageManifest?
  {
    var uploads := LayerUploads(image.layers, streamed);
    if exists l :: l in image.layers && l.digest in streamed then Write(ref, image, uploads, false)
    else Write(ref, image, uploads + [Check(image.config)], true)
  }

  predicate AllUploaded(group: seq<Upload>) { forall u :: u in group ==> u.Uploaded? }

  predicate AllStopped(group: seq<Upload>) { forall u :: u in group ==> u.Uploaded? || u.UploadFailed? }

  datatype Outcome = Continues(write: Write) | Written | WriteFailed

  ghost predicate WriteStep(r: Registry, w: Write, r': Registry, o: Outcome) {
    || (exists i, u' :: 0 <= i < |w.group| && UploadStep(r, w.group[i], r', u')
                        && o == Continues(w.(group := w.group[i := u'])))
    || (&& !w.configStarted && w.image.ImageManifest? && r' == r
        && o == Continues(w.(group := w.group + [Check(w.image.config)], configStarted := true)))
    || (AllStopped(w.group) && !AllUploaded(w.group) && r' == r && o == WriteFailed)
    || (&& AllUploaded(w.group) && w.configStarted
        && ((r' == Put(r, w.ref, w.image) && o in {Written, WriteFailed}) || (r' == r && o == WriteFailed)))
  }

  ghost predicate RefFits(ref: Ref, m: Content) { ref.ByDigest? ==> ref == IdOf(m) }

  ghost predicate Covered(w: Write, d: Digest) {
    || (!w.configStarted && w.image.ImageManifest? && d == w.image.config)
    || exists u :: u in w.group && u.blob == d
  }

  /** Every blob of the image has a goroutine or is still to get one, and a finished
      goroutine means a stored blob. */
  ghost predicate WriteInvariant(r: Registry, w: Write) {
    && w.image.ImageManifest? && RefFits(w.ref, w.image)
    && (forall d :: d in BlobsOf(w.image) ==> Covered(w, d))
    && (forall u :: u in w.group && u.Uploaded? ==> u.blob in r.blobs)
  }

  lemma {:induction false} LayerUploadsCover(layers: seq<Descriptor>, streamed: set<Digest>)
    ensures forall l :: l in layers && l.mediaType.IsDistributable() ==>
              exists u :: u in LayerUploads(layers, streamed) && u.blob == l.digest
    ensures forall u :: u in LayerUploads(layers, streamed) ==>
              u == (if u.blob in streamed then Initiate(u.blob, 3) else Check(u.blob))
  {
    if layers != [] {
      var rest, l := layers[..|layers| - 1], layers[|layers| - 1];
      LayerUploadsCover(rest, streamed);
      assert layers == rest + [l];
      var uploads := LayerUploads(layers, streamed);
      forall x | x in layers && x.mediaType.IsDistributable()
        ensures exists u :: u in uploads && u.blob == x.digest
      {
        if x in rest {
          var u :| u in LayerUploads(rest, streamed) && u.blob == x.digest;
          assert u in uploads;
        } else if !(l.digest !in streamed && exists u :: u in LayerUploads(rest, streamed) && u.blob == l.digest) {
          assert uploads[|uploads| - 1].blob == x.digest;
        }
      }
    }
  }

  /** No layer whose digest is known is uploaded twice, and foreign layers are not uploaded at all. */
  lemma {:induction false} LayerUploadsAreNeeded(layers: seq<Descriptor>, streamed: set<Digest>)
    ensures var group := LayerUploads(layers, streamed);
            && (forall i, j :: 0 <= i < j < |group| && group[i].blob == group[j].blob ==> group[j].blob in streamed)
            && (forall u :: u in group ==> exists l :: l in layers && l.mediaType.IsDistributable() && l.digest == u.blob)
  {
    if layers != [] {
      var rest, l := layers[..|layers| - 1], layers[|layers| - 1];
      LayerUploadsAreNeeded(rest, streamed);
      assert layers == rest + [l];
      assert forall u :: u in LayerUploads(layers, streamed) ==> u in LayerUploads(rest, streamed) || u.blob == l.digest;
    }
  }

  /** The config is uploaded with the layers when all their digests are known, and otherwise later. */
  lemma ConfigIsStarted(ref: Ref, image: Content, streamed: set<Digest>)
    requires image.ImageManifest?
    ensures var w := StartWrite(ref, image, streamed);
            && w.ref == ref && w.image == image
            && (w.configStarted <==> forall l :: l in image.layers ==> l.digest !in streamed)
            && w.group == LayerUploads(image.layers, streamed) + if w.configStarted then [Check(image.config)] else []
  {
    hide LayerUploads;
  }

  lemma StartWriteInvariant(r: Registry, ref: Ref, image: Content, streamed: set<Digest>)
    requires image.ImageManifest? && RefFits(ref, image)
    ensures WriteInvariant(r, StartWrite(ref, image, streamed))
  {
    var w := StartWrite(ref, image, streamed);
    LayerUploadsCover(image.layers, streamed);
    forall d | d in BlobsOf(image)
      ensures Covered(w, d)
    {
      if d == image.config && w.configStarted {
        assert Check(image.config) in w.group && Check(image.config).blob == d;
      } else if d != image.config {
        var l :| l in image.layers && l.mediaType.IsDistributable() && l.digest == d;
        var u :| u in LayerUploads(image.layers, streamed) && u.blob == d;
        assert u in w.group;
      }
    }
  }

  lemma UploadMoves(r: Registry, w: Write, i: nat, r': Registry, u': Upload)
    requires WriteInvariant(r, w) && i < |w.group| && UploadStep(r, w.group[i], r', u')
    ensures Evolves(r, r')
    ensures WriteInvariant(r', w.(group := w.group[i := u']))
  {
    UploadStepEvolves(r, w.group[i], r', u');
    var w' := w.(group := w.group[i := u']);
    forall d | d in BlobsOf(w.image)
      ensures Covered(w', d)
    {
      assert Covered(w, d);
      if u :| u in w.group && u.blob == d {
        var k :| 0 <= k < |w.group| && w.group[k] == u;
        assert w'.group[k] in w'.group && w'.group[k].blob == d;
      }
    }
  }

  /** A Write commits its manifest only when all its blobs are stored. */
  lemma WriteStepKeeps(r: Registry, w: Write, r': Registry, o: Outcome)
    requires WriteInvariant(r, w) && WriteStep(r, w, r', o)
    ensures Evolves(r, r')
    ensures o.Continues? ==> o.write.image == w.image && o.write.ref == w.ref && WriteInvariant(r', o.write)
    ensures o.Written? ==> IdOf(w.image) in r'.manifests
  {
    if i, u' :| 0 <= i < |w.group| && UploadStep(r, w.group[i], r', u')
                && o == Continues(w.(group := w.group[i := u'])) {
      UploadMoves(r, w, i, r', u');
    } else if !w.configStarted && o.Continues? {
      var w' := o.write;
      forall d | d in BlobsOf(w.image)
        ensures Covered(w', d)
      {
        assert Covered(w, d);
        if u :| u in w.group && u.blob == d {
          assert u in w'.group;
        } else {
          assert Check(d) in w'.group && Check(d).blob == d;
        }
      }
    } else if r' != r || o.Written? {
      forall d | d in BlobsOf(w.image)
        ensures d in r.blobs
      {
        assert Covered(w, d);
      }
      PutEvolves(r, w.ref, w.image);
    }
  }

  /** A Write is never stuck: as long as an upload goes on, that can fail; when all have stopped, a failed
      one ends it, and otherwise the config or the manifest is next. */
  lemma WriteNeverStuck(r: Registry, w: Write)
    requires w.image.ImageManifest?
    ensures exists r', o :: WriteStep(r, w, r', o)
    ensures (exists u :: u in w.group && u.UploadFailed?) && (forall u :: u in w.group ==> u.Uploaded? || u.UploadFailed?) ==>
              WriteStep(r, w, r, WriteFailed) && forall r', o :: WriteStep(r, w, r', o) && o.Continues? ==> !w.configStarted
  {
    if i :| 0 <= i < |w.group| && !w.group[i].Uploaded? && !w.group[i].UploadFailed? {
      var u' := UploadFailed(w.group[i].blob);
      assert UploadStep(r, w.group[i], r, u');
      assert WriteStep(r, w, r, Continues(w.(group := w.group[i := u'])));
    } else if !w.configStarted {
      assert WriteStep(r, w, r, Continues(w.(group := w.group + [Check(w.image.config)], configStarted := true)));
    } else {
      assert WriteStep(r, w, r, WriteFailed);
    }
  }

  // ---------------------------------------------------------------- WriteIndex

  /** One active call of writeIndex: the children before `next` have been dealt with. */
  datatype Frame = Frame(ref: Ref, index: Content, next: nat)

  /** A push in progress: the stack of writeIndex calls, innermost last, and the Write it is
      waiting for, if any.  A plain Write has no frames. */
  datatype Push = Pushing(frames: seq<Frame>, writing: Wait) | Pushed | PushFailed
  datatype Wait = Nothing | For(write: Write)

  /** The innermost call returns to its caller, or the push is over. */
  function Return(frames: seq<Frame>): Push {
    if frames == [] then Pushed
    else
      var f := frames[|frames| - 1];
      Pushing(frames[..|frames| - 1] + [f.(next := f.next + 1)], Nothing)
  }

  ghost predicate PushStep(r: Registry, p: Push, r': Registry, p': Push, streamed: set<Digest>) {
    && p.Pushing?
    && if p.writing.For? then
         exists o :: WriteStep(r, p.writing.write, r', o) &&
           match o
           case Continues(w) => p' == Pushing(p.frames, For(w))
           case Written => p' == Return(p.frames)
           case WriteFailed => p' == PushFailed
       else
         && p.frames != []
         && var f := p.frames[|p.frames| - 1];
            f.index.IndexManifest? &&
            if f.next < |f.index.manifests| then
              && r' == r
              && var desc := f.index.manifests[f.next];
                 p' in {PushFailed, ChildAction(ByDigest(desc.digest) in r.manifests, p.frames, desc, streamed)}
            else
              || (r' == Put(r, f.ref, f.index) && (p' == Return(p.frames[..|p.frames| - 1]) || p' == PushFailed))
              || (r' == r && p' == PushFailed)
  }

  /** What writeIndex does with a child: skip it when it exists or is neither image nor
      index, otherwise push it.  A child that is not what its media type says cannot be
      fetched from the index. */
  ghost function ChildAction(present: bool, frames: seq<Frame>, desc: Descriptor, streamed: set<Digest>): Push
    requires frames != []
  {
    var child := desc.digest.content;
    if present then Return(frames)
    else if desc.mediaType.IsIndex() then
      if child.IndexManifest? then Pushing(frames + [Frame(ByDigest(desc.digest), child, 0)], Nothing)
      else PushFailed
    else if desc.mediaType.IsImage() then
      if child.ImageManifest? then Pushing(frames, For(StartWrite(ByDigest(desc.digest), child, streamed)))
      else PushFailed
    else Return(frames)
  }

  predicate IsManifest(mt: MediaType) { mt.IsIndex() || mt.IsImage() }

  ghost predicate FrameInvariant(r: Registry, f: Frame) {
    && f.index.IndexManifest? && RefFits(f.ref, f.index) && f.next <= |f.index.manifests|
    && forall k :: 0 <= k < f.next && IsManifest(f.index.manifests[k].mediaType) ==>
                     ByDigest(f.index.manifests[k].digest) in r.manifests
  }

  /** The content the innermost active call is pushing. */
  function Pending(f: Frame): Content
    requires f.index.IndexManifest? && f.next < |f.index.manifests|
  {
    f.index.manifests[f.next].digest.content
  }

  /** Each caller is at the child that the call above it pushes, and the root is `root`. */
  ghost predicate Linked(frames: seq<Frame>, writing: Wait, root: Content) {
    && (forall i :: 0 <= i < |frames| ==> frames[i].index.IndexManifest?)
    && (forall i :: 0 <= i < |frames| - 1 ==>
          frames[i].next < |frames[i].index.manifests| && Pending(frames[i]) == frames[i + 1].index)
    && (frames != [] ==> frames[0].index == root)
    && (writing.For? && frames == [] ==> writing.write.image == root)
    && (writing.For? && frames != [] ==>
          var f := frames[|frames| - 1];
          f.next < |f.index.manifests| && Pending(f) == writing.write.image)
  }

  ghost predicate PushInvariant(r: Registry, p: Push, root: Content) {
    match p
    case Pushing(frames, writing) =>
      && (forall f :: f in frames ==> FrameInvariant(r, f))
      && (writing.For? ==> WriteInvariant(r, writing.write))
      && (frames == [] ==> writing.For?)
      && Linked(frames, writing, root)
    case Pushed => IdOf(root) in r.manifests
    case PushFailed => true
  }

  function StartPush(ref: Ref, root: Content, streamed: set<Digest>): Push
    requires root.ImageManifest? || root.IndexManifest?
  {
    if root.ImageManifest? then Pushing([], For(StartWrite(ref, root, streamed)))
    else Pushing([Frame(ref, root, 0)], Nothing)
  }

  lemma PushInvariantSurvives(r: Registry, r': Registry, p: Push, root: Content)
    requires PushInvariant(r, p, root) && Evolves(r, r')
    ensures PushInvariant(r', p, root)
  {
  }

  /** Returning to the caller once the innermost content is stored or skipped. */
  lemma ReturnKeeps(r: Registry, frames: seq<Frame>, done: Content, root: Content)
    requires forall f :: f in frames ==> FrameInvariant(r, f)
    requires Linked(frames, Nothing, root)
    requires frames == [] ==> done == root && IdOf(root) in r.manifests
    requires frames != [] ==>
               var f := frames[|frames| - 1];
               && f.next < |f.index.manifests|
               && (IsManifest(f.index.manifests[f.next].mediaType) ==>
                     ByDigest(f.index.manifests[f.next].digest) in r.manifests)
    ensures PushInvariant(r, Return(frames), root)
  {
    if frames != [] {
      var f := frames[|frames| - 1];
      var f' := f.(next := f.next + 1);
      assert FrameInvariant(r, f);
      assert FrameInvariant(r, f');
    }
  }

  lemma ChildActionKeeps(r: Registry, frames: seq<Frame>, root: Content, streamed: set<Digest>)
    requires frames != [] && PushInvariant(r, Pushing(frames, Nothing), root)
    requires frames[|frames| - 1].next < |frames[|frames| - 1].index.manifests|
    ensures var f := frames[|frames| - 1];
            var desc := f.index.manifests[f.next];
            PushInvariant(r, ChildAction(ByDigest(desc.digest) in r.manifests, frames, desc, streamed), root)
  {
    var f := frames[|frames| - 1];
    assert FrameInvariant(r, f);
    var desc := f.index.manifests[f.next];
    var child := desc.digest.content;
    if ByDigest(desc.digest) in r.manifests || !IsManifest(desc.mediaType) {
      ReturnKeeps(r, frames, child, root);
    } else if child.ImageManifest? {
      StartWriteInvariant(r, ByDigest(desc.digest), child, streamed);
    }
  }

  /** The index itself is committed only after its children. */
  lemma CommitIndexKeeps(r: Registry, frames: seq<Frame>, root: Content)
    requires frames != [] && PushInvariant(r, Pushing(frames, Nothing), root)
    requires frames[|frames| - 1].next == |frames[|frames| - 1].index.manifests|
    ensures var f := frames[|frames| - 1];
            var r' := Put(r, f.ref, f.index);
            Evolves(r, r') && PushInvariant(r', Return(frames[..|frames| - 1]), root)
  {
    var n := |frames| - 1;
    var f := frames[n];
    assert FrameInvariant(r, f);
    var r' := Put(r, f.ref, f.index);
    PutEvolves(r, f.ref, f.index);
    var callers := frames[..n];
    forall c | c in callers
      ensures FrameInvariant(r', c)
    {
      assert FrameInvariant(r, c);
    }
    ReturnKeeps(r', callers, f.index, root);
  }

  lemma PushStepKeeps(r: Registry, p: Push, r': Registry, p': Push, root: Content, streamed: set<Digest>)
    requires PushInvariant(r, p, root) && PushStep(r, p, r', p', streamed)
    ensures Evolves(r, r') && PushInvariant(r', p', root)
  {
    var frames := p.frames;
    if p.writing.For? {
      var w := p.writing.write;
      var o :| WriteStep(r, w, r', o) &&
               match o
               case Continues(w') => p' == Pushing(frames, For(w'))
               case Written => p' == Return(frames)
               case WriteFailed => p' == PushFailed;
      WriteStepKeeps(r, w, r', o);
      PushInvariantSurvives(r, r', p, root);
      if o.Written? {
        assert frames != [] ==> FrameInvariant(r', frames[|frames| - 1]);
        ReturnKeeps(r', frames, w.image, root);
      }
    } else {
      var f := frames[|frames| - 1];
      assert FrameInvariant(r, f);
      if f.next < |f.index.manifests| {
        ChildActionKeeps(r, frames, root, streamed);
      } else {
        CommitIndexKeeps(r, frames, root);
      }
    }
  }

  // ---------------------------------------------------------------- runs

  datatype State = State(registry: Registry, push: Push)

  /** Either the push or another client moves. */
  ghost predicate Step(s: State, s': State, streamed: set<Digest>) {
    || PushStep(s.registry, s.push, s'.registry, s'.push, streamed)
    || (Evolves(s.registry, s'.registry) && s'.push == s.push)
  }

  ghost predicate IsRun(run: seq<State>, ref: Ref, root: Content, streamed: set<Digest>) {
    && run != []
    && (root.ImageManifest? || root.IndexManifest?)
    && RefFits(ref, root)
    && Closed(run[0].registry) && run[0].push == StartPush(ref, root, streamed)
    && forall i :: 0 <= i < |run| - 1 ==> Step(run[i], run[i + 1], streamed)
  }

  lemma {:induction false} RunInvariant(run: seq<State>, ref: Ref, root: Content, streamed: set<Digest>, n: nat)
    requires IsRun(run, ref, root, streamed) && n < |run|
    ensures Closed(run[n].registry) && PushInvariant(run[n].registry, run[n].push, root)
  {
    if n == 0 {
      if root.ImageManifest? {
        StartWriteInvariant(run[0].registry, ref, root, streamed);
      }
    } else {
      RunInvariant(run, ref, root, streamed, n - 1);
      var s, s' := run[n - 1], run[n];
      assert Step(s, s', streamed);
      if PushStep(s.registry, s.push, s'.registry, s'.push, streamed) {
        PushStepKeeps(s.registry, s.push, s'.registry, s'.push, root, streamed);
      } else {
        PushInvariantSurvives(s.registry, s'.registry, s.push, root);
      }
    }
  }

  /** From a closed registry, every state of every run of Write or WriteIndex is closed, and
      once the push reports success the whole tree is there. */
  lemma PushKeepsIntegrity(run: seq<State>, ref: Ref, root: Content, streamed: set<Digest>, n: nat)
    requires IsRun(run, ref, root, streamed) && n < |run|
    ensures Closed(run[n].registry)
    ensures run[n].push.Pushed? ==> TreePresent(run[n].registry, root)
  {
    RunInvariant(run, ref, root, streamed, n);
    if run[n].push.Pushed? {
      RootMeansTree(run[n].registry, root);
    }
  }
}
