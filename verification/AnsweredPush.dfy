/** That pushes succeed: when the in-memory registry answers every request, and no answer is lost,
    every Write, WriteIndex and MultiWrite of a tree of images and indexes ends, and ends well.
    Meanwhile other clients do as they like, as long as the registry stays closed and they leave alone
    the uploads that the call has open. */
module AnsweredPush {
  import opened Common
  import opened ServedPush
  import B = BlobStore
  import M = ManifestStore
  import P = PushServer
  import R = RegistryRefinement
  import W = WriteProtocol
  import MP = MultiWritePlan
  import MW = MultiWriteProtocol
  import MG = MultiWriteProgress

  // ---------------------------------------------------------------- one upload

  predicate HasID(u: P.Upload) { u.Stream? || u.Commit? }

  /** The uploads that are open. */
  function Held(group: seq<P.Upload>): set<nat> { set u | u in group && HasID(u) :: u.id }

  /** One request of an upload is answered.  A new upload gets a name that is not in use. */
  ghost predicate AnsweredUpload(w: R.Wire, repo: string, srv: Server, u: P.Upload, srv': Server, u': P.Upload, held: set<nat>) {
    && !u.Uploaded? && !u.UploadFailed?
    && srv' == ServeBlob(w, repo, srv, u).1
    && exists id: nat :: w.uploadID(id) !in srv.blobs.uploads && id !in held
                         && u' == R.NextUpload(u, ServeBlob(w, repo, srv, u).0, id)
  }

  /** An open upload has been sent nothing yet, or all of its blob. */
  ghost predicate Flows(r: P.Registry, u: P.Upload) {
    && !u.UploadFailed?
    && (u.Stream? ==> u.id !in r.uploads)
    && (u.Commit? ==> u.id in r.uploads && r.uploads[u.id] == u.blob.content)
  }

  /** What the answers do: HEAD; and unless the blob is there POST, PATCH and PUT. */
  ghost predicate GoesOn(r: P.Registry, u: P.Upload, r': P.Registry, u': P.Upload, held: set<nat>) {
    match u
    case Check(d) => r' == r && u' == if d in r.blobs then P.Uploaded(d) else P.Initiate(d, 3)
    case Initiate(d, n) => r' == r && u'.Stream? && u' == P.Stream(d, u'.id, n) && u'.id !in r.uploads && u'.id !in held
    case Stream(d, id, n) => r' == r.(uploads := r.uploads[id := d.content]) && u' == P.Commit(d, id, n)
    case Commit(d, id, _) => r' == r.(blobs := r.blobs + {d}, uploads := r.uploads - {id}) && u' == P.Uploaded(d)
    case _ => false
  }

  lemma UploadGoesOn(w: R.Wire, repo: string, srv: Server, r: P.Registry, u: P.Upload, srv': Server, u': P.Upload, held: set<nat>)
    returns (r': P.Registry)
    requires R.Faithful(w) && Holds(w, repo, srv, r) && Flows(r, u) && AnsweredUpload(w, repo, srv, u, srv', u', held)
    ensures Holds(w, repo, srv', r') && GoesOn(r, u, r', u', held) && P.UploadStep(r, u, r', u')
  {
    hide R.Faithful, R.HoldsManifests, B.Handle, B.ContentAddressed;
    var (reply, served) := ServeBlob(w, repo, srv, u);
    ServedKeepsAddresses(w.codec.hash, srv.blobs, R.RequestOf(w, repo, u));
    ManifestsUntouched(w, srv, repo, r, u, reply);
    r' := R.NextRegistry(r, u, reply);
    var id: nat :| w.uploadID(id) !in srv.blobs.uploads && id !in held && u' == R.NextUpload(u, reply, id);
    assert id !in r.uploads;
    R.UploadRefines(w, srv.blobs, r, repo, u, id);
    match u
    case Check(d) => R.CheckRefines(w, srv.blobs, r, repo, d);
    case Stream(d, i, n) => R.StreamRefines(w, srv.blobs, r, repo, d, i, n);
    case Commit(d, i, n) => R.CommitRefines(w, srv.blobs, r, repo, d, i, n);
    case _ =>
  }

  /** The upload of a blob, nobody else being at work: when it is there, one HEAD shows that; otherwise
      HEAD, POST, PATCH and PUT store it, under any free name.  Then it can be pulled. */
  lemma UploadSucceeds(w: R.Wire, repo: string, srv: Server, r: P.Registry, d: P.Digest, id: nat)
    returns (srv': Server, r': P.Registry)
    requires R.Faithful(w) && Holds(w, repo, srv, r) && id !in r.uploads
    ensures Holds(w, repo, srv', r') && d in r'.blobs
    ensures var (reply, after) := ServeBlob(w, repo, srv, P.Check(d));
            if d in r.blobs then R.NextUpload(P.Check(d), reply, id) == P.Uploaded(d) && srv' == after
            else
              var post := R.NextUpload(P.Check(d), reply, id);
              && post == P.Initiate(d, 3)
              && var (reply, after) := ServeBlob(w, repo, after, post);
                 var patch := R.NextUpload(post, reply, id);
              && patch == P.Stream(d, id, 3)
              && var (reply, after) := ServeBlob(w, repo, after, patch);
                 var put := R.NextUpload(patch, reply, id);
              && put == P.Commit(d, id, 3)
              && var (reply, after) := ServeBlob(w, repo, after, put);
                 R.NextUpload(put, reply, id) == P.Uploaded(d) && srv' == after
    ensures B.Handle(w.codec.hash, srv'.blobs, R.GetBlob(w, repo, d)).0 == B.Content(w.encode(d.content), R.Digest(w, d))
  {
    hide R.Faithful, Holds, B.Handle, P.UploadStep, AnsweredUpload;
    srv', r' := Asked(w, repo, srv, r, P.Check(d), id);
    if d !in r.blobs {
      var r1 := r';
      srv', r' := Asked(w, repo, srv', r', P.Initiate(d, 3), id);
      srv', r' := Asked(w, repo, srv', r', P.Stream(d, id, 3), id);
      srv', r' := Asked(w, repo, srv', r', P.Commit(d, id, 3), id);
    }
    Pulled(w, repo, srv', r', d);
  }

  lemma Pulled(w: R.Wire, repo: string, srv: Server, r: P.Registry, d: P.Digest)
    requires R.Faithful(w) && Holds(w, repo, srv, r) && d in r.blobs
    ensures B.Handle(w.codec.hash, srv.blobs, R.GetBlob(w, repo, d)).0 == B.Content(w.encode(d.content), R.Digest(w, d))
  {
    R.BlobIsServed(w, srv.blobs, r, repo, d);
  }

  lemma Asked(w: R.Wire, repo: string, srv: Server, r: P.Registry, u: P.Upload, id: nat) returns (srv': Server, r': P.Registry)
    requires R.Faithful(w) && Holds(w, repo, srv, r) && Flows(r, u) && !u.Uploaded? && (u.Initiate? ==> id !in r.uploads)
    ensures srv' == ServeBlob(w, repo, srv, u).1 && Holds(w, repo, srv', r')
    ensures GoesOn(r, u, r', R.NextUpload(u, ServeBlob(w, repo, srv, u).0, id), {})
    ensures u.Initiate? ==> R.NextUpload(u, ServeBlob(w, repo, srv, u).0, id) == P.Stream(u.blob, id, u.tries)
  {
    var (reply, after) := ServeBlob(w, repo, srv, u);
    var u' := R.NextUpload(u, reply, id);
    srv' := after;
    var free := if u.Initiate? then id else Fresh(r.uploads.Keys);
    assert free !in r.uploads && u' == R.NextUpload(u, reply, free);
    assert w.uploadID(free) !in srv.blobs.uploads;
    assert AnsweredUpload(w, repo, srv, u, srv', u', {});
    r' := UploadGoesOn(w, repo, srv, r, u, srv', u', {});
  }

  /** A number above those in use. */
  ghost function Fresh(used: set<nat>): (id: nat)
    ensures forall x :: x in used ==> x < id
  {
    if used == {} then 0
    else
      var x :| x in used;
      var id := Fresh(used - {x});
      assert used == used - {x} + {x};
      if x < id then id else x + 1
  }

  // ---------------------------------------------------------------- the uploads of one call

  ghost predicate AllFlow(r: P.Registry, group: seq<P.Upload>) {
    && (forall i :: 0 <= i < |group| ==> Flows(r, group[i]))
    && (forall i, j :: 0 <= i < j < |group| && HasID(group[i]) && HasID(group[j]) ==> group[i].id != group[j].id)
  }

  lemma OneFlowsOn(r: P.Registry, group: seq<P.Upload>, i: nat, r': P.Registry, u': P.Upload)
    requires AllFlow(r, group) && i < |group| && GoesOn(r, group[i], r', u', Held(group))
    ensures AllFlow(r', group[i := u'])
  {
    var u, after := group[i], group[i := u'];
    assert forall j :: 0 <= j < |group| && HasID(group[j]) ==> group[j].id in Held(group);
    forall j | 0 <= j < |group| && j != i
      ensures HasID(group[j]) && HasID(u') ==> group[j].id != u'.id
      ensures Flows(r', group[j])
    {
      assert Flows(r, group[j]);
      if HasID(u) && HasID(group[j]) {
        assert if i < j then group[i].id != group[j].id else group[j].id != group[i].id;
      }
    }
    assert Flows(r', u');
  }

  /** What other clients may do: keep the registry closed, keep what is there, and not touch the open
      uploads of this call. */
  ghost predicate OthersEvolve(r: P.Registry, r': P.Registry, held: set<nat>) {
    && P.Evolves(r, r')
    && forall id :: id in held ==> (id in r.uploads <==> id in r'.uploads) && (id in r.uploads ==> r.uploads[id] == r'.uploads[id])
  }

  lemma OthersLetFlow(r: P.Registry, r': P.Registry, group: seq<P.Upload>)
    requires AllFlow(r, group) && OthersEvolve(r, r', Held(group))
    ensures AllFlow(r', group)
  {
    hide P.Evolves;
    forall i | 0 <= i < |group|
      ensures Flows(r', group[i])
    {
      assert group[i] in group && Flows(r, group[i]);
    }
  }

  /** Some answer comes to any upload that is not over. */
  lemma UploadIsAnswered(w: R.Wire, repo: string, srv: Server, r: P.Registry, u: P.Upload, held: set<nat>)
    returns (srv': Server, u': P.Upload)
    requires Holds(w, repo, srv, r) && !u.Uploaded? && !u.UploadFailed?
    ensures AnsweredUpload(w, repo, srv, u, srv', u', held)
  {
    var id := Fresh(r.uploads.Keys + held);
    hide B.Handle, R.HoldsManifests, B.ContentAddressed;
    var (reply, after) := ServeBlob(w, repo, srv, u);
    srv', u' := after, R.NextUpload(u, reply, id);
    assert id !in r.uploads && w.uploadID(id) !in srv.blobs.uploads;
  }

  // ---------------------------------------------------------------- commits

  /** The PUT of a manifest is answered. */
  ghost predicate AnsweredCommit(w: R.Wire, repo: string, srv: Server, ref: P.Ref, m: P.Content, srv': Server, ok: bool) {
    var (reply, manifests) := M.Handle(w.codec, srv.manifests, R.CommitRequest(w, repo, ref, m));
    srv' == srv.(manifests := manifests) && (ok <==> reply.Stored?)
  }

  lemma CommitIsTaken(w: R.Wire, repo: string, srv: Server, r: P.Registry, ref: P.Ref, m: P.Content, srv': Server, ok: bool)
    requires R.Faithful(w) && Holds(w, repo, srv, r) && R.Proper(ref) && R.Taken(r, m)
    requires AnsweredCommit(w, repo, srv, ref, m, srv', ok)
    ensures ok && Holds(w, repo, srv', P.Put(r, ref, m))
  {
    R.CommitManifestRefines(w, srv.manifests, repo, r, ref, m);
    assert R.HoldsBlobs(w, srv.blobs, P.Put(r, ref, m));
  }

  // ---------------------------------------------------------------- Write and WriteIndex

  ghost predicate AnsweredWriteStep(w: R.Wire, repo: string, srv: Server, x: W.Write, srv': Server, o: W.Outcome) {
    || (exists i, u' :: 0 <= i < |x.group| && AnsweredUpload(w, repo, srv, x.group[i], srv', u', Held(x.group))
                        && o == W.Continues(x.(group := x.group[i := u'])))
    || (&& !x.configStarted && x.image.ImageManifest? && srv' == srv
        && o == W.Continues(x.(group := x.group + [P.Check(x.image.config)], configStarted := true)))
    || (W.AllStopped(x.group) && !W.AllUploaded(x.group) && srv' == srv && o == W.WriteFailed)
    || (&& W.AllUploaded(x.group) && x.configStarted
        && exists ok :: AnsweredCommit(w, repo, srv, x.ref, x.image, srv', ok) && o == if ok then W.Written else W.WriteFailed)
  }

  ghost predicate AnsweredPushStep(w: R.Wire, repo: string, srv: Server, p: W.Push, srv': Server, p': W.Push, streamed: set<P.Digest>) {
    && p.Pushing?
    && if p.writing.For? then
         exists o :: AnsweredWriteStep(w, repo, srv, p.writing.write, srv', o) &&
           match o
           case Continues(x) => p' == W.Pushing(p.frames, W.For(x))
           case Written => p' == W.Return(p.frames)
           case WriteFailed => p' == W.PushFailed
       else
         && p.frames != []
         && var f := p.frames[|p.frames| - 1];
            f.index.IndexManifest? &&
            if f.next < |f.index.manifests| then
              && srv' == srv
              && var desc := f.index.manifests[f.next];
                 p' == W.ChildAction(HasManifest(w, repo, srv, desc.digest), p.frames, desc, streamed)
            else
              exists ok :: AnsweredCommit(w, repo, srv, f.ref, f.index, srv', ok)
                && p' == if ok then W.Return(p.frames[..|p.frames| - 1]) else W.PushFailed
  }

  function GroupOf(p: W.Push): seq<P.Upload> {
    if p.Pushing? && p.writing.For? then p.writing.write.group else []
  }

  /** A push on its way: the invariant of the protocol, and no failure in sight. */
  ghost predicate OnItsWay(r: P.Registry, p: W.Push, root: P.Content) {
    && W.PushInvariant(r, p, root) && ProperPush(p) && !p.PushFailed?
    && AllFlow(r, GroupOf(p))
    && (p.Pushing? ==> forall f :: f in p.frames ==> MP.Pushable(f.index))
  }

  lemma WriteGoesOn(w: R.Wire, repo: string, srv: Server, r: P.Registry, x: W.Write, srv': Server, o: W.Outcome)
    returns (r': P.Registry)
    requires R.Faithful(w) && Holds(w, repo, srv, r) && R.Proper(x.ref)
    requires W.WriteInvariant(r, x) && AllFlow(r, x.group) && AnsweredWriteStep(w, repo, srv, x, srv', o)
    ensures Holds(w, repo, srv', r') && W.WriteStep(r, x, r', o) && !o.WriteFailed?
    ensures o.Continues? ==> AllFlow(r', o.write.group) && WriteLeft(o.write) < WriteLeft(x)
  {
    hide R.Faithful, Holds, AnsweredUpload, AnsweredCommit, P.UploadStep, P.Put, GoesOn, AllFlow;
    r' := r;
    if i, u' :| 0 <= i < |x.group| && AnsweredUpload(w, repo, srv, x.group[i], srv', u', Held(x.group))
                && o == W.Continues(x.(group := x.group[i := u'])) {
      EachFlows(r, x.group, i);
      r' := UploadGoesOn(w, repo, srv, r, x.group[i], srv', u', Held(x.group));
      OneFlowsOn(r, x.group, i, r', u');
      OneFewer(r, x.group, i, r', u');
    } else if !x.configStarted && o.Continues? {
      ConfigFlows(r, x.group, x.image.config);
    } else if W.AllUploaded(x.group) && x.configStarted {
      var ok :| AnsweredCommit(w, repo, srv, x.ref, x.image, srv', ok) && o == if ok then W.Written else W.WriteFailed;
      CommitIsTaken(w, repo, srv, r, x.ref, x.image, srv', ok);
      r' := P.Put(r, x.ref, x.image);
    } else {
      forall u | u in x.group
        ensures u.Uploaded?
      {
        var i :| 0 <= i < |x.group| && x.group[i] == u;
        EachFlows(r, x.group, i);
      }
      assert false;
    }
  }

  lemma EachFlows(r: P.Registry, group: seq<P.Upload>, i: nat)
    requires AllFlow(r, group) && i < |group|
    ensures Flows(r, group[i]) && !group[i].UploadFailed?
  {
  }

  lemma ConfigFlows(r: P.Registry, group: seq<P.Upload>, config: P.Digest)
    requires AllFlow(r, group)
    ensures AllFlow(r, group + [P.Check(config)])
    ensures GroupLeft(group + [P.Check(config)]) == GroupLeft(group) + 4
  {
    var more := group + [P.Check(config)];
    assert more[..|more| - 1] == group;
  }

  // ---------------------------------------------------------------- how many steps

  /** The requests that an upload still makes. */
  function RequestsLeft(u: P.Upload): nat {
    match u
    case Check(_) => 4
    case Initiate(_, _) => 3
    case Stream(_, _, _) => 2
    case Commit(_, _, _) => 1
    case _ => 0
  }

  function GroupLeft(group: seq<P.Upload>): nat {
    if group == [] then 0 else GroupLeft(group[..|group| - 1]) + RequestsLeft(group[|group| - 1])
  }

  function WriteLeft(x: W.Write): nat { GroupLeft(x.group) + (if x.configStarted then 0 else 5) + 1 }

  /** At most that many steps push a tree: four for each layer and the config and two more for an image;
      one for each child and one more for an index, besides those of the children. */
  ghost function Cost(m: P.Content): nat
    decreases m, 2
  {
    match m
    case ImageManifest(_, layers) => 4 * |layers| + 6
    case IndexManifest(_) => CostFrom(m, 0)
    case Blob(_) => 0
  }

  ghost function CostFrom(m: P.Content, n: nat): nat
    requires m.IndexManifest?
    decreases m, 1, |m.manifests| - n
  {
    if n >= |m.manifests| then 1 else 1 + Cost(m.manifests[n].digest.content) + CostFrom(m, n + 1)
  }

  lemma {:induction false} GroupChanges(group: seq<P.Upload>, i: nat, u': P.Upload)
    requires i < |group|
    ensures GroupLeft(group[i := u']) + RequestsLeft(group[i]) == GroupLeft(group) + RequestsLeft(u')
  {
    var n := |group| - 1;
    if i == n {
      assert group[i := u'][..n] == group[..n];
    } else {
      assert group[i := u'][..n] == group[..n][i := u'];
      GroupChanges(group[..n], i, u');
    }
  }

  lemma OneFewer(r: P.Registry, group: seq<P.Upload>, i: nat, r': P.Registry, u': P.Upload)
    requires i < |group| && GoesOn(r, group[i], r', u', Held(group))
    ensures GroupLeft(group[i := u']) < GroupLeft(group)
  {
    GroupChanges(group, i, u');
    hide GroupLeft;
  }

  lemma {:induction false} LayersCost(layers: seq<P.Descriptor>, streamed: set<P.Digest>)
    ensures var group := W.LayerUploads(layers, streamed);
            && GroupLeft(group) <= 4 * |layers|
            && forall u :: u in group ==> u.Check? || u.Initiate?
  {
    if layers != [] {
      var rest := layers[..|layers| - 1];
      LayersCost(rest, streamed);
      var before, after := W.LayerUploads(rest, streamed), W.LayerUploads(layers, streamed);
      assert after != before ==> after[..|after| - 1] == before;
    }
  }

  /** A Write starts with its uploads still to be made. */
  lemma WriteStarts(r: P.Registry, ref: P.Ref, image: P.Content, streamed: set<P.Digest>)
    requires image.ImageManifest?
    ensures var x := W.StartWrite(ref, image, streamed);
            AllFlow(r, x.group) && WriteLeft(x) <= Cost(image)
  {
    LayersCost(image.layers, streamed);
    var x, uploads := W.StartWrite(ref, image, streamed), W.LayerUploads(image.layers, streamed);
    assert (uploads + [P.Check(image.config)])[..|uploads|] == uploads;
    forall i | 0 <= i < |x.group|
      ensures x.group[i].Check? || x.group[i].Initiate?
    {
      assert i < |uploads| ==> x.group[i] == uploads[i] && uploads[i] in uploads;
    }
    hide W.LayerUploads;
  }

  /** The steps that the callers still make when the child they wait for is done. */
  ghost function CallersLeft(frames: seq<W.Frame>): nat
    requires forall f :: f in frames ==> f.index.IndexManifest?
  {
    if frames == [] then 0
    else CallersLeft(frames[..|frames| - 1]) + CostFrom(frames[|frames| - 1].index, frames[|frames| - 1].next + 1)
  }

  ghost predicate Indexes(p: W.Push) { p.Pushing? ==> forall f :: f in p.frames ==> f.index.IndexManifest? }

  ghost function PushLeft(p: W.Push): nat
    requires Indexes(p)
  {
    if !p.Pushing? then 0
    else if p.writing.For? then CallersLeft(p.frames) + WriteLeft(p.writing.write)
    else if p.frames == [] then 0
    else
      var n := |p.frames| - 1;
      CallersLeft(p.frames[..n]) + CostFrom(p.frames[n].index, p.frames[n].next)
  }

  lemma ReturnLeft(frames: seq<W.Frame>)
    requires forall f :: f in frames ==> f.index.IndexManifest?
    ensures Indexes(W.Return(frames)) && PushLeft(W.Return(frames)) == CallersLeft(frames)
  {
    if frames != [] {
      var n := |frames| - 1;
      var f := frames[n];
      assert W.Return(frames).frames[..n] == frames[..n];
    }
  }

  lemma ChildKind(m: P.Content, n: nat)
    requires MP.Pushable(m) && m.IndexManifest? && n < |m.manifests|
    ensures var d := m.manifests[n];
            MP.Pushable(d.digest.content) && if d.mediaType.IsIndex() then d.digest.content.IndexManifest?
                                             else d.mediaType.IsImage() && d.digest.content.ImageManifest?
  {
    assert m.manifests[n] in m.manifests;
  }

  /** Before and after one more call on the stack. */
  lemma DescendLeft(frames: seq<W.Frame>, ref: P.Ref, child: P.Content)
    requires frames != [] && child.IndexManifest? && forall f :: f in frames ==> f.index.IndexManifest?
    ensures var p' := W.Pushing(frames + [W.Frame(ref, child, 0)], W.Nothing);
            Indexes(p') && PushLeft(p') == CallersLeft(frames) + Cost(child)
  {
    assert (frames + [W.Frame(ref, child, 0)])[..|frames|] == frames;
  }

  lemma ChildLeft(frames: seq<W.Frame>)
    requires frames != [] && forall f :: f in frames ==> f.index.IndexManifest?
    requires frames[|frames| - 1].next < |frames[|frames| - 1].index.manifests|
    ensures var f := frames[|frames| - 1];
            PushLeft(W.Pushing(frames, W.Nothing)) == CallersLeft(frames) + Cost(f.index.manifests[f.next].digest.content) + 1
  {
  }

  lemma Returns(r: P.Registry, frames: seq<W.Frame>, root: P.Content)
    requires W.PushInvariant(r, W.Return(frames), root)
    requires forall f :: f in frames ==> R.Proper(f.ref) && MP.Pushable(f.index)
    ensures OnItsWay(r, W.Return(frames), root)
  {
    hide W.PushInvariant, MP.Pushable;
    if frames != [] {
      assert frames[|frames| - 1] in frames;
    }
  }

  lemma Descends(r: P.Registry, frames: seq<W.Frame>, child: P.Content, root: P.Content)
    requires var p' := W.Pushing(frames + [W.Frame(P.IdOf(child), child, 0)], W.Nothing); W.PushInvariant(r, p', root)
    requires MP.Pushable(child) && forall f :: f in frames ==> R.Proper(f.ref) && MP.Pushable(f.index)
    ensures OnItsWay(r, W.Pushing(frames + [W.Frame(P.IdOf(child), child, 0)], W.Nothing), root)
  {
    hide W.PushInvariant, MP.Pushable;
  }

  lemma StartsToWrite(r: P.Registry, frames: seq<W.Frame>, child: P.Content, root: P.Content, streamed: set<P.Digest>)
    requires child.ImageManifest?
    requires W.PushInvariant(r, W.Pushing(frames, W.For(W.StartWrite(P.IdOf(child), child, streamed))), root)
    requires forall f :: f in frames ==> R.Proper(f.ref) && MP.Pushable(f.index)
    ensures OnItsWay(r, W.Pushing(frames, W.For(W.StartWrite(P.IdOf(child), child, streamed))), root)
    ensures WriteLeft(W.StartWrite(P.IdOf(child), child, streamed)) <= Cost(child)
  {
    hide W.PushInvariant, MP.Pushable, AllFlow, W.LayerUploads, Cost, WriteLeft;
    WriteStarts(r, P.IdOf(child), child, streamed);
  }

  /** What is done with a child keeps the push on its way, and is one step less. */
  lemma ChildGoesOn(r: P.Registry, frames: seq<W.Frame>, root: P.Content, streamed: set<P.Digest>)
    requires frames != [] && W.PushInvariant(r, W.Pushing(frames, W.Nothing), root)
    requires forall f :: f in frames ==> R.Proper(f.ref) && MP.Pushable(f.index) && f.index.IndexManifest?
    requires frames[|frames| - 1].next < |frames[|frames| - 1].index.manifests|
    ensures var f := frames[|frames| - 1];
            var desc := f.index.manifests[f.next];
            var p' := W.ChildAction(P.ByDigest(desc.digest) in r.manifests, frames, desc, streamed);
            OnItsWay(r, p', root) && Indexes(p') && PushLeft(p') < PushLeft(W.Pushing(frames, W.Nothing))
  {
    hide W.PushInvariant, MP.Pushable, W.LayerUploads, CallersLeft, PushLeft, Cost, CostFrom, AllFlow, OnItsWay, WriteLeft;
    var f := frames[|frames| - 1];
    assert f in frames;
    var desc := f.index.manifests[f.next];
    var child := desc.digest.content;
    assert P.ByDigest(desc.digest) == P.IdOf(child);
    ChildKind(f.index, f.next);
    W.ChildActionKeeps(r, frames, root, streamed);
    ReturnLeft(frames);
    ChildLeft(frames);
    if P.ByDigest(desc.digest) in r.manifests {
      Returns(r, frames, root);
    } else if desc.mediaType.IsIndex() {
      Descends(r, frames, child, root);
      DescendLeft(frames, P.IdOf(child), child);
    } else {
      StartsToWrite(r, frames, child, root, streamed);
      WritingLeft(frames, W.StartWrite(P.IdOf(child), child, streamed));
    }
  }

  lemma WritingLeft(frames: seq<W.Frame>, x: W.Write)
    requires forall f :: f in frames ==> f.index.IndexManifest?
    ensures PushLeft(W.Pushing(frames, W.For(x))) == CallersLeft(frames) + WriteLeft(x)
  {
  }

  /** The children of an index have all been dealt with, so the registry takes it. */
  lemma IndexIsTaken(r: P.Registry, f: W.Frame)
    requires W.FrameInvariant(r, f) && MP.Pushable(f.index) && f.next >= |f.index.manifests|
    ensures R.Taken(r, f.index)
  {
    forall d | d in f.index.manifests
      ensures P.ByDigest(d.digest) in r.manifests
    {
      var k :| 0 <= k < |f.index.manifests| && f.index.manifests[k] == d;
      ChildKind(f.index, k);
    }
  }

  lemma CommitGoesOn(w: R.Wire, repo: string, srv: Server, r: P.Registry, frames: seq<W.Frame>, srv': Server, ok: bool, root: P.Content)
    requires R.Faithful(w) && Holds(w, repo, srv, r) && frames != [] && W.PushInvariant(r, W.Pushing(frames, W.Nothing), root)
    requires forall f :: f in frames ==> R.Proper(f.ref) && MP.Pushable(f.index) && f.index.IndexManifest?
    requires frames[|frames| - 1].next >= |frames[|frames| - 1].index.manifests|
    requires AnsweredCommit(w, repo, srv, frames[|frames| - 1].ref, frames[|frames| - 1].index, srv', ok)
    ensures var f, callers := frames[|frames| - 1], frames[..|frames| - 1];
            var r' := P.Put(r, f.ref, f.index);
            && ok && Holds(w, repo, srv', r') && P.Evolves(r, r')
            && OnItsWay(r', W.Return(callers), root) && Indexes(W.Return(callers))
            && PushLeft(W.Return(callers)) < PushLeft(W.Pushing(frames, W.Nothing))
  {
    var f, callers := frames[|frames| - 1], frames[..|frames| - 1];
    assert f in frames && W.FrameInvariant(r, f);
    hide R.Faithful, Holds, AnsweredCommit, P.Put, MP.Pushable, W.PushInvariant, W.FrameInvariant, OnItsWay, P.Evolves, CallersLeft, R.Taken;
    IndexIsTaken(r, f);
    CommitIsTaken(w, repo, srv, r, f.ref, f.index, srv', ok);
    NextIsLast(r, frames, root);
    W.CommitIndexKeeps(r, frames, root);
    Returns(P.Put(r, f.ref, f.index), callers, root);
    ReturnLeft(callers);
  }

  lemma NextIsLast(r: P.Registry, frames: seq<W.Frame>, root: P.Content)
    requires frames != [] && W.PushInvariant(r, W.Pushing(frames, W.Nothing), root)
    ensures frames[|frames| - 1].next <= |frames[|frames| - 1].index.manifests|
  {
    assert frames[|frames| - 1] in frames;
  }

  lemma WrittenGoesOn(r: P.Registry, r': P.Registry, frames: seq<W.Frame>, x: W.Write, o: W.Outcome, root: P.Content)
    requires OnItsWay(r, W.Pushing(frames, W.For(x)), root) && W.WriteStep(r, x, r', o) && !o.WriteFailed?
    requires o.Continues? ==> AllFlow(r', o.write.group)
    ensures var p' := if o.Continues? then W.Pushing(frames, W.For(o.write)) else W.Return(frames);
            OnItsWay(r', p', root) && P.Evolves(r, r')
  {
    hide W.WriteStep, AllFlow, MP.Pushable, P.Evolves, W.PushInvariant;
    var p := W.Pushing(frames, W.For(x));
    var p' := if o.Continues? then W.Pushing(frames, W.For(o.write)) else W.Return(frames);
    assert W.PushStep(r, p, r', p', {});
    W.PushStepKeeps(r, p, r', p', root, {});
    StaysProper(r, p, r', p', {});
    if o.Written? {
      assert AllFlow(r', GroupOf(p')) by {
        NothingFlows(r', GroupOf(p'));
      }
      hide W.PushStep;
      if frames != [] {
        assert frames[|frames| - 1] in frames;
      }
    }
  }

  lemma NothingFlows(r: P.Registry, group: seq<P.Upload>)
    requires group == []
    ensures AllFlow(r, group)
  {
  }

  /** An answered step keeps the push on its way and is one less to come. */
  lemma PushGoesOn(w: R.Wire, repo: string, srv: Server, r: P.Registry, p: W.Push, srv': Server, p': W.Push, root: P.Content,
                   streamed: set<P.Digest>) returns (r': P.Registry)
    requires R.Faithful(w) && Holds(w, repo, srv, r) && OnItsWay(r, p, root) && AnsweredPushStep(w, repo, srv, p, srv', p', streamed)
    ensures Holds(w, repo, srv', r') && P.Evolves(r, r') && OnItsWay(r', p', root)
    ensures Indexes(p) && Indexes(p') && PushLeft(p') < PushLeft(p)
  {
    InvariantParts(r, p, root);
    hide R.Faithful, Holds, OnItsWay, AnsweredWriteStep, AnsweredCommit, P.Put, W.ChildAction, HasManifest, W.PushInvariant, P.Evolves,
      AllFlow, MP.Pushable, CallersLeft, W.WriteStep, WriteLeft, W.WriteInvariant;
    var frames := p.frames;
    if p.writing.For? {
      var x := p.writing.write;
      var o :| AnsweredWriteStep(w, repo, srv, x, srv', o) &&
               match o
               case Continues(y) => p' == W.Pushing(frames, W.For(y))
               case Written => p' == W.Return(frames)
               case WriteFailed => p' == W.PushFailed;
      r' := WriteGoesOn(w, repo, srv, r, x, srv', o);
      WrittenGoesOn(r, r', frames, x, o, root);
      ReturnLeft(frames);
      WriteHasLeft(x);
    } else {
      var f := frames[|frames| - 1];
      if f.next < |f.index.manifests| {
        HasManifestWhenHeld(w, repo, srv, r, f.index.manifests[f.next].digest);
        ChildGoesOn(r, frames, root, streamed);
        r' := r;
        EvolvesItself(r);
      } else {
        var ok :| AnsweredCommit(w, repo, srv, f.ref, f.index, srv', ok)
                  && p' == if ok then W.Return(p.frames[..|p.frames| - 1]) else W.PushFailed;
        CommitGoesOn(w, repo, srv, r, frames, srv', ok, root);
        r' := P.Put(r, f.ref, f.index);
      }
    }
  }

  lemma EvolvesItself(r: P.Registry)
    ensures P.Evolves(r, r)
  {
  }

  lemma WriteHasLeft(x: W.Write)
    ensures WriteLeft(x) > 0
  {
  }

  lemma InvariantParts(r: P.Registry, p: W.Push, root: P.Content)
    requires OnItsWay(r, p, root)
    ensures Indexes(p) && AllFlow(r, GroupOf(p))
    ensures p.Pushing? ==>
      && W.PushInvariant(r, p, root)
      && (forall f :: f in p.frames ==> R.Proper(f.ref) && MP.Pushable(f.index) && f.index.IndexManifest?)
      && (p.writing.For? ==> R.Proper(p.writing.write.ref) && W.WriteInvariant(r, p.writing.write))
      && (p.frames == [] ==> p.writing.For?)
  {
    hide MP.Pushable, W.WriteInvariant;
    if p.Pushing? {
      forall f | f in p.frames
        ensures f.index.IndexManifest?
      {
        assert W.FrameInvariant(r, f);
      }
    }
  }

  /** As long as a push is not over some answer is to come. */
  lemma SomeAnswer(w: R.Wire, repo: string, srv: Server, r: P.Registry, p: W.Push, root: P.Content, streamed: set<P.Digest>)
    returns (srv': Server, p': W.Push)
    requires Holds(w, repo, srv, r) && OnItsWay(r, p, root) && p.Pushing?
    ensures AnsweredPushStep(w, repo, srv, p, srv', p', streamed)
  {
    InvariantParts(r, p, root);
    hide Holds, OnItsWay, AnsweredCommit, AnsweredUpload, W.ChildAction, HasManifest, W.PushInvariant, MP.Pushable, W.WriteInvariant;
    var frames := p.frames;
    srv', p' := srv, p;
    if p.writing.For? {
      var x := p.writing.write;
      if i :| 0 <= i < |x.group| && !x.group[i].Uploaded? {
        EachFlows(r, x.group, i);
        var u';
        srv', u' := UploadIsAnswered(w, repo, srv, r, x.group[i], Held(x.group));
        var o := W.Continues(x.(group := x.group[i := u']));
        assert AnsweredWriteStep(w, repo, srv, x, srv', o);
        p' := W.Pushing(frames, W.For(o.write));
      } else if !x.configStarted {
        ImageInHand(r, x);
        var o := W.Continues(x.(group := x.group + [P.Check(x.image.config)], configStarted := true));
        assert AnsweredWriteStep(w, repo, srv, x, srv', o);
        p' := W.Pushing(frames, W.For(o.write));
      } else {
        var ok;
        srv', ok := CommitIsAnswered(w, repo, srv, x.ref, x.image);
        var o := if ok then W.Written else W.WriteFailed;
        assert AnsweredWriteStep(w, repo, srv, x, srv', o);
        p' := if ok then W.Return(frames) else W.PushFailed;
      }
    } else {
      var f := frames[|frames| - 1];
      assert f in frames;
      if f.next < |f.index.manifests| {
        var desc := f.index.manifests[f.next];
        p' := W.ChildAction(HasManifest(w, repo, srv, desc.digest), frames, desc, streamed);
      } else {
        var ok;
        srv', ok := CommitIsAnswered(w, repo, srv, f.ref, f.index);
        p' := if ok then W.Return(frames[..|frames| - 1]) else W.PushFailed;
      }
    }
  }

  lemma ImageInHand(r: P.Registry, x: W.Write)
    requires W.WriteInvariant(r, x)
    ensures x.image.ImageManifest?
  {
  }

  lemma CommitIsAnswered(w: R.Wire, repo: string, srv: Server, ref: P.Ref, m: P.Content) returns (srv': Server, ok: bool)
    ensures AnsweredCommit(w, repo, srv, ref, m, srv', ok)
  {
    hide M.Handle;
    var (reply, manifests) := M.Handle(w.codec, srv.manifests, R.CommitRequest(w, repo, ref, m));
    srv', ok := srv.(manifests := manifests), reply.Stored?;
  }

  // ---------------------------------------------------------------- runs of one push

  /** What others do is, on whatever ideal registry the server holds, as OthersEvolve says. */
  ghost predicate OthersLeave(w: R.Wire, repo: string, srv: Server, srv': Server, held: set<nat>) {
    forall r :: Holds(w, repo, srv, r) ==> exists r' :: Holds(w, repo, srv', r') && OthersEvolve(r, r', held)
  }

  ghost predicate IsAnsweredRun(w: R.Wire, repo: string, run: seq<State>, ref: P.Ref, root: P.Content, streamed: set<P.Digest>) {
    && run != [] && MP.Pushable(root) && W.RefFits(ref, root) && R.Proper(ref)
    && run[0].push == W.StartPush(ref, root, streamed)
    && forall i :: 0 <= i < |run| - 1 ==>
         || AnsweredPushStep(w, repo, run[i].server, run[i].push, run[i + 1].server, run[i + 1].push, streamed)
         || (OthersLeave(w, repo, run[i].server, run[i + 1].server, Held(GroupOf(run[i].push))) && run[i + 1].push == run[i].push)
  }

  /** How many of the first n steps are answers to the push. */
  ghost function Answers(w: R.Wire, repo: string, run: seq<State>, streamed: set<P.Digest>, n: nat): nat
    requires n < |run|
  {
    if n == 0 then 0
    else Answers(w, repo, run, streamed, n - 1)
         + if AnsweredPushStep(w, repo, run[n - 1].server, run[n - 1].push, run[n].server, run[n].push, streamed) then 1 else 0
  }

  lemma StartsOnItsWay(r: P.Registry, ref: P.Ref, root: P.Content, streamed: set<P.Digest>)
    requires MP.Pushable(root) && W.RefFits(ref, root) && R.Proper(ref)
    ensures var p := W.StartPush(ref, root, streamed);
            OnItsWay(r, p, root) && Indexes(p) && PushLeft(p) <= Cost(root)
  {
    hide W.LayerUploads, MP.Collectable;
    if root.ImageManifest? {
      W.StartWriteInvariant(r, ref, root, streamed);
      WriteStarts(r, ref, root, streamed);
    } else {
      assert [W.Frame(ref, root, 0)][..0] == [];
    }
  }

  lemma StillOnItsWay(r: P.Registry, r': P.Registry, p: W.Push, root: P.Content)
    requires OnItsWay(r, p, root) && OthersEvolve(r, r', Held(GroupOf(p)))
    ensures OnItsWay(r', p, root)
  {
    hide W.PushInvariant, AllFlow, P.Evolves, MP.Pushable;
    W.PushInvariantSurvives(r, r', p, root);
    OthersLetFlow(r, r', GroupOf(p));
  }

  lemma {:induction false} AnsweredRunInvariant(w: R.Wire, repo: string, run: seq<State>, ref: P.Ref, root: P.Content,
                                                streamed: set<P.Digest>, first: P.Registry, n: nat) returns (r: P.Registry)
    requires n < |run| && R.Faithful(w) && IsAnsweredRun(w, repo, run, ref, root, streamed)
    requires Holds(w, repo, run[0].server, first) && P.Closed(first)
    ensures Holds(w, repo, run[n].server, r) && P.Closed(r) && OnItsWay(r, run[n].push, root) && Indexes(run[n].push)
    ensures Answers(w, repo, run, streamed, n) + PushLeft(run[n].push) <= Cost(root)
  {
    hide R.Faithful, Holds, P.Closed, AnsweredPushStep, OnItsWay, OthersEvolve, PushLeft, Indexes, MP.Pushable, W.RefFits;
    if n == 0 {
      r := first;
      StartsOnItsWay(r, ref, root, streamed);
    } else {
      var before := AnsweredRunInvariant(w, repo, run, ref, root, streamed, first, n - 1);
      var s, s' := run[n - 1], run[n];
      if AnsweredPushStep(w, repo, s.server, s.push, s'.server, s'.push, streamed) {
        r := PushGoesOn(w, repo, s.server, before, s.push, s'.server, s'.push, root, streamed);
        EvolvesClosed(before, r);
      } else {
        r :| Holds(w, repo, s'.server, r) && OthersEvolve(before, r, Held(GroupOf(s.push)));
        StillOnItsWay(before, r, s.push, root);
        OthersKeepClosed(before, r, Held(GroupOf(s.push)));
      }
    }
  }

  lemma EvolvesClosed(r: P.Registry, r': P.Registry)
    requires P.Closed(r) && P.Evolves(r, r')
    ensures P.Closed(r')
  {
  }

  lemma OthersKeepClosed(r: P.Registry, r': P.Registry, held: set<nat>)
    requires P.Closed(r) && OthersEvolve(r, r', held)
    ensures P.Closed(r')
  {
  }

  /** When every request of a Write or WriteIndex is answered, the push of a tree of images and indexes
      never fails, takes at most so many requests and steps, and when no answer is to come any more it
      has succeeded, and the whole tree can be pulled. */
  lemma PushSucceeds(w: R.Wire, repo: string, run: seq<State>, ref: P.Ref, root: P.Content, streamed: set<P.Digest>,
                     first: P.Registry, n: nat)
    requires n < |run| && R.Faithful(w) && IsAnsweredRun(w, repo, run, ref, root, streamed)
    requires Holds(w, repo, run[0].server, first) && P.Closed(first)
    ensures !run[n].push.PushFailed? && Answers(w, repo, run, streamed, n) <= Cost(root)
    ensures (forall srv', p' :: !AnsweredPushStep(w, repo, run[n].server, run[n].push, srv', p', streamed)) ==>
              run[n].push.Pushed? && Serves(w, repo, run[n].server, root)
  {
    hide R.Faithful, Holds, P.Closed, AnsweredPushStep, IsAnsweredRun, W.PushInvariant, AllFlow, Serves, P.TreePresent, MP.Pushable;
    var r := AnsweredRunInvariant(w, repo, run, ref, root, streamed, first, n);
    if run[n].push.Pushing? {
      var srv', p' := SomeAnswer(w, repo, run[n].server, r, run[n].push, root, streamed);
    } else {
      PushedIsThere(r, run[n].push, root);
      P.RootMeansTree(r, root);
      PresentIsServed(w, repo, run[n].server, r, root);
    }
  }

  /** Answered steps are among the steps that ServedPush is about. */
  lemma AnsweredIsServed(w: R.Wire, repo: string, srv: Server, p: W.Push, srv': Server, p': W.Push, streamed: set<P.Digest>)
    requires AnsweredPushStep(w, repo, srv, p, srv', p', streamed)
    ensures ServedPushStep(w, repo, srv, p, srv', p', streamed)
  {
    hide B.Handle, M.Handle, W.ChildAction, HasManifest, Held;
    if p.writing.For? {
      var x := p.writing.write;
      var o :| AnsweredWriteStep(w, repo, srv, x, srv', o) &&
               match o
               case Continues(y) => p' == W.Pushing(p.frames, W.For(y))
               case Written => p' == W.Return(p.frames)
               case WriteFailed => p' == W.PushFailed;
      if i, u' :| 0 <= i < |x.group| && AnsweredUpload(w, repo, srv, x.group[i], srv', u', Held(x.group))
                  && o == W.Continues(x.(group := x.group[i := u'])) {
        assert ServedUpload(w, repo, srv, x.group[i], srv', u');
      } else if ok :| AnsweredCommit(w, repo, srv, x.ref, x.image, srv', ok) && o == if ok then W.Written else W.WriteFailed {
        assert ServedCommit(w, repo, srv, x.ref, x.image, srv', ok);
      }
      assert ServedWriteStep(w, repo, srv, x, srv', o);
    } else {
      var f := p.frames[|p.frames| - 1];
      if ok :| AnsweredCommit(w, repo, srv, f.ref, f.index, srv', ok)
               && p' == if ok then W.Return(p.frames[..|p.frames| - 1]) else W.PushFailed {
        assert ServedCommit(w, repo, srv, f.ref, f.index, srv', ok);
      }
    }
  }

  /** On a registry that has just been started. */
  lemma FreshPushSucceeds(w: R.Wire, repo: string, run: seq<State>, ref: P.Ref, root: P.Content, streamed: set<P.Digest>, n: nat)
    requires n < |run| && R.Faithful(w) && IsAnsweredRun(w, repo, run, ref, root, streamed)
    requires run[0].server == Server(B.EMPTY, map[])
    requires forall srv', p' :: !AnsweredPushStep(w, repo, run[n].server, run[n].push, srv', p', streamed)
    ensures run[n].push.Pushed? && Serves(w, repo, run[n].server, root)
  {
    hide R.Faithful, Holds, P.Closed, AnsweredPushStep, IsAnsweredRun, Serves;
    EmptyServer(w, repo);
    PushSucceeds(w, repo, run, ref, root, streamed, P.Registry({}, map[], map[]), n);
  }

  lemma PushedIsThere(r: P.Registry, p: W.Push, root: P.Content)
    requires OnItsWay(r, p, root) && p.Pushed?
    ensures P.IdOf(root) in r.manifests
  {
  }
}
