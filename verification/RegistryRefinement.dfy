/** The requests of the push protocols, answered by the in-memory registry: the handlers of
    pkg/registry refine the ideal registry that the protocols of pkg/v1/remote are proved
    against. */
module RegistryRefinement {
  import opened Common
  import B = BlobStore
  import M = ManifestStore
  import P = PushServer

  /** How contents travel: their bytes, digests and media types, and the names of uploads. */
  datatype Wire = Wire(codec: M.Codec, encode: P.Content -> Bytes, contentType: P.Content -> string,
                       uploadID: nat -> string)

  /** The digest string of a content. */
  function Digest(w: Wire, d: P.Digest): string { w.codec.hash(w.encode(d.content)) }

  /** The last element of a manifest URL. */
  function Key(w: Wire, ref: P.Ref): string {
    match ref
    case ByDigest(d) => Digest(w, d)
    case ByTag(t) => t
  }

  function Children(w: Wire, m: P.Content): seq<string>
    requires m.IndexManifest?
  {
    seq(|m.manifests|, i requires 0 <= i < |m.manifests| => Digest(w, m.manifests[i].digest))
  }

  /** No collisions; digest strings have a colon; an index is sent as one and lists its children. */
  ghost predicate Faithful(w: Wire) {
    && Injective(w.codec.hash) && Injective(w.encode) && Injective(w.uploadID)
    && (forall b :: ':' in w.codec.hash(b))
    && (forall i :: w.uploadID(i) != "")
    && w.encode(P.Blob("")) == []
    && (forall m :: M.IsIndex(w.contentType(m)) <==> m.IndexManifest?)
    && (forall m: P.Content :: m.IndexManifest? ==> w.codec.parse(w.encode(m)) == Some(Children(w, m)))
  }

  /** Tags have no colon. */
  predicate Proper(ref: P.Ref) { ref.ByTag? ==> ':' !in ref.tag }

  /** The blob store holds the registry's blobs and its open uploads. */
  ghost predicate HoldsBlobs(w: Wire, s: B.Store, r: P.Registry) {
    && (forall d :: d in r.blobs <==> Digest(w, d) in s.contents)
    && (forall i :: i in r.uploads <==> w.uploadID(i) in s.uploads)
    && (forall i :: i in r.uploads ==> s.uploads[w.uploadID(i)] == w.encode(r.uploads[i]))
  }

  /** A repository of the manifest store holds the registry's manifests. */
  ghost predicate HoldsManifests(w: Wire, entries: map<string, M.Manifest>, r: P.Registry) {
    && (forall ref :: ref in r.manifests ==> Proper(ref))
    && (forall ref :: Proper(ref) ==> (ref in r.manifests <==> Key(w, ref) in entries))
    && (forall ref :: ref in r.manifests ==> entries[Key(w, ref)] == Sent(w, r.manifests[ref]))
  }

  function Sent(w: Wire, m: P.Content): M.Manifest { M.Manifest(w.contentType(m), w.encode(m)) }

  // ---------------------------------------------------------------- uploads

  /** The request of an upload in each of its states. */
  function RequestOf(w: Wire, repo: string, u: P.Upload): B.Request
    requires !u.Uploaded? && !u.UploadFailed?
  {
    match u
    case Check(d) => B.Request(B.HEAD, ["v2", repo, "blobs", Digest(w, d)], "", B.Absent, [])
    case Initiate(_, _) => B.Request(B.POST, ["v2", repo, "blobs", "uploads", ""], "", B.Absent, [])
    case Stream(d, id, _) =>
      B.Request(B.PATCH, ["v2", repo, "blobs", "uploads", w.uploadID(id)], "", B.Absent, w.encode(d.content))
    case Commit(d, id, _) =>
      B.Request(B.PUT, ["v2", repo, "blobs", "uploads", w.uploadID(id)], Digest(w, d), B.Absent, [])
  }

  /** isBlob: whether the registry hands a path to the blob handler. */
  predicate IsBlob(elem: seq<string>) {
    var e := B.Trim(elem);
    |e| >= 3 && (e[|e| - 2] == "blobs" || (e[|e| - 3] == "blobs" && e[|e| - 2] == "uploads"))
  }

  /** The requests of an upload are HEAD, POST, PATCH and PUT, all of them for the blob handler and for the
      blob or the upload that they are about. */
  lemma RequestsAreRouted(w: Wire, repo: string, u: P.Upload)
    requires Faithful(w) && !u.Uploaded? && !u.UploadFailed?
    ensures var q := RequestOf(w, repo, u);
            && IsBlob(q.elem) && B.HasTarget(q) && q.elem[..3] == ["v2", repo, "blobs"]
            && match u
               case Check(d) => q.verb == B.HEAD && B.Target(q) == w.codec.hash(w.encode(d.content))
               case Initiate(_, _) => q.verb == B.POST && B.Target(q) == "uploads" && q.digest == ""
               case Stream(d, id, _) => q.verb == B.PATCH && B.OnUpload(q, w.uploadID(id)) && q.body == w.encode(d.content)
               case Commit(d, id, _) =>
                 q.verb == B.PUT && B.OnUpload(q, w.uploadID(id)) && q.digest == w.codec.hash(w.encode(d.content)) && q.body == []
  {
    var q := RequestOf(w, repo, u);
    if u.Check? {
      assert ':' in w.codec.hash(w.encode(u.blob.content));
    }
    assert u.Initiate? ==> B.Trim(q.elem) == ["v2", repo, "blobs", "uploads"];
    assert (u.Stream? || u.Commit?) ==> w.uploadID(u.id) != "" && B.Trim(q.elem) == q.elem;
  }

  /** What the client makes of the reply; `id` is the upload that a POST has opened. */
  function NextUpload(u: P.Upload, reply: B.Response, id: nat): P.Upload
    requires !u.Uploaded? && !u.UploadFailed?
  {
    match u
    case Check(d) => if reply.Header? then P.Uploaded(d) else P.Initiate(d, P.UPLOAD_STEPS)
    case Initiate(d, n) => P.Stream(d, id, n)
    case Stream(d, i, n) => if reply.Rejected? then P.UploadFailed(d) else P.Commit(d, i, n)
    case Commit(d, _, _) => if reply.Rejected? then P.UploadFailed(d) else P.Uploaded(d)
  }

  function NextRegistry(r: P.Registry, u: P.Upload, reply: B.Response): P.Registry {
    match u
    case Stream(d, i, _) => if reply.Rejected? then r else r.(uploads := r.uploads[i := d.content])
    case Commit(d, i, _) =>
      if reply.Rejected? then r else r.(blobs := r.blobs + {d}, uploads := r.uploads - {i})
    case _ => r
  }

  /** Every request of an upload, answered by the blob handler, is a step of the ideal
      registry, and the handler's store keeps holding what the ideal registry holds. */
  lemma UploadRefines(w: Wire, s: B.Store, r: P.Registry, repo: string, u: P.Upload, id: nat)
    requires Faithful(w) && HoldsBlobs(w, s, r)
    requires !u.Uploaded? && !u.UploadFailed?
    requires u.Initiate? ==> id !in r.uploads
    ensures var (reply, s') := B.Handle(w.codec.hash, s, RequestOf(w, repo, u));
            && P.UploadStep(r, u, NextRegistry(r, u, reply), NextUpload(u, reply, id))
            && HoldsBlobs(w, s', NextRegistry(r, u, reply))
  {
    match u
    case Check(d) => CheckRefines(w, s, r, repo, d);
    case Initiate(_, _) => InitiateChangesNothing(w, s, repo, u);
    case Stream(d, i, n) => StreamRefines(w, s, r, repo, d, i, n);
    case Commit(d, i, n) => CommitRefines(w, s, r, repo, d, i, n);
  }

  lemma InitiateChangesNothing(w: Wire, s: B.Store, repo: string, u: P.Upload)
    requires u.Initiate?
    ensures B.Handle(w.codec.hash, s, RequestOf(w, repo, u)).1 == s
  {
    assert B.Trim(RequestOf(w, repo, u).elem) == ["v2", repo, "blobs", "uploads"];
  }

  lemma CheckRefines(w: Wire, s: B.Store, r: P.Registry, repo: string, d: P.Digest)
    requires Faithful(w) && HoldsBlobs(w, s, r)
    ensures var (reply, s') := B.Handle(w.codec.hash, s, RequestOf(w, repo, P.Check(d)));
            s' == s && (reply.Header? <==> d in r.blobs)
  {
    var q := RequestOf(w, repo, P.Check(d));
    assert Digest(w, d) != "" by {
      assert ':' in w.codec.hash(w.encode(d.content));
    }
    assert B.Trim(q.elem) == q.elem;
  }

  lemma StreamRefines(w: Wire, s: B.Store, r: P.Registry, repo: string, d: P.Digest, i: nat, n: nat)
    requires Faithful(w) && HoldsBlobs(w, s, r)
    ensures var (reply, s') := B.Handle(w.codec.hash, s, RequestOf(w, repo, P.Stream(d, i, n)));
            && (reply.Rejected? <==> i in r.uploads)
            && HoldsBlobs(w, s', NextRegistry(r, P.Stream(d, i, n), reply))
  {
    var q := RequestOf(w, repo, P.Stream(d, i, n));
    assert w.uploadID(i) != "";
    assert B.Trim(q.elem) == q.elem;
    assert [] + w.encode(d.content) == w.encode(d.content);
  }

  lemma CommitRefines(w: Wire, s: B.Store, r: P.Registry, repo: string, d: P.Digest, i: nat, n: nat)
    requires Faithful(w) && HoldsBlobs(w, s, r)
    ensures var (reply, s') := B.Handle(w.codec.hash, s, RequestOf(w, repo, P.Commit(d, i, n)));
            && (reply.Rejected? <==> P.Sha256(P.Written(r, i)) != d)
            && HoldsBlobs(w, s', NextRegistry(r, P.Commit(d, i, n), reply))
  {
    var q := RequestOf(w, repo, P.Commit(d, i, n));
    assert w.uploadID(i) != "";
    assert B.Trim(q.elem) == q.elem;
    var buffer := B.Buffer(s, w.uploadID(i));
    assert buffer + [] == buffer == w.encode(P.Written(r, i));
    SameDigest(w, P.Sha256(P.Written(r, i)), d);
    forall e
      ensures Digest(w, e) == Digest(w, d) <==> e == d
    {
      SameDigest(w, e, d);
    }
    assert w.codec.hash(buffer) == Digest(w, P.Sha256(P.Written(r, i)));
    assert Digest(w, d) != "" by {
      assert ':' in w.codec.hash(w.encode(d.content));
    }
  }

  lemma SameDigest(w: Wire, d: P.Digest, e: P.Digest)
    requires Faithful(w)
    ensures Digest(w, d) == Digest(w, e) <==> d == e
  {
  }

  // ---------------------------------------------------------------- manifests

  function CommitRequest(w: Wire, repo: string, ref: P.Ref, m: P.Content): M.Request {
    M.Request(M.PUT, repo, Key(w, ref), w.contentType(m), w.encode(m))
  }

  /** The registry takes a manifest unless it is an index with an unknown child of any kind. */
  ghost predicate Taken(r: P.Registry, m: P.Content) {
    m.IndexManifest? ==> forall d :: d in m.manifests ==> P.ByDigest(d.digest) in r.manifests
  }

  lemma AcceptableWhenTaken(w: Wire, s: M.Repos, repo: string, r: P.Registry, ref: P.Ref, m: P.Content)
    requires Faithful(w) && HoldsManifests(w, M.Entries(s, repo), r)
    ensures M.Acceptable(w.codec, s, CommitRequest(w, repo, ref, m)) <==> Taken(r, m)
  {
    if m.IndexManifest? {
      var children := Children(w, m);
      assert w.codec.parse(w.encode(m)) == Some(children);
      forall d | d in m.manifests
        ensures Digest(w, d.digest) in children
        ensures P.ByDigest(d.digest) in r.manifests <==> Digest(w, d.digest) in M.Entries(s, repo)
      {
        var i :| 0 <= i < |m.manifests| && m.manifests[i] == d;
        assert children[i] == Digest(w, d.digest);
        assert Key(w, P.ByDigest(d.digest)) == Digest(w, d.digest) && Proper(P.ByDigest(d.digest));
      }
      forall k | k in children
        ensures exists d :: d in m.manifests && Digest(w, d.digest) == k
      {
        var i :| 0 <= i < |children| && children[i] == k;
        assert m.manifests[i] in m.manifests;
      }
    } else {
      assert !M.IsIndex(w.contentType(m));
    }
  }

  lemma SameKey(w: Wire, a: P.Ref, b: P.Ref)
    requires Faithful(w) && Proper(a) && Proper(b)
    ensures Key(w, a) == Key(w, b) <==> a == b
  {
    if a.ByDigest? && b.ByDigest? {
      SameDigest(w, a.digest, b.digest);
    } else if a.ByDigest? {
      assert ':' in w.codec.hash(w.encode(a.digest.content));
    } else if b.ByDigest? {
      assert ':' in w.codec.hash(w.encode(b.digest.content));
    }
  }

  /** Committing a manifest, answered by the manifest handler, is the ideal registry's PUT
      when it is accepted and changes no manifest when it is not. */
  lemma CommitManifestRefines(w: Wire, s: M.Repos, repo: string, r: P.Registry, ref: P.Ref, m: P.Content)
    requires Faithful(w) && HoldsManifests(w, M.Entries(s, repo), r) && Proper(ref)
    ensures var (reply, s') := M.Handle(w.codec, s, CommitRequest(w, repo, ref, m));
            && (reply.Stored? <==> Taken(r, m))
            && HoldsManifests(w, M.Entries(s', repo), if Taken(r, m) then P.Put(r, ref, m) else r)
  {
    AcceptableWhenTaken(w, s, repo, r, ref, m);
    PutEntries(w.codec, s, CommitRequest(w, repo, ref, m));
    PutHolds(w, M.Entries(s, repo), r, ref, m);
    hide Faithful, HoldsManifests, M.Handle, M.Entries, M.Acceptable, Taken;
  }

  lemma PutEntries(c: M.Codec, s: M.Repos, q: M.Request)
    requires q.verb == M.PUT
    ensures var (reply, s') := M.Handle(c, s, q);
            && (reply.Stored? <==> M.Acceptable(c, s, q))
            && M.Entries(s', q.repo) ==
               if M.Acceptable(c, s, q) then
                 M.Entries(s, q.repo)[q.target := M.Manifest(q.contentType, q.body)]
                                     [c.hash(q.body) := M.Manifest(q.contentType, q.body)]
               else M.Entries(s, q.repo)
  {
    hide M.Acceptable;
  }

  lemma PutHolds(w: Wire, entries: map<string, M.Manifest>, r: P.Registry, ref: P.Ref, m: P.Content)
    requires Faithful(w) && HoldsManifests(w, entries, r) && Proper(ref)
    ensures HoldsManifests(w, entries[Key(w, ref) := Sent(w, m)][w.codec.hash(w.encode(m)) := Sent(w, m)], P.Put(r, ref, m))
  {
    hide Faithful, Sent;
    forall a, b | Proper(a) && Proper(b)
      ensures Key(w, a) == Key(w, b) <==> a == b
    {
      SameKey(w, a, b);
    }
    assert Key(w, P.IdOf(m)) == w.codec.hash(w.encode(m)) && Proper(P.IdOf(m));
    hide Proper, Key;
  }

  /** An index whose children are all images and indexes is taken as soon as they are there. */
  lemma SatisfiedIsTaken(r: P.Registry, m: P.Content)
    requires m.IndexManifest? ==> forall d :: d in m.manifests ==> d.mediaType.IsIndex() || d.mediaType.IsImage()
    requires P.Satisfied(r, m)
    ensures Taken(r, m)
  {
    if m.IndexManifest? {
      forall d | d in m.manifests
        ensures P.ByDigest(d.digest) in r.manifests
      {
        assert d.digest in P.ChildrenOf(m);
      }
    }
  }

  // ---------------------------------------------------------------- pulling

  function GetBlob(w: Wire, repo: string, d: P.Digest): B.Request {
    B.Request(B.GET, ["v2", repo, "blobs", Digest(w, d)], "", B.Absent, [])
  }

  function GetManifest(w: Wire, repo: string, ref: P.Ref): M.Request {
    M.Request(M.GET, repo, Key(w, ref), "", [])
  }

  /** So is a pull: a GET of the blob, and of the manifest by digest or tag. */
  lemma PullsAreRouted(w: Wire, repo: string, d: P.Digest, ref: P.Ref)
    requires Faithful(w)
    ensures var q := GetBlob(w, repo, d);
            q.verb == B.GET && q.elem == ["v2", repo, "blobs", w.codec.hash(w.encode(d.content))] && IsBlob(q.elem)
    ensures var q := GetManifest(w, repo, ref);
            && q.verb == M.GET && q.repo == repo
            && q.target == match ref case ByDigest(e) => w.codec.hash(w.encode(e.content)) case ByTag(t) => t
  {
    assert ':' in w.codec.hash(w.encode(d.content));
  }

  lemma BlobIsServed(w: Wire, s: B.Store, r: P.Registry, repo: string, d: P.Digest)
    requires Faithful(w) && HoldsBlobs(w, s, r) && B.ContentAddressed(w.codec.hash, s) && d in r.blobs
    ensures B.Handle(w.codec.hash, s, GetBlob(w, repo, d)).0 == B.Content(w.encode(d.content), Digest(w, d))
  {
    assert Digest(w, d) != "" by {
      assert ':' in w.codec.hash(w.encode(d.content));
    }
    assert B.Trim(GetBlob(w, repo, d).elem) == GetBlob(w, repo, d).elem;
    assert w.codec.hash(s.contents[Digest(w, d)]) == Digest(w, d);
  }

  lemma ManifestIsServed(w: Wire, s: M.Repos, r: P.Registry, repo: string, ref: P.Ref)
    requires HoldsManifests(w, M.Entries(s, repo), r) && ref in r.manifests
    ensures var m := r.manifests[ref];
            M.Handle(w.codec, s, GetManifest(w, repo, ref)).0
            == M.Content(w.encode(m), w.codec.hash(w.encode(m)), w.contentType(m))
  {
    assert Proper(ref) && Key(w, ref) in M.Entries(s, repo);
  }

  /** While the ideal registry is closed, which every push keeps, whoever pulls a manifest gets
      its bytes back, and then the bytes of every blob and every child it refers to. */
  lemma PullGivesBackWhatWasPushed(w: Wire, s: B.Store, repos: M.Repos, repo: string, r: P.Registry, ref: P.Ref)
    requires Faithful(w) && HoldsBlobs(w, s, r) && HoldsManifests(w, M.Entries(repos, repo), r)
    requires B.ContentAddressed(w.codec.hash, s) && P.Closed(r) && ref in r.manifests
    ensures var m := r.manifests[ref];
      && M.Handle(w.codec, repos, GetManifest(w, repo, ref)).0
         == M.Content(w.encode(m), w.codec.hash(w.encode(m)), w.contentType(m))
      && (forall d :: d in P.BlobsOf(m) ==>
            B.Handle(w.codec.hash, s, GetBlob(w, repo, d)).0 == B.Content(w.encode(d.content), Digest(w, d)))
      && (forall d :: d in P.ChildrenOf(m) ==>
            M.Handle(w.codec, repos, GetManifest(w, repo, P.ByDigest(d))).0
            == M.Content(w.encode(d.content), Digest(w, d), w.contentType(d.content)))
  {
    var m := r.manifests[ref];
    assert P.Satisfied(r, m);
    ManifestIsServed(w, repos, r, repo, ref);
    forall d | d in P.BlobsOf(m)
      ensures B.Handle(w.codec.hash, s, GetBlob(w, repo, d)).0 == B.Content(w.encode(d.content), Digest(w, d))
    {
      BlobIsServed(w, s, r, repo, d);
    }
    forall d | d in P.ChildrenOf(m)
      ensures M.Handle(w.codec, repos, GetManifest(w, repo, P.ByDigest(d))).0
              == M.Content(w.encode(d.content), Digest(w, d), w.contentType(d.content))
    {
      ManifestIsServed(w, repos, r, repo, P.ByDigest(d));
    }
    hide B.Handle, M.Handle, HoldsBlobs, HoldsManifests, Faithful;
  }
}
