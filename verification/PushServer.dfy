/** What the push protocols of pkg/v1/remote talk to: a registry as a set of blobs and a map
    of manifests, and the steps of one blob upload against it.

    Digests are ideal: a digest is its own preimage, so hashing and serialising are
    injective by construction and an index is a finite tree. */
module PushServer {

  datatype MediaType =
    | OCIImageIndex | DockerManifestList
    | OCIManifestSchema1 | DockerManifestSchema2
    | DockerForeignLayer | OCIRestrictedLayer | OCIUncompressedRestrictedLayer
    | OtherType(name: string)
  {
    predicate IsIndex() { OCIImageIndex? || DockerManifestList? }
    predicate IsImage() { OCIManifestSchema1? || DockerManifestSchema2? }
    predicate IsDistributable() {
      !DockerForeignLayer? && !OCIRestrictedLayer? && !OCIUncompressedRestrictedLayer?
    }
  }

  /** Which media types are which; none is two of them. */
  lemma MediaTypeKinds(mt: MediaType)
    ensures mt.IsIndex() <==> mt in {OCIImageIndex, DockerManifestList}
    ensures mt.IsImage() <==> mt in {OCIManifestSchema1, DockerManifestSchema2}
    ensures !mt.IsDistributable() <==> mt in {DockerForeignLayer, OCIRestrictedLayer, OCIUncompressedRestrictedLayer}
  {
  }

  datatype Digest = Sha256(content: Content)

  datatype Descriptor = Descriptor(mediaType: MediaType, digest: Digest)

  datatype Content =
    | Blob(bytes: string)
    | ImageManifest(config: Digest, layers: seq<Descriptor>)
    | IndexManifest(manifests: seq<Descriptor>)

  /** The last part of a manifest URL. */
  datatype Ref = ByDigest(digest: Digest) | ByTag(tag: string)

  datatype Registry = Registry(blobs: set<Digest>, uploads: map<nat, Content>, manifests: map<Ref, Content>)

  function IdOf(m: Content): Ref { ByDigest(Sha256(m)) }

  /** PUT of a manifest stores it under the target and under its own digest. */
  function Put(r: Registry, ref: Ref, m: Content): Registry {
    r.(manifests := r.manifests[ref := m][IdOf(m) := m])
  }

  // ---------------------------------------------------------------- referential integrity

  function BlobsOf(m: Content): set<Digest> {
    if m.ImageManifest? then {m.config} + set l | l in m.layers && l.mediaType.IsDistributable() :: l.digest
    else {}
  }

  function ChildrenOf(m: Content): set<Digest> {
    if m.IndexManifest? then
      set d | d in m.manifests && (d.mediaType.IsIndex() || d.mediaType.IsImage()) :: d.digest
    else {}
  }

  ghost predicate Satisfied(r: Registry, m: Content) {
    && BlobsOf(m) <= r.blobs
    && forall d :: d in ChildrenOf(m) ==> ByDigest(d) in r.manifests
  }

  /** Everything a stored manifest refers to is stored, and a digest names its content. */
  ghost predicate Closed(r: Registry) {
    && (forall ref :: ref in r.manifests ==> Satisfied(r, r.manifests[ref]))
    && (forall d :: ByDigest(d) in r.manifests ==> r.manifests[ByDigest(d)] == d.content)
  }

  /** What every client may rely on and guarantees: integrity is kept, and blobs and
      manifests addressed by digest stay. */
  ghost predicate Evolves(r: Registry, r': Registry) {
    && (Closed(r) ==> Closed(r'))
    && r.blobs <= r'.blobs
    && forall d :: ByDigest(d) in r.manifests ==> ByDigest(d) in r'.manifests
  }

  /** Committing a manifest keeps integrity when what it refers to is there, and its
      target, if a digest, is its own. */
  lemma PutEvolves(r: Registry, ref: Ref, m: Content)
    requires Satisfied(r, m) && (ref.ByDigest? ==> ref == IdOf(m))
    ensures Evolves(r, Put(r, ref, m))
    ensures IdOf(m) in Put(r, ref, m).manifests
  {
    var r' := Put(r, ref, m);
    if Closed(r) {
      forall k | k in r'.manifests
        ensures Satisfied(r', r'.manifests[k])
      {
      }
    }
  }

  /** The whole tree under a manifest is in the registry. */
  ghost predicate TreePresent(r: Registry, m: Content)
    decreases m
  {
    && IdOf(m) in r.manifests && r.manifests[IdOf(m)] == m
    && BlobsOf(m) <= r.blobs
    && (m.IndexManifest? ==>
          forall d :: d in m.manifests && (d.mediaType.IsIndex() || d.mediaType.IsImage()) ==>
                        TreePresent(r, d.digest.content))
  }

  /** In a closed registry the presence of the root is the presence of its tree. */
  lemma {:induction false} RootMeansTree(r: Registry, m: Content)
    requires Closed(r)
    ensures IdOf(m) in r.manifests <==> TreePresent(r, m)
    decreases m
  {
    if IdOf(m) in r.manifests && m.IndexManifest? {
      forall d | d in m.manifests && (d.mediaType.IsIndex() || d.mediaType.IsImage())
        ensures TreePresent(r, d.digest.content)
      {
        assert d.digest in ChildrenOf(m);
        RootMeansTree(r, d.digest.content);
      }
    }
  }

  // ---------------------------------------------------------------- one blob upload

  /** Where writer.uploadOne stands; `tries` counts the attempts left, this one included. */
  datatype Upload =
    | Check(blob: Digest)
    | Initiate(blob: Digest, tries: nat)
    | Stream(blob: Digest, id: nat, tries: nat)
    | Commit(blob: Digest, id: nat, tries: nat)
    | Uploaded(blob: Digest)
    | UploadFailed(blob: Digest)

  const UPLOAD_STEPS := 3

  /** A layer whose digest is not known yet is not checked first. */
  function StartUpload(blob: Digest, streamed: bool): Upload {
    if streamed then Initiate(blob, UPLOAD_STEPS) else Check(blob)
  }

  /** After a failed attempt: give up, or try again from the start if attempts remain. */
  predicate Retries(u': Upload, blob: Digest, tries: nat) {
    || u' == UploadFailed(blob)
    || (tries > 1 && u' == Initiate(blob, tries - 1))
  }

  /** What has been written to an upload; nothing, if it is not known. */
  function Written(r: Registry, id: nat): Content {
    if id in r.uploads then r.uploads[id] else Blob("")
  }

  /** One request of an upload.  A request may fail before or after the server acted on it. */
  ghost predicate UploadStep(r: Registry, u: Upload, r': Registry, u': Upload) {
    match u
    case Check(d) =>
      && r' == r
      && u' in {UploadFailed(d), if d in r.blobs then Uploaded(d) else Initiate(d, UPLOAD_STEPS)}
    case Initiate(d, n) =>
      || (r' == r.(blobs := r.blobs + {d}) && (u' == Uploaded(d) || Retries(u', d, n)))
      || (r' == r && u'.Stream? && u' == Stream(d, u'.id, n) && u'.id !in r.uploads)
      || (r' == r && Retries(u', d, n))
    case Stream(d, id, n) =>
      || (r' == r.(uploads := r.uploads[id := d.content]) && (u' == Commit(d, id, n) || Retries(u', d, n)))
      || (r' == r && Retries(u', d, n))
    case Commit(d, id, n) =>
      || (&& Sha256(Written(r, id)) == d
          && r' == r.(blobs := r.blobs + {d}, uploads := r.uploads - {id})
          && (u' == Uploaded(d) || Retries(u', d, n)))
      || (r' == r && Retries(u', d, n))
    case _ => false
  }

  lemma UploadStepEvolves(r: Registry, u: Upload, r': Registry, u': Upload)
    requires UploadStep(r, u, r', u')
    ensures Evolves(r, r') && r'.manifests == r.manifests
    ensures u'.blob == u.blob
    ensures u'.Uploaded? ==> u'.blob in r'.blobs
  {
    if Closed(r) {
      forall ref | ref in r'.manifests
        ensures Satisfied(r', r'.manifests[ref])
      {
        assert Satisfied(r, r.manifests[ref]);
      }
    }
  }

  /** A blob is looked for first, unless it is streamed, and then there are three attempts at uploading it:
      after the first and the second the upload may start again, after the third it may not. */
  lemma ThreeAttempts(r: Registry, d: Digest)
    ensures StartUpload(d, false) == Check(d) && StartUpload(d, true) == Initiate(d, 3)
    ensures d !in r.blobs ==> UploadStep(r, Check(d), r, Initiate(d, 3))
    ensures UploadStep(r, Initiate(d, 3), r, Initiate(d, 2)) && UploadStep(r, Initiate(d, 2), r, Initiate(d, 1))
    ensures forall r', u' :: UploadStep(r, Initiate(d, 1), r', u') ==> !u'.Initiate? && !u'.Check?
    ensures forall id, r', u' :: UploadStep(r, Stream(d, id, 1), r', u') || UploadStep(r, Commit(d, id, 1), r', u') ==>
              !u'.Initiate? && !u'.Check?
  {
  }
}
