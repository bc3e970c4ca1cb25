/** The manifest half of the in-memory registry (pkg/registry/manifest.go).  `hash` is the
    digest string of a body and `parse` gives the digests an index body lists, or None when
    it is not an index. */
module ManifestStore {
  import opened Common

  const OCI_IMAGE_INDEX := "application/vnd.oci.image.index.v1+json"
  const DOCKER_MANIFEST_LIST := "application/vnd.docker.distribution.manifest.list.v2+json"

  datatype Verb = HEAD | GET | PUT | OTHER

  datatype Request = Request(verb: Verb, repo: string, target: string, contentType: string, body: Bytes)

  datatype Manifest = Manifest(contentType: string, blob: Bytes)

  datatype Response =
    | Rejected(status: nat, code: string)
    | Header(length: nat, digest: string, contentType: string)
    | Content(bytes: Bytes, digest: string, contentType: string)
    | Stored(digest: string)

  /** What the handler is built on. */
  datatype Codec = Codec(hash: Bytes -> string, parse: Bytes -> Option<seq<string>>)

  type Repos = map<string, map<string, Manifest>>

  predicate IsIndex(contentType: string) {
    contentType == OCI_IMAGE_INDEX || contentType == DOCKER_MANIFEST_LIST
  }

  lemma IndexTypes(contentType: string)
    ensures IsIndex(contentType) <==>
              || contentType == "application/vnd.oci.image.index.v1+json"
              || contentType == "application/vnd.docker.distribution.manifest.list.v2+json"
  {
  }

  /** The entries of a repository, whether or not it exists yet. */
  function Entries(s: Repos, repo: string): map<string, Manifest> {
    if repo in s then s[repo] else map[]
  }

  function Find(s: Repos, r: Request): Result<Manifest, Response> {
    if r.repo !in s then Failure(Rejected(404, "NAME_UNKNOWN"))
    else if r.target !in s[r.repo] then Failure(Rejected(404, "MANIFEST_UNKNOWN"))
    else Success(s[r.repo][r.target])
  }

  /** A PUT is accepted unless it is an index that cannot be read or lists an unknown child. */
  predicate Acceptable(c: Codec, s: Repos, r: Request) {
    IsIndex(r.contentType) ==>
      && c.parse(r.body).Some?
      && forall d :: d in c.parse(r.body).value ==> d in Entries(s, r.repo)
  }

  function Handle(c: Codec, s: Repos, r: Request): (Response, Repos) {
    match r.verb
    case GET =>
      (match Find(s, r)
       case Failure(e) => (e, s)
       case Success(m) => (Content(m.blob, c.hash(m.blob), m.contentType), s))
    case HEAD =>
      (match Find(s, r)
       case Failure(e) => (e, s)
       case Success(m) => (Header(|m.blob|, c.hash(m.blob), m.contentType), s))
    case PUT =>
      var present := s[r.repo := Entries(s, r.repo)];
      if !Acceptable(c, s, r) then (Rejected(404, "MANIFEST_UNKNOWN"), present)
      else
        var m := Manifest(r.contentType, r.body);
        (Stored(c.hash(r.body)), present[r.repo := present[r.repo][r.target := m][c.hash(r.body) := m]])
    case OTHER => (Rejected(400, "METHOD_UNKNOWN"), s)
  }

  class Manifests {
    var manifests: Repos

    constructor ()
      ensures manifests == map[]
    {
      manifests := map[];
    }

    /** manifests.handle, one critical section. */
    method Serve(c: Codec, r: Request) returns (reply: Response)
      modifies this
      ensures (reply, manifests) == Handle(c, old(manifests), r)
    {
      if r.verb == GET || r.verb == HEAD {
        if r.repo !in manifests {
          return Rejected(404, "NAME_UNKNOWN");
        }
        var entries := manifests[r.repo];
        if r.target !in entries {
          return Rejected(404, "MANIFEST_UNKNOWN");
        }
        var m, digest := entries[r.target], c.hash(entries[r.target].blob);
        return if r.verb == GET then Content(m.blob, digest, m.contentType)
               else Header(|m.blob|, digest, m.contentType);
      }
      if r.verb == PUT {
        if r.repo !in manifests {
          manifests := manifests[r.repo := map[]];
        }
        ghost var present := old(manifests)[r.repo := Entries(old(manifests), r.repo)];
        assert manifests == present;
        var digest := c.hash(r.body);
        var mf := Manifest(r.contentType, r.body);
        if IsIndex(mf.contentType) {
          var im := c.parse(r.body);
          if im.None? {
            return Rejected(404, "MANIFEST_UNKNOWN");
          }
          var k := 0;
          while k < |im.value|
            invariant 0 <= k <= |im.value|
            invariant forall j :: 0 <= j < k ==> im.value[j] in Entries(old(manifests), r.repo)
            invariant manifests == present
          {
            if im.value[k] !in manifests[r.repo] {
              return Rejected(404, "MANIFEST_UNKNOWN");
            }
            k := k + 1;
          }
        }
        manifests := manifests[r.repo := manifests[r.repo][r.target := mf]];
        manifests := manifests[r.repo := manifests[r.repo][digest := mf]];
        assert manifests == present[r.repo := present[r.repo][r.target := mf][digest := mf]];
        return Stored(digest);
      }
      return Rejected(400, "METHOD_UNKNOWN");
    }
  }

  // ---------------------------------------------------------------- runs

  function After(c: Codec, s: Repos, run: seq<Request>): Repos {
    if run == [] then s
    else Handle(c, After(c, s, run[..|run| - 1]), run[|run| - 1]).1
  }

  /** Every stored index lists only digests that are keys of its repository. */
  ghost predicate Closed(c: Codec, s: Repos) {
    forall repo, key :: repo in s && key in s[repo] && IsIndex(s[repo][key].contentType) ==>
      && c.parse(s[repo][key].blob).Some?
      && forall d :: d in c.parse(s[repo][key].blob).value ==> d in s[repo]
  }

  lemma HandleKeepsClosed(c: Codec, s: Repos, r: Request)
    requires Closed(c, s)
    ensures Closed(c, Handle(c, s, r).1)
  {
  }

  /** Keys never disappear. */
  lemma HandleKeepsKeys(c: Codec, s: Repos, r: Request, repo: string)
    ensures Entries(s, repo).Keys <= Entries(Handle(c, s, r).1, repo).Keys
  {
  }

  lemma {:induction false} ReachableStatesAreClosed(c: Codec, run: seq<Request>)
    ensures Closed(c, After(c, map[], run))
  {
    if run != [] {
      ReachableStatesAreClosed(c, run[..|run| - 1]);
      HandleKeepsClosed(c, After(c, map[], run[..|run| - 1]), run[|run| - 1]);
    }
  }

  lemma {:induction false} KeysNeverDisappear(c: Codec, s: Repos, run: seq<Request>, repo: string)
    ensures Entries(s, repo).Keys <= Entries(After(c, s, run), repo).Keys
  {
    if run != [] {
      KeysNeverDisappear(c, s, run[..|run| - 1], repo);
      HandleKeepsKeys(c, After(c, s, run[..|run| - 1]), run[|run| - 1], repo);
    }
  }

  /** `r` stores other bytes than `body` under the key `target` of `repo`. */
  predicate Overwrites(r: Request, repo: string, target: string, body: Bytes) {
    r.verb == PUT && r.repo == repo && r.target == target && r.body != body
  }

  /** One request leaves `body` under a key unless it is an accepted PUT of other bytes, to
      that key or with that digest. */
  lemma BodyStays(c: Codec, s: Repos, r: Request, repo: string, key: string, body: Bytes)
    requires key in Entries(s, repo) && s[repo][key].blob == body
    ensures var t := Handle(c, s, r).1;
            && key in Entries(t, repo)
            && (t[repo][key].blob != body <==>
                  && r.verb == PUT && r.repo == repo && r.body != body && Acceptable(c, s, r)
                  && (r.target == key || c.hash(r.body) == key))
  {
  }

  lemma {:induction false} BodyStaysForRun(c: Codec, s: Repos, run: seq<Request>, repo: string, body: Bytes)
    requires Injective(c.hash)
    requires c.hash(body) in Entries(s, repo) && s[repo][c.hash(body)].blob == body
    requires forall r :: r in run ==> !Overwrites(r, repo, c.hash(body), body)
    ensures var t := After(c, s, run);
            c.hash(body) in Entries(t, repo) && t[repo][c.hash(body)].blob == body
  {
    if run != [] {
      BodyStaysForRun(c, s, run[..|run| - 1], repo, body);
      assert !Overwrites(run[|run| - 1], repo, c.hash(body), body);
      BodyStays(c, After(c, s, run[..|run| - 1]), run[|run| - 1], repo, c.hash(body), body);
    }
  }

  /** The body of the last accepted PUT of a run that wrote a key, by target or by digest. */
  function LastPut(c: Codec, s: Repos, run: seq<Request>, repo: string, key: string): Option<Bytes> {
    if run == [] then None
    else
      var before, r := run[..|run| - 1], run[|run| - 1];
      if r.verb == PUT && r.repo == repo && Acceptable(c, After(c, s, before), r) && (r.target == key || c.hash(r.body) == key)
      then Some(r.body)
      else LastPut(c, s, before, repo, key)
  }

  lemma HandleOneKey(c: Codec, s: Repos, r: Request, repo: string, key: string)
    ensures var t := Handle(c, s, r).1;
            if r.verb == PUT && r.repo == repo && Acceptable(c, s, r) && (r.target == key || c.hash(r.body) == key)
            then key in Entries(t, repo) && Entries(t, repo)[key].blob == r.body
            else && (key in Entries(t, repo) <==> key in Entries(s, repo))
                 && (key in Entries(s, repo) ==> Entries(t, repo)[key] == Entries(s, repo)[key])
  {
    hide Acceptable;
  }

  /** After any run a key holds what the last accepted PUT that wrote it stored. */
  lemma {:induction false} KeyHoldsLastPut(c: Codec, s: Repos, run: seq<Request>, repo: string, key: string)
    ensures var t, last := After(c, s, run), LastPut(c, s, run, repo, key);
      && (key in Entries(t, repo) <==> key in Entries(s, repo) || last.Some?)
      && (last.Some? ==> Entries(t, repo)[key].blob == last.value)
      && (last.None? && key in Entries(s, repo) ==> Entries(t, repo)[key] == Entries(s, repo)[key])
  {
    hide Handle, Acceptable, Entries;
    if run != [] {
      KeyHoldsLastPut(c, s, run[..|run| - 1], repo, key);
      HandleOneKey(c, After(c, s, run[..|run| - 1]), run[|run| - 1], repo, key);
    }
  }

  /** A body put under a tag is returned by its digest after a run exactly when the last accepted
      PUT of the run that wrote that key, if any, stored that body. */
  lemma DigestReturnsLastPut(c: Codec, s: Repos, put: Request, later: seq<Request>, get: Request)
    requires put.verb == PUT && Acceptable(c, s, put)
    requires get.verb == GET && get.repo == put.repo && get.target == c.hash(put.body)
    ensures var t := Handle(c, s, put).1;
            var reply := Handle(c, After(c, t, later), get).0;
            reply.Content? && (reply.bytes == put.body <==> LastPut(c, t, later, put.repo, get.target) in {None, Some(put.body)})
  {
    var t := Handle(c, s, put).1;
    HandleOneKey(c, s, put, put.repo, get.target);
    KeyHoldsLastPut(c, t, later, put.repo, get.target);
    hide LastPut, After, Acceptable;
  }

  /** What was put under a tag is returned unchanged by its digest, whatever follows, as long
      as nobody puts different bytes with that digest as the target. */
  lemma PutByTagGetByDigest(c: Codec, s: Repos, put: Request, later: seq<Request>, get: Request)
    requires Injective(c.hash)
    requires put.verb == PUT && Acceptable(c, s, put)
    requires forall r :: r in later ==> !Overwrites(r, put.repo, c.hash(put.body), put.body)
    requires get.verb == GET && get.repo == put.repo && get.target == c.hash(put.body)
    ensures var reply := Handle(c, After(c, Handle(c, s, put).1, later), get).0;
            reply.Content? && reply.bytes == put.body && reply.digest == get.target
  {
    BodyStaysForRun(c, Handle(c, s, put).1, later, put.repo, put.body);
  }

  /** The condition is needed: one PUT of an ordinary manifest under that digest is enough
      for the digest to return other bytes. */
  lemma OverwrittenDigestIsLost(c: Codec, s: Repos, put: Request, bad: Request, get: Request)
    requires put.verb == PUT && Acceptable(c, s, put)
    requires Overwrites(bad, put.repo, c.hash(put.body), put.body) && !IsIndex(bad.contentType)
    requires get.verb == GET && get.repo == put.repo && get.target == c.hash(put.body)
    ensures var reply := Handle(c, After(c, Handle(c, s, put).1, [bad]), get).0;
            reply.Content? && reply.bytes != put.body
  {
    var t := Handle(c, s, put).1;
    assert [bad][..0] == [];
    assert After(c, t, [bad]) == Handle(c, After(c, t, []), bad).1;
    BodyStays(c, t, bad, put.repo, get.target, put.body);
  }
}
