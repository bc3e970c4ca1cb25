/** The blob half of the in-memory registry (pkg/registry/blobs.go): chunked uploads into
    a content-addressed store.  `hash` is the digest string of some bytes. */
module BlobStore {
  import opened Common

  datatype Verb = HEAD | GET | POST | PATCH | PUT | DELETE

  /** The Content-Range header, after Sscanf of "%d-%d". */
  datatype ContentRange = Absent | Garbled | Range(start: int, end: int)

  /** `elem` is the request path split at "/" without its first element. */
  datatype Request = Request(verb: Verb, elem: seq<string>, digest: string,
                             range: ContentRange, body: Bytes)

  datatype Response =
    | Rejected(status: nat, code: string)
    | Header(length: nat, digest: string)
    | Content(bytes: Bytes, digest: string)
    | Started
    | Appended(last: int)
    | Stored(digest: string)

  datatype Store = Store(contents: map<string, Bytes>, uploads: map<string, Bytes>)

  const EMPTY := Store(map[], map[])

  function Trim(elem: seq<string>): seq<string> {
    if elem != [] && elem[|elem| - 1] == "" then elem[..|elem| - 1] else elem
  }

  predicate HasTarget(r: Request) { |Trim(r.elem)| >= 4 }

  function Target(r: Request): string
    requires HasTarget(r)
  {
    Trim(r.elem)[|Trim(r.elem)| - 1]
  }

  function Service(r: Request): string
    requires HasTarget(r)
  {
    Trim(r.elem)[|Trim(r.elem)| - 2]
  }

  /** A request of an upload session: PATCH or PUT on .../uploads/<id>. */
  predicate OnUpload(r: Request, id: string) {
    HasTarget(r) && r.verb in {PATCH, PUT} && Service(r) == "uploads" && Target(r) == id
  }

  function Buffer(s: Store, id: string): Bytes {
    if id in s.uploads then s.uploads[id] else []
  }

  /** The reply to a request and the store after it. */
  function Handle(hash: Bytes -> string, s: Store, r: Request): (Response, Store) {
    if !HasTarget(r) then (Rejected(400, "NAME_INVALID"), s)
    else
      var target := Target(r);
      match r.verb
      case HEAD =>
        if target in s.contents then (Header(|s.contents[target]|, target), s)
        else (Rejected(404, "BLOB_UNKNOWN"), s)
      case GET =>
        if target in s.contents then (Content(s.contents[target], target), s)
        else (Rejected(404, "BLOB_UNKNOWN"), s)
      case POST =>
        if target != "uploads" then (Rejected(400, "METHOD_UNKNOWN"), s)
        else if r.digest == "" then (Started, s)
        else if hash(r.body) != r.digest then (Rejected(400, "DIGEST_INVALID"), s)
        else (Stored(r.digest), s.(contents := s.contents[r.digest := r.body]))
      case PATCH =>
        if Service(r) != "uploads" then (Rejected(400, "METHOD_UNKNOWN"), s)
        else if r.range.Garbled? then (Rejected(416, "BLOB_UPLOAD_UNKNOWN"), s)
        else if r.range.Range? && r.range.start != |Buffer(s, target)| then
          (Rejected(416, "BLOB_UPLOAD_UNKNOWN"), s)
        else if r.range.Absent? && target in s.uploads then (Rejected(400, "BLOB_UPLOAD_INVALID"), s)
        else
          var grown := Buffer(s, target) + r.body;
          (Appended(|grown| - 1), s.(uploads := s.uploads[target := grown]))
      case PUT =>
        if Service(r) != "uploads" then (Rejected(400, "METHOD_UNKNOWN"), s)
        else
          var whole := Buffer(s, target) + r.body;
          if r.digest == "" || hash(whole) != r.digest then (Rejected(400, "DIGEST_INVALID"), s)
          else (Stored(r.digest), Store(s.contents[r.digest := whole], s.uploads - {target}))
      case DELETE => (Rejected(400, "METHOD_UNKNOWN"), s)
  }

  class Blobs {
    var contents: map<string, Bytes>
    var uploads: map<string, Bytes>

    function State(): Store
      reads this
    {
      Store(contents, uploads)
    }

    constructor ()
      ensures State() == EMPTY
    {
      contents, uploads := map[], map[];
    }

    /** blobs.handle, one critical section. */
    method Serve(hash: Bytes -> string, r: Request) returns (reply: Response)
      requires |r.elem| >= 1
      modifies this
      ensures (reply, State()) == Handle(hash, old(State()), r)
    {
      var elem := r.elem;
      if elem[|elem| - 1] == "" {
        elem := elem[..|elem| - 1];
      }
      if |elem| < 4 {
        return Rejected(400, "NAME_INVALID");
      }
      var target, service := elem[|elem| - 1], elem[|elem| - 2];
      if r.verb == HEAD || r.verb == GET {
        if target !in contents {
          return Rejected(404, "BLOB_UNKNOWN");
        }
        var b := contents[target];
        return if r.verb == HEAD then Header(|b|, target) else Content(b, target);
      }
      if r.verb == POST && target == "uploads" && r.digest != "" {
        var d := hash(r.body);
        if d != r.digest {
          return Rejected(400, "DIGEST_INVALID");
        }
        contents := contents[d := r.body];
        return Stored(d);
      }
      if r.verb == POST && target == "uploads" && r.digest == "" {
        return Started;
      }
      if r.verb == PATCH && service == "uploads" && !r.range.Absent? {
        if r.range.Garbled? {
          return Rejected(416, "BLOB_UPLOAD_UNKNOWN");
        }
        var l := if target in uploads then uploads[target] else [];
        if r.range.start != |l| {
          return Rejected(416, "BLOB_UPLOAD_UNKNOWN");
        }
        l := l + r.body;
        uploads := uploads[target := l];
        return Appended(|l| - 1);
      }
      if r.verb == PATCH && service == "uploads" && r.range.Absent? {
        if target in uploads {
          return Rejected(400, "BLOB_UPLOAD_INVALID");
        }
        uploads := uploads[target := r.body];
        assert [] + r.body == r.body;
        return Appended(|r.body| - 1);
      }
      if r.verb == PUT && service == "uploads" && r.digest == "" {
        return Rejected(400, "DIGEST_INVALID");
      }
      if r.verb == PUT && service == "uploads" && r.digest != "" {
        var l := if target in uploads then uploads[target] else [];
        l := l + r.body;
        var d := hash(l);
        if d != r.digest {
          return Rejected(400, "DIGEST_INVALID");
        }
        contents := contents[d := l];
        uploads := uploads - {target};
        return Stored(d);
      }
      return Rejected(400, "METHOD_UNKNOWN");
    }
  }

  // ---------------------------------------------------------------- runs

  /** The store after a run of requests from any number of clients. */
  function After(hash: Bytes -> string, s: Store, run: seq<Request>): Store {
    if run == [] then s
    else Handle(hash, After(hash, s, run[..|run| - 1]), run[|run| - 1]).1
  }

  /** A chunk sent without a Content-Range claims to be the first. */
  function StartOf(r: Request): int { if r.range.Range? then r.range.start else 0 }

  /** What a client sees of one accepted chunk: where it starts and its bytes. */
  datatype Chunk = Chunk(start: int, bytes: Bytes)

  /** The chunks accepted for an upload since its id was last freed. */
  ghost function Accepted(hash: Bytes -> string, run: seq<Request>, id: string): seq<Chunk> {
    if run == [] then []
    else
      var before := run[..|run| - 1];
      var r := run[|run| - 1];
      var reply := Handle(hash, After(hash, EMPTY, before), r).0;
      if !OnUpload(r, id) || reply.Rejected? then Accepted(hash, before, id)
      else if r.verb == PUT then []
      else Accepted(hash, before, id) + [Chunk(StartOf(r), r.body)]
  }

  function Concat(chunks: seq<Chunk>): Bytes {
    if chunks == [] then [] else Concat(chunks[..|chunks| - 1]) + chunks[|chunks| - 1].bytes
  }

  predicate Contiguous(chunks: seq<Chunk>) {
    forall k :: 0 <= k < |chunks| ==> chunks[k].start == |Concat(chunks[..k])|
  }

  lemma {:induction false} ConcatLast(chunks: seq<Chunk>, c: Chunk)
    ensures Concat(chunks + [c]) == Concat(chunks) + c.bytes
    ensures Contiguous(chunks) && c.start == |Concat(chunks)| ==> Contiguous(chunks + [c])
  {
    var all := chunks + [c];
    assert all[..|all| - 1] == chunks;
    forall k | 0 <= k < |chunks|
      ensures all[..k] == chunks[..k]
    {
    }
  }

  /** One request's effect on one upload. */
  lemma HandleOneUpload(hash: Bytes -> string, s: Store, r: Request, id: string)
    ensures var (reply, t) := Handle(hash, s, r);
            if !OnUpload(r, id) || reply.Rejected? then
              (id in t.uploads <==> id in s.uploads) && Buffer(t, id) == Buffer(s, id)
            else if r.verb == PUT then id !in t.uploads
            else && id in t.uploads && Buffer(t, id) == Buffer(s, id) + r.body
                 && StartOf(r) == |Buffer(s, id)|
  {
  }

  /** In every reachable state an upload buffer is the concatenation of the accepted chunks,
      each of which started exactly where the one before it ended. */
  lemma {:induction false} BufferIsAcceptedChunks(hash: Bytes -> string, run: seq<Request>, id: string)
    ensures var s := After(hash, EMPTY, run);
            var chunks := Accepted(hash, run, id);
            && (id in s.uploads <==> chunks != [])
            && Buffer(s, id) == Concat(chunks)
            && Contiguous(chunks)
  {
    assert Contiguous([]);
    hide Handle, Contiguous, OnUpload, StartOf;
    if run != [] {
      var before, r := run[..|run| - 1], run[|run| - 1];
      BufferIsAcceptedChunks(hash, before, id);
      var s := After(hash, EMPTY, before);
      HandleOneUpload(hash, s, r, id);
      ConcatLast(Accepted(hash, before, id), Chunk(StartOf(r), r.body));
    }
  }

  ghost predicate ContentAddressed(hash: Bytes -> string, s: Store) {
    forall d :: d in s.contents ==> hash(s.contents[d]) == d
  }

  lemma {:induction false} EveryBlobHashesToItsKey(hash: Bytes -> string, run: seq<Request>)
    ensures ContentAddressed(hash, After(hash, EMPTY, run))
  {
    if run != [] {
      EveryBlobHashesToItsKey(hash, run[..|run| - 1]);
    }
  }

  /** A stored blob stays, with its bytes, unless two byte strings share a digest. */
  lemma {:induction false} BlobsAreNeverAltered(hash: Bytes -> string, s: Store, run: seq<Request>, d: string)
    requires ContentAddressed(hash, s) && d in s.contents
    ensures var t := After(hash, s, run);
            && ContentAddressed(hash, t)
            && d in t.contents
            && (Injective(hash) ==> t.contents[d] == s.contents[d])
  {
    if run != [] {
      BlobsAreNeverAltered(hash, s, run[..|run| - 1], d);
    }
  }

  lemma RejectedChangesNothing(hash: Bytes -> string, s: Store, r: Request)
    requires Handle(hash, s, r).0.Rejected?
    ensures Handle(hash, s, r).1 == s
  {
  }

  lemma {:induction false} AfterSplit(hash: Bytes -> string, s: Store, first: seq<Request>, second: seq<Request>)
    ensures After(hash, s, first + second) == After(hash, After(hash, s, first), second)
  {
    hide Handle;
    if second == [] {
      assert first + second == first;
    } else {
      var all := first + second;
      assert all[..|all| - 1] == first + second[..|second| - 1];
      AfterSplit(hash, s, first, second[..|second| - 1]);
    }
  }

  /** What a successful PUT leaves behind. */
  lemma PutStores(hash: Bytes -> string, s: Store, put: Request, id: string)
    requires OnUpload(put, id) && put.verb == PUT && Handle(hash, s, put).0.Stored?
    ensures var t := Handle(hash, s, put).1;
            && id !in t.uploads && put.digest in t.contents
            && t.contents[put.digest] == Buffer(s, id) + put.body
  {
  }

  lemma GetReturns(hash: Bytes -> string, s: Store, get: Request)
    requires get.verb == GET && HasTarget(get) && Target(get) in s.contents
    ensures Handle(hash, s, get).0 == Content(s.contents[Target(get)], Target(get))
  {
  }

  /** A chunked upload round-trips: once a PUT succeeds, the id is free again and, whatever
      requests follow, a GET of the digest returns the accepted chunks and the PUT's body. */
  lemma UploadRoundTrip(hash: Bytes -> string, run: seq<Request>, put: Request, id: string,
                        later: seq<Request>, get: Request)
    requires Injective(hash)
    requires OnUpload(put, id) && put.verb == PUT
    requires Handle(hash, After(hash, EMPTY, run), put).0.Stored?
    requires get.verb == GET && HasTarget(get) && Target(get) == put.digest
    ensures id !in After(hash, EMPTY, run + [put]).uploads
    ensures Handle(hash, After(hash, EMPTY, run + [put] + later), get).0
            == Content(Concat(Accepted(hash, run, id)) + put.body, put.digest)
  {
    hide Handle, Injective, OnUpload, HasTarget, Target, Accepted, Concat, Buffer, ContentAddressed;
    var all := run + [put];
    assert all[..|all| - 1] == run;
    PutStores(hash, After(hash, EMPTY, run), put, id);
    BufferIsAcceptedChunks(hash, run, id);
    EveryBlobHashesToItsKey(hash, all);
    AfterSplit(hash, EMPTY, all, later);
    BlobsAreNeverAltered(hash, After(hash, EMPTY, all), later, put.digest);
    GetReturns(hash, After(hash, EMPTY, all + later), get);
  }

  /** A POST with a digest and a body round-trips at once: it is taken exactly when the digest is that of
      the body, and then, whatever requests follow, a GET of the digest returns the body. */
  lemma PostRoundTrip(hash: Bytes -> string, run: seq<Request>, post: Request, later: seq<Request>, get: Request)
    requires Injective(hash)
    requires post.verb == POST && HasTarget(post) && Target(post) == "uploads" && post.digest != ""
    requires get.verb == GET && HasTarget(get) && Target(get) == post.digest
    ensures Handle(hash, After(hash, EMPTY, run), post).0.Stored? <==> hash(post.body) == post.digest
    ensures hash(post.body) == post.digest ==>
              Handle(hash, After(hash, EMPTY, run + [post] + later), get).0 == Content(post.body, post.digest)
  {
    var all := run + [post];
    assert all[..|all| - 1] == run;
    if hash(post.body) == post.digest {
      assert Handle(hash, After(hash, EMPTY, run), post).1.contents[post.digest] == post.body;
      hide Handle, Injective, HasTarget, Target, ContentAddressed;
      EveryBlobHashesToItsKey(hash, all);
      AfterSplit(hash, EMPTY, all, later);
      BlobsAreNeverAltered(hash, After(hash, EMPTY, all), later, post.digest);
      GetReturns(hash, After(hash, EMPTY, all + later), get);
    }
  }

  /** The requests of one upload session, in order. */
  function Session(run: seq<Request>, id: string): seq<Request> {
    if run == [] then []
    else
      var before := Session(run[..|run| - 1], id);
      if OnUpload(run[|run| - 1], id) then before + [run[|run| - 1]] else before
  }

  lemma SameReply(hash: Bytes -> string, s: Store, t: Store, r: Request, id: string)
    requires OnUpload(r, id)
    requires (id in s.uploads <==> id in t.uploads) && Buffer(s, id) == Buffer(t, id)
    ensures Handle(hash, s, r).0 == Handle(hash, t, r).0
  {
  }

  /** Uploads do not interfere: a buffer depends on its own session's requests alone. */
  lemma {:induction false} UploadsDoNotInterfere(hash: Bytes -> string, run: seq<Request>, id: string)
    ensures var s, alone := After(hash, EMPTY, run), After(hash, EMPTY, Session(run, id));
            (id in s.uploads <==> id in alone.uploads) && Buffer(s, id) == Buffer(alone, id)
  {
    hide Handle, OnUpload;
    if run != [] {
      var before, r := run[..|run| - 1], run[|run| - 1];
      HandleOneUpload(hash, After(hash, EMPTY, before), r, id);
      UploadsDoNotInterfere(hash, before, id);
      if OnUpload(r, id) {
        var session := Session(run, id);
        assert session[..|session| - 1] == Session(before, id);
        HandleOneUpload(hash, After(hash, EMPTY, Session(before, id)), r, id);
        SameReply(hash, After(hash, EMPTY, before), After(hash, EMPTY, Session(before, id)), r, id);
      }
    }
  }
}
