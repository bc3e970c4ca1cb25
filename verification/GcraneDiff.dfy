/** What gcrane copies between two repositories (pkg/gcrane/copy.go): the difference of two
    listings, turned into tasks that several workers run in any order. */
module GcraneDiff {

  datatype ManifestInfo = ManifestInfo(tags: seq<string>, rest: string)

  /** A listing: manifests by digest. */
  type Listing = map<string, ManifestInfo>

  /** The state of a repository: its digests and what each tag points to. */
  datatype Repo = Repo(digests: set<string>, tags: map<string, string>)

  // ---------------------------------------------------------------- the difference

  function Subtract(minuend: seq<string>, subtrahend: seq<string>): seq<string> {
    if minuend == [] then []
    else
      var last := minuend[|minuend| - 1];
      Subtract(minuend[..|minuend| - 1], subtrahend) + if last in subtrahend then [] else [last]
  }

  lemma {:induction false} SubtractKeeps(minuend: seq<string>, subtrahend: seq<string>, x: string)
    ensures x in Subtract(minuend, subtrahend) <==> x in minuend && x !in subtrahend
  {
    if minuend != [] {
      SubtractKeeps(minuend[..|minuend| - 1], subtrahend, x);
      assert minuend == minuend[..|minuend| - 1] + [minuend[|minuend| - 1]];
    }
  }

  method ToStringSet(slice: seq<string>) returns (s: set<string>)
    ensures forall x :: x in s <==> x in slice
  {
    s := {};
    for n := 0 to |slice|
      invariant forall x :: x in s <==> x in slice[..n]
    {
      s := s + {slice[n]};
    }
    assert slice[..|slice|] == slice;
  }

  /** subtractStringLists. */
  method SubtractStringLists(minuend: seq<string>, subtrahend: seq<string>) returns (difference: seq<string>)
    ensures difference == Subtract(minuend, subtrahend)
  {
    var bSet := ToStringSet(subtrahend);
    difference := [];
    for n := 0 to |minuend|
      invariant difference == Subtract(minuend[..n], subtrahend)
    {
      assert minuend[..n + 1][..n] == minuend[..n];
      if minuend[n] !in bSet {
        difference := difference + [minuend[n]];
      }
    }
    assert minuend[..|minuend|] == minuend;
  }

  /** What is to be copied for one wanted digest. */
  function Todo(want: Listing, have: Listing, d: string): ManifestInfo
    requires d in want
  {
    if d in have then want[d].(tags := Subtract(want[d].tags, have[d].tags)) else want[d]
  }

  predicate Needed(want: Listing, have: Listing, d: string) {
    d in want && (d in have ==> Todo(want, have, d).tags != [])
  }

  function Need(want: Listing, have: Listing): Listing {
    map d | d in want && Needed(want, have, d) :: Todo(want, have, d)
  }

  /** diffImages, walking the wanted digests in any order. */
  method DiffImages(want: Listing, have: Listing) returns (need: Listing)
    ensures need == Need(want, have)
  {
    need := map[];
    var left := want.Keys;
    while left != {}
      invariant left <= want.Keys
      invariant need == map d | d in want && d !in left && Needed(want, have, d) :: Todo(want, have, d)
    {
      var d :| d in left;
      left := left - {d};
      if d !in have {
        need := need[d := want[d]];
      } else {
        var missingTags := SubtractStringLists(want[d].tags, have[d].tags);
        if |missingTags| == 0 {
          continue;
        }
        need := need[d := want[d].(tags := missingTags)];
      }
    }
  }

  // ---------------------------------------------------------------- tasks

  /** The effect of one copy on the destination. */
  datatype Put = PutDigest(digest: string) | PutTag(digest: string, tag: string)

  function Apply(r: Repo, p: Put): Repo {
    match p
    case PutDigest(d) => r.(digests := r.digests + {d})
    case PutTag(d, t) => Repo(r.digests + {d}, r.tags[t := d])
  }

  function Run(r: Repo, puts: seq<Put>): Repo {
    if puts == [] then r else Apply(Run(r, puts[..|puts| - 1]), puts[|puts| - 1])
  }

  /** What a task copies: by digest if it has no tags, else the first tag as the source has
      it, and that manifest again under every other tag. */
  function Puts(source: Repo, d: string, info: ManifestInfo): seq<Put>
    requires forall t :: t in info.tags ==> t in source.tags
  {
    if info.tags == [] then [PutDigest(d)]
    else seq(|info.tags|, n requires 0 <= n < |info.tags| => PutTag(source.tags[info.tags[0]], info.tags[n]))
  }

  /** One request: it succeeds, or fails before or after it has taken effect. */
  datatype Request = Done | NotDone | DoneButFailed

  class Destination {
    var repo: Repo

    constructor (r: Repo)
      ensures repo == r
    {
      repo := r;
    }

    /** One put of a task. */
    method Send(p: Put, request: Request) returns (ok: bool)
      modifies this
      ensures ok <==> request.Done?
      ensures repo == if request.NotDone? then old(repo) else Apply(old(repo), p)
    {
      if request.NotDone? {
        return false;
      }
      match p {
        case PutDigest(d) => repo := repo.(digests := repo.digests + {d});
        case PutTag(d, t) => repo := Repo(repo.digests + {d}, repo.tags[t := d]);
      }
      return request.Done?;
    }

    /** copyImages: sends the task's puts in order and stops at the first failure.  `requests`
        says how each of them ends, `got` whether the first tag's manifest can be fetched again. */
    method CopyImages(source: Repo, d: string, info: ManifestInfo, requests: nat -> Request, got: bool)
      returns (ok: bool, ghost sent: nat)
      requires forall t :: t in info.tags ==> t in source.tags
      modifies this
      ensures sent <= |Puts(source, d, info)| && repo == Run(old(repo), Puts(source, d, info)[..sent])
      ensures ok <==> (forall n :: 0 <= n < |Puts(source, d, info)| ==> requests(n) == Done) && (|info.tags| > 1 ==> got)
      ensures ok ==> repo == Run(old(repo), Puts(source, d, info))
    {
      PutsAre(source, d, info);
      ghost var puts := Puts(source, d, info);
      ghost var before := repo;
      assert Run(before, puts[..0]) == before;
      hide Run, Apply, Puts;
      assert puts[..0] == [] && puts[..|puts|] == puts;
      if |info.tags| == 0 {
        ok := Send(PutDigest(d), requests(0));
        SentOne(before, puts, 0);
        return ok, if requests(0) == NotDone then 0 else 1;
      }
      var copied := source.tags[info.tags[0]];
      ok := Send(PutTag(copied, info.tags[0]), requests(0));
      SentOne(before, puts, 0);
      if !ok {
        return ok, if requests(0) == NotDone then 0 else 1;
      }
      if |info.tags| <= 1 {
        return true, 1;
      }
      if !got {
        return false, 1;
      }
      for n := 1 to |info.tags|
        invariant repo == Run(before, puts[..n])
        invariant forall k :: 0 <= k < n ==> requests(k) == Done
      {
        ok := Send(PutTag(copied, info.tags[n]), requests(n));
        SentOne(before, puts, n);
        if !ok {
          return ok, if requests(n) == NotDone then n else n + 1;
        }
      }
      return true, |info.tags|;
    }
  }

  lemma SentOne(r: Repo, puts: seq<Put>, n: nat)
    requires n < |puts|
    ensures Run(r, puts[..n + 1]) == Apply(Run(r, puts[..n]), puts[n])
  {
    assert puts[..n + 1][..n] == puts[..n];
  }

  lemma PutsAre(source: Repo, d: string, info: ManifestInfo)
    requires forall t :: t in info.tags ==> t in source.tags
    ensures info.tags == [] ==> Puts(source, d, info) == [PutDigest(d)]
    ensures info.tags != [] ==> |Puts(source, d, info)| == |info.tags|
    ensures forall n :: 0 <= n < |info.tags| ==> n < |Puts(source, d, info)| && Puts(source, d, info)[n] == PutTag(source.tags[info.tags[0]], info.tags[n])
  {
  }

  /** `listing` is what a registry reports for a repository. */
  ghost predicate Lists(listing: Listing, r: Repo) {
    && listing.Keys == r.digests
    && (forall t :: t in r.tags ==> r.tags[t] in r.digests)
    && forall d, t :: d in listing ==> (t in listing[d].tags <==> t in r.tags && r.tags[t] == d)
  }

  /** Everything the tasks of a difference copy. */
  ghost function AllPuts(source: Repo, want: Listing, have: Listing): set<Put>
    requires Lists(want, source)
  {
    set d, p | d in want && Needed(want, have, d) && p in TaskPuts(source, want, have, d) :: p
  }

  ghost function TaskPuts(source: Repo, want: Listing, have: Listing, d: string): seq<Put>
    requires Lists(want, source) && d in want
  {
    TodoTags(want, have, d);
    Puts(source, d, Todo(want, have, d))
  }

  lemma TodoTags(want: Listing, have: Listing, d: string)
    requires d in want
    ensures forall t :: t in Todo(want, have, d).tags <==>
              t in want[d].tags && (d in have ==> t !in have[d].tags)
  {
    forall t
      ensures d in have ==> (t in Subtract(want[d].tags, have[d].tags) <==> t in want[d].tags && t !in have[d].tags)
    {
      if d in have {
        SubtractKeeps(want[d].tags, have[d].tags, t);
      }
    }
  }

  lemma NoneLeft(tags: seq<string>)
    ensures tags != [] ==> exists t :: t in tags
  {
    if tags != [] {
      assert tags[0] in tags;
    }
  }

  lemma OfSomeTask(source: Repo, want: Listing, have: Listing, p: Put)
    requires Lists(want, source)
    ensures p in AllPuts(source, want, have) <==>
              && p.digest in want && Needed(want, have, p.digest)
              && match p
                 case PutDigest(d) => Todo(want, have, d).tags == []
                 case PutTag(d, t) => t in Todo(want, have, d).tags
  {
    hide Todo, Needed, Puts, TaskPuts;
    if d :| d in want && Needed(want, have, d) && p in TaskPuts(source, want, have, d) {
      TaskPutsOf(source, want, have, d, p);
    }
    if p.digest in want {
      TaskPutsOf(source, want, have, p.digest, p);
    }
  }

  /** A missing digest or a missing or different tag, and nothing else, is copied. */
  lemma PutsAreTheDifference(source: Repo, dest: Repo, want: Listing, have: Listing, p: Put)
    requires Lists(want, source) && Lists(have, dest)
    ensures p in AllPuts(source, want, have) <==>
            match p
            case PutDigest(d) => d in source.digests && d !in dest.digests && d !in source.tags.Values
            case PutTag(d, t) => t in source.tags && source.tags[t] == d && !(t in dest.tags && dest.tags[t] == d)
  {
    OfSomeTask(source, want, have, p);
    var d := p.digest;
    if d in want {
      TodoTags(want, have, d);
      var tags := Todo(want, have, d).tags;
      hide AllPuts, Todo;
      forall t
        ensures t in tags <==> t in source.tags && source.tags[t] == d && !(t in dest.tags && dest.tags[t] == d)
      {
      }
      NoneLeft(tags);
      assert d !in have && tags != [] ==> d in source.tags.Values;
      if t :| t in source.tags && source.tags[t] == d && d !in have {
        assert t in tags;
      }
    }
  }

  lemma TaskPutsOf(source: Repo, want: Listing, have: Listing, d: string, p: Put)
    requires Lists(want, source) && d in want
    ensures p in TaskPuts(source, want, have, d) <==>
            match p
            case PutDigest(x) => x == d && Todo(want, have, d).tags == []
            case PutTag(x, t) => x == d && t in Todo(want, have, d).tags
  {
    TodoTags(want, have, d);
    var tags, puts := Todo(want, have, d).tags, TaskPuts(source, want, have, d);
    if tags != [] {
      assert tags[0] in tags;
      assert source.tags[tags[0]] == d;
      forall n | 0 <= n < |tags|
        ensures puts[n] == PutTag(d, tags[n])
      {
      }
      if p.PutTag? && p.digest == d && p.tag in tags {
        var n :| 0 <= n < |tags| && tags[n] == p.tag;
        assert puts[n] == p;
      }
    }
  }

  // ---------------------------------------------------------------- any order, any interleaving

  /** Puts of tags that never contradict each other. */
  ghost predicate Agreeing(source: Repo, puts: seq<Put>) {
    forall p :: p in puts && p.PutTag? ==> p.tag in source.tags && source.tags[p.tag] == p.digest
  }

  /** After such puts, in any order and with any repetitions, the state is determined. */
  lemma {:induction false} RunIsDetermined(source: Repo, r: Repo, puts: seq<Put>)
    requires Agreeing(source, puts)
    ensures var s := Run(r, puts);
            && s.digests == r.digests + (set p | p in puts :: p.digest)
            && forall t :: if t in source.tags && PutTag(source.tags[t], t) in puts
                           then t in s.tags && s.tags[t] == source.tags[t]
                           else (t in s.tags <==> t in r.tags) && (t in s.tags ==> s.tags[t] == r.tags[t])
  {
    if puts != [] {
      var rest, last := puts[..|puts| - 1], puts[|puts| - 1];
      assert puts == rest + [last];
      RunIsDetermined(source, r, rest);
      assert (set p | p in puts :: p.digest) == (set p | p in rest :: p.digest) + {last.digest};
    }
  }

  /** The steps the workers have taken, failed attempts and retries included, are the tasks'
      puts in some order, each at least once. */
  ghost predicate Completes(steps: seq<Put>, source: Repo, want: Listing, have: Listing)
    requires Lists(want, source)
  {
    forall p :: p in steps <==> p in AllPuts(source, want, have)
  }

  /** However the tasks are interleaved and repeated, the destination ends up with every wanted
      digest and every wanted tag on its digest; nothing else has changed. */
  lemma SyncReachesSource(source: Repo, dest: Repo, want: Listing, have: Listing, steps: seq<Put>)
    requires Lists(want, source) && Lists(have, dest)
    requires Completes(steps, source, want, have)
    ensures Run(dest, steps) == Repo(dest.digests + source.digests, dest.tags + source.tags)
  {
    hide AllPuts, Run, Lists;
    forall p | p in steps && p.PutTag?
      ensures p.tag in source.tags && source.tags[p.tag] == p.digest
    {
      PutsAreTheDifference(source, dest, want, have, p);
    }
    RunIsDetermined(source, dest, steps);
    SyncedDigests(source, dest, want, have, steps);
    var s := Run(dest, steps);
    forall t
      ensures t in s.tags <==> t in dest.tags + source.tags
      ensures t in s.tags ==> s.tags[t] == (dest.tags + source.tags)[t]
    {
      if t in source.tags {
        PutsAreTheDifference(source, dest, want, have, PutTag(source.tags[t], t));
      }
    }
    assert s.tags == dest.tags + source.tags;
  }

  lemma SyncedDigests(source: Repo, dest: Repo, want: Listing, have: Listing, steps: seq<Put>)
    requires Lists(want, source) && Lists(have, dest)
    requires Completes(steps, source, want, have)
    ensures dest.digests + (set p | p in steps :: p.digest) == dest.digests + source.digests
  {
    hide AllPuts;
    forall d | d in source.digests && d !in dest.digests
      ensures exists p :: p in steps && p.digest == d
    {
      if t :| t in source.tags && source.tags[t] == d {
        assert !(t in dest.tags && dest.tags[t] == d);
        PutsAreTheDifference(source, dest, want, have, PutTag(d, t));
        assert PutTag(d, t) in steps && PutTag(d, t).digest == d;
      } else {
        PutsAreTheDifference(source, dest, want, have, PutDigest(d));
        assert PutDigest(d) in steps && PutDigest(d).digest == d;
      }
    }
    forall p | p in steps
      ensures p.digest in source.digests
    {
      PutsAreTheDifference(source, dest, want, have, p);
    }
  }

  /** Running the difference again finds nothing to copy. */
  lemma SecondDiffIsEmpty(source: Repo, dest: Repo, want: Listing, have: Listing, steps: seq<Put>, again: Listing)
    requires Lists(want, source) && Lists(have, dest)
    requires Completes(steps, source, want, have)
    requires Lists(again, Run(dest, steps))
    ensures Need(want, again) == map[]
  {
    SyncReachesSource(source, dest, want, have, steps);
    forall d | d in want
      ensures !Needed(want, again, d)
    {
      TodoTags(want, again, d);
      forall t | t in want[d].tags
        ensures t in again[d].tags
      {
        assert t in source.tags && source.tags[t] == d;
        assert t in Run(dest, steps).tags;
      }
      NoneLeft(Todo(want, again, d).tags);
    }
  }
}
