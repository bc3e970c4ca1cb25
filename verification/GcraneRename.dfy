/** Where gcrane's recursiveCopy copies a repository to (pkg/gcrane/copy.go). */
module GcraneRename {
  import opened Common
  import opened Names
  import GcraneSync

  /** strings.Replace of the first occurrence. */
  function ReplaceFirst(s: string, was: string, now: string): string {
    if was <= s then now + s[|was|..]
    else if s == "" then ""
    else [s[0]] + ReplaceFirst(s[1..], was, now)
  }

  predicate OccursAt(s: string, part: string, k: nat)
    requires k <= |s|
  {
    part <= s[k..]
  }

  lemma OccursLater(s: string, part: string, k: nat)
    requires k < |s|
    ensures OccursAt(s[1..], part, k) == OccursAt(s, part, k + 1)
  {
    assert s[1..][k..] == s[k + 1..];
  }

  lemma OccursAtStart(s: string, part: string)
    ensures OccursAt(s, part, 0) <==> part <= s
  {
    assert s[0..] == s;
  }

  /** One more character in front. */
  lemma InFront(s: string, i: nat, n: nat, now: string)
    requires 0 < i && i + n <= |s|
    ensures [s[0]] + (s[1..][..i - 1] + now + s[1..][i - 1 + n..]) == s[..i] + now + s[i + n..]
  {
    assert s[1..][i - 1 + n..] == s[i + n..];
    assert s[..i] == [s[0]] + s[1..][..i - 1];
  }

  lemma ReplaceStep(s: string, was: string, now: string)
    ensures was <= s ==> ReplaceFirst(s, was, now) == now + s[|was|..]
    ensures !(was <= s) && s != "" ==> ReplaceFirst(s, was, now) == [s[0]] + ReplaceFirst(s[1..], was, now)
  {
  }

  /** It replaces the first occurrence. */
  lemma {:induction false} ReplacesFirst(s: string, was: string, now: string, i: nat)
    requires i <= |s| && OccursAt(s, was, i) && forall k :: 0 <= k < i ==> !OccursAt(s, was, k)
    ensures i + |was| <= |s| && ReplaceFirst(s, was, now) == s[..i] + now + s[i + |was|..]
  {
    OccursAtStart(s, was);
    ReplaceStep(s, was, now);
    hide ReplaceFirst, OccursAt;
    if i == 0 {
      assert s[..0] + now + s[|was|..] == now + s[|was|..];
    } else {
      forall k | 0 <= k < i
        ensures OccursAt(s[1..], was, k) == OccursAt(s, was, k + 1)
      {
        OccursLater(s, was, k);
      }
      ReplacesFirst(s[1..], was, now, i - 1);
      InFront(s, i, |was|, now);
    }
  }

  /** Nothing is replaced when there is none. */
  lemma {:induction false} ReplacesNothing(s: string, was: string, now: string)
    requires was != "" && forall k :: 0 <= k <= |s| ==> !OccursAt(s, was, k)
    ensures ReplaceFirst(s, was, now) == s
  {
    OccursAtStart(s, was);
    hide OccursAt;
    if s != "" {
      forall k | 0 <= k < |s|
        ensures !OccursAt(s[1..], was, k)
      {
        OccursLater(s, was, k);
      }
      ReplacesNothing(s[1..], was, now);
    }
  }

  const STRICT := DEFAULTS.(strict := true)

  /** copier.rename. */
  function Rename(authority: string -> bool, src: Repository, dst: Repository, repo: Repository): Result<Repository, BadName> {
    NewRepository(authority, ReplaceFirst(RepositoryName(repo), RepositoryName(src), RepositoryName(dst)), STRICT)
  }

  /** A repository below the source goes to the same place below the destination, if that name is one. */
  lemma RenamedBelow(authority: string -> bool, src: Repository, dst: Repository, repo: Repository, rest: string)
    requires Printable(authority, dst) && RepositoryName(repo) == RepositoryName(src) + rest
    ensures var renamed := Rename(authority, src, dst, repo);
            && (renamed.Success? <==> GoodRepository(RepositoryStr(dst) + rest))
            && (renamed.Success? ==> RepositoryName(renamed.value) == RepositoryName(dst) + rest)
  {
    var reg, path := dst.registry.registry, RepositoryStr(dst) + rest;
    assert RepositoryName(dst) + rest == reg + "/" + path;
    RepositoryStrIsGood(dst);
    JoinedSplits(reg, path);
    RepositoryAccepted(authority, reg + "/" + path, STRICT);
    hide NewRepository, SplitRegistry, GoodRepository;
  }

  /** What rename makes of a repository that the walk from the source comes to. */
  ghost predicate Goes(authority: string -> bool, src: Repository, dst: Repository, repo: Repository, target: string) {
    && RepositoryName(src) <= RepositoryName(repo)
    && Rename(authority, src, dst, repo).Success?
    && RepositoryName(Rename(authority, src, dst, repo).value) == target
  }

  /** Different repositories are copied to different ones, so that a walk with the targets that rename
      gives is one that GcraneSync is about. */
  lemma RenamedTargetsAreDistinct(authority: string -> bool, src: Repository, dst: Repository, w: GcraneSync.Walk)
    requires Printable(authority, dst)
    requires forall r :: r in w.jobs ==>
               exists repo :: RepositoryName(repo) == r && Goes(authority, src, dst, repo, w.jobs[r].target)
    ensures w.TargetsAreDistinct()
  {
    hide Printable, RepositoryName, Rename;
    var n := |RepositoryName(src)|;
    forall r, q | r in w.jobs && q in w.jobs && w.jobs[r].target == w.jobs[q].target
      ensures r == q
    {
      var a :| RepositoryName(a) == r && Goes(authority, src, dst, a, w.jobs[r].target);
      var b :| RepositoryName(b) == q && Goes(authority, src, dst, b, w.jobs[q].target);
      RenamedBelow(authority, src, dst, a, r[n..]);
      RenamedBelow(authority, src, dst, b, q[n..]);
      assert r[n..] == w.jobs[r].target[|RepositoryName(dst)|..] == q[n..];
    }
  }
}
