/** Which repositories google.Walk comes to (pkg/v1/google/list.go), and so what recursiveCopy of
    pkg/gcrane/copy.go copies. */
module GcraneWalk {

  /** A repository and those below it; `listed` says whether its first listing succeeds.  gcrane lists
      a repository again when it does not, but does not go further down from there. */
  datatype Repo = Repo(path: string, listed: bool, children: seq<Repo>)

  function ChildName(name: string, child: Repo): string { name + "/" + child.path }

  /** The names that the walk comes to, in order. */
  function Walked(name: string, t: Repo): seq<string>
    decreases t, |t.children| + 1
  {
    [name] + if t.listed then WalkedBelow(name, t, |t.children|) else []
  }

  function WalkedBelow(name: string, t: Repo, n: nat): seq<string>
    requires n <= |t.children|
    decreases t, n
  {
    if n == 0 then [] else WalkedBelow(name, t, n - 1) + Walked(ChildName(name, t.children[n - 1]), t.children[n - 1])
  }

  /** All there are. */
  function All(name: string, t: Repo): seq<string>
    decreases t, |t.children| + 1
  {
    [name] + AllBelow(name, t, |t.children|)
  }

  function AllBelow(name: string, t: Repo, n: nat): seq<string>
    requires n <= |t.children|
    decreases t, n
  {
    if n == 0 then [] else AllBelow(name, t, n - 1) + All(ChildName(name, t.children[n - 1]), t.children[n - 1])
  }

  /** walk, with a walkFn that returns no error. */
  method Walk(name: string, t: Repo) returns (visited: seq<string>)
    ensures visited == Walked(name, t)
    decreases t
  {
    visited := [name];
    if !t.listed {
      return;
    }
    for n := 0 to |t.children|
      invariant visited == [name] + WalkedBelow(name, t, n)
    {
      var below := Walk(ChildName(name, t.children[n]), t.children[n]);
      visited := visited + below;
    }
  }

  /** No repository with others below it fails to be listed at first. */
  predicate Listable(t: Repo) {
    (t.listed || t.children == []) && forall i :: 0 <= i < |t.children| ==> Listable(t.children[i])
  }

  lemma {:induction false} WalkedBelowIsShorter(name: string, t: Repo, n: nat)
    requires n <= |t.children|
    ensures |WalkedBelow(name, t, n)| <= |AllBelow(name, t, n)|
    ensures WalkedBelow(name, t, n) == AllBelow(name, t, n) <==> forall i :: 0 <= i < n ==> Listable(t.children[i])
    ensures |WalkedBelow(name, t, n)| == |AllBelow(name, t, n)| ==> WalkedBelow(name, t, n) == AllBelow(name, t, n)
    decreases t, n
  {
    if n > 0 {
      var child := t.children[n - 1];
      WalkedBelowIsShorter(name, t, n - 1);
      WalkedIsAll(ChildName(name, child), child);
    }
  }

  /** The walk comes to every repository exactly when none with others below it fails to be listed at
      first; otherwise some are missed without an error. */
  lemma {:induction false} WalkedIsAll(name: string, t: Repo)
    ensures |Walked(name, t)| <= |All(name, t)|
    ensures Walked(name, t) == All(name, t) <==> Listable(t)
    ensures |Walked(name, t)| == |All(name, t)| <==> Listable(t)
    decreases t, |t.children| + 1
  {
    WalkedBelowIsShorter(name, t, |t.children|);
    if !t.listed && t.children != [] {
      assert |All(ChildName(name, t.children[|t.children| - 1]), t.children[|t.children| - 1])| > 0;
    }
  }

  /** Everything the walk comes to is below its root. */
  lemma {:induction false} WalkedIsUnder(name: string, t: Repo, visited: string)
    requires visited in Walked(name, t)
    ensures name <= visited
    decreases t, |t.children| + 1
  {
    if visited != name {
      WalkedBelowIsUnder(name, t, |t.children|, visited);
    }
  }

  lemma {:induction false} WalkedBelowIsUnder(name: string, t: Repo, n: nat, visited: string)
    requires n <= |t.children| && visited in WalkedBelow(name, t, n)
    ensures name <= visited
    decreases t, n
  {
    if visited in WalkedBelow(name, t, n - 1) {
      WalkedBelowIsUnder(name, t, n - 1, visited);
    } else {
      WalkedIsUnder(ChildName(name, t.children[n - 1]), t.children[n - 1], visited);
    }
  }

  /** A child that can only be listed at the second attempt is copied, and nothing below it. */
  lemma SecondListingIsNotWalked(root: string, name: string, below: string)
    ensures var t := Repo("", true, [Repo(name, false, [Repo(below, true, [])])]);
            Walked(root, t) == [root, root + "/" + name] && |All(root, t)| == 3
  {
    var grandchild := Repo(below, true, []);
    var child := Repo(name, false, [grandchild]);
    var t := Repo("", true, [child]);
    assert WalkedBelow(root, t, 1) == Walked(root + "/" + name, child) == [root + "/" + name];
    assert |All(root + "/" + name + "/" + below, grandchild)| == 1;
    assert |AllBelow(root + "/" + name, child, 1)| == 1;
    assert |AllBelow(root, t, 1)| == 2;
  }
}
