/** Sorting by a string key, as sort.Strings and sort.Slice do it. */
module Sorting {

  /** The order of strings in Go: byte by byte. */
  predicate Less(a: string, b: string) {
    b != [] && (a == [] || a[0] < b[0] || (a[0] == b[0] && Less(a[1..], b[1..])))
  }

  /** Ascending: at the first difference the lesser character, or the end, comes first. */
  lemma {:induction false} LessIsAscending(common: string, a: string, b: string)
    requires b != [] && (a == [] || a[0] < b[0])
    ensures Less(common + a, common + b) && !Less(common + b, common + a)
  {
    if common == [] {
      assert common + a == a && common + b == b;
    } else {
      assert (common + a)[1..] == common[1..] + a && (common + b)[1..] == common[1..] + b;
      LessIsAscending(common[1..], a, b);
    }
  }

  lemma {:induction false} LessIsTransitive(a: string, b: string, c: string)
    requires Less(a, b) && !Less(c, b)
    ensures Less(a, c)
  {
    if a != [] && b != [] && c != [] && a[0] == b[0] == c[0] {
      LessIsTransitive(a[1..], b[1..], c[1..]);
    }
  }

  lemma {:induction false} LessIsStrict(a: string, b: string)
    requires Less(a, b)
    ensures !Less(b, a)
  {
    if a != [] && a[0] == b[0] {
      LessIsStrict(a[1..], b[1..]);
    }
  }

  ghost predicate Sorted<T>(s: seq<T>, key: T -> string) {
    forall i, j :: 0 <= i < j < |s| ==> !Less(key(s[j]), key(s[i]))
  }

  /** `perm` lists the numbers below `n`, each once. */
  ghost predicate Permutes(perm: seq<nat>, n: nat) {
    && |perm| == n
    && (forall i :: 0 <= i < n ==> perm[i] < n)
    && (forall i, j :: 0 <= i < j < n ==> perm[i] != perm[j])
    && (forall k :: 0 <= k < n ==> k in perm)
  }

  ghost predicate Rearranges<T>(r: seq<T>, s: seq<T>, perm: seq<nat>) {
    Permutes(perm, |s|) && |r| == |s| && forall i :: 0 <= i < |r| ==> r[i] == s[perm[i]]
  }

  lemma InsertPermutes(perm: seq<nat>, n: nat, at: nat)
    requires Permutes(perm, n) && at <= n
    ensures Permutes(perm[..at] + [n] + perm[at..], n + 1)
  {
    var perm' := perm[..at] + [n] + perm[at..];
    assert forall i :: 0 <= i < n + 1 ==> perm'[i] == if i < at then perm[i] else if i == at then n else perm[i - 1];
    forall k | 0 <= k < n + 1
      ensures k in perm'
    {
      if k < n {
        assert k in perm;
        var i :| 0 <= i < n && perm[i] == k;
        assert perm'[if i < at then i else i + 1] == k;
      } else {
        assert perm'[at] == n;
      }
    }
  }

  lemma InsertRearranges<T>(r: seq<T>, s: seq<T>, n: nat, perm: seq<nat>, at: nat)
    requires n < |s| && Rearranges(r, s[..n], perm) && at <= n
    ensures Rearranges(r[..at] + [s[n]] + r[at..], s[..n + 1], perm[..at] + [n] + perm[at..])
  {
    InsertPermutes(perm, n, at);
    var r', perm' := r[..at] + [s[n]] + r[at..], perm[..at] + [n] + perm[at..];
    forall i | 0 <= i < n + 1
      ensures perm'[i] < n + 1 && r'[i] == s[..n + 1][perm'[i]]
    {
      if i < at {
        assert r[i] == s[..n][perm[i]];
      } else if i > at {
        assert r[i - 1] == s[..n][perm[i - 1]];
      }
    }
  }

  /** Inserting the next element before the first that is greater. */
  lemma InsertSorts<T>(r: seq<T>, x: T, key: T -> string, at: nat)
    requires Sorted(r, key) && at <= |r|
    requires forall i :: 0 <= i < at ==> !Less(key(x), key(r[i]))
    requires at < |r| ==> Less(key(x), key(r[at]))
    ensures Sorted(r[..at] + [x] + r[at..], key)
  {
    hide Less;
    forall j | at <= j < |r|
      ensures !Less(key(r[j]), key(x))
    {
      if j > at {
        LessIsTransitive(key(x), key(r[at]), key(r[j]));
      }
      LessIsStrict(key(x), key(r[j]));
    }
  }

  method SortBy<T>(s: seq<T>, key: T -> string) returns (r: seq<T>, ghost perm: seq<nat>)
    ensures Sorted(r, key) && Rearranges(r, s, perm)
  {
    r, perm := [], [];
    for n := 0 to |s|
      invariant Sorted(r, key) && Rearranges(r, s[..n], perm)
    {
      var at := 0;
      while at < n && !Less(key(s[n]), key(r[at]))
        invariant 0 <= at <= n
        invariant forall i :: 0 <= i < at ==> !Less(key(s[n]), key(r[i]))
      {
        at := at + 1;
      }
      InsertRearranges(r, s, n, perm, at);
      InsertSorts(r, s[n], key, at);
      r, perm := r[..at] + [s[n]] + r[at..], perm[..at] + [n] + perm[at..];
    }
    assert s[..|s|] == s;
  }

  lemma SameElements<T(!new)>(r: seq<T>, s: seq<T>, perm: seq<nat>)
    requires Rearranges(r, s, perm)
    ensures forall x :: x in r <==> x in s
    ensures (forall i, j :: 0 <= i < j < |s| ==> s[i] != s[j]) ==> forall i, j :: 0 <= i < j < |r| ==> r[i] != r[j]
  {
    forall x | x in s
      ensures x in r
    {
      var k: nat :| k < |s| && s[k] == x;
      assert k in perm;
      var i :| 0 <= i < |perm| && perm[i] == k;
      assert r[i] == x;
    }
  }
}
