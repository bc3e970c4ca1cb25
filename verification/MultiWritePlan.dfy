/** What remote.MultiWrite collects before it pushes anything: the blobs and, level by level,
    the manifests below the requested indexes (pkg/v1/remote/multi_write.go). */
module MultiWritePlan {
  import Common
  import opened PushServer

  type Levels = seq<map<Digest, Content>>

  /** The digests at a depth below some descriptors, which are themselves at depth 0. */
  ghost function Below(children: seq<Descriptor>, depth: nat): set<Digest>
    decreases depth, 0
  {
    if depth == 0 then set d | d in children :: d.digest
    else
      var above := depth - 1;
      set d, x | d in children && d.mediaType.IsIndex() && x in AtDepth(d.digest.content, above) :: x
  }

  /** The digests at a depth below a manifest; an index's own children are at depth 0. */
  ghost function AtDepth(m: Content, depth: nat): set<Digest>
    decreases depth, 1
  {
    if m.IndexManifest? then Below(m.manifests, depth) else {}
  }

  predicate IsManifest(mt: MediaType) { mt.IsIndex() || mt.IsImage() }

  /** The blobs of every image at or below a manifest. */
  ghost function TreeBlobs(m: Content): set<Digest>
    decreases m
  {
    if m.IndexManifest? then
      set d, x | d in m.manifests && IsManifest(d.mediaType) && x in TreeBlobs(d.digest.content) :: x
    else BlobsOf(m)
  }

  /** Every descriptor in the tree is an image or an index and is what it says. */
  ghost predicate Collectable(m: Content)
    decreases m
  {
    m.IndexManifest? ==>
      forall d :: d in m.manifests ==>
        if d.mediaType.IsIndex() then d.digest.content.IndexManifest? && Collectable(d.digest.content)
        else d.mediaType.IsImage() && d.digest.content.ImageManifest?
  }

  ghost predicate ChildCollectable(d: Descriptor) {
    if d.mediaType.IsIndex() then d.digest.content.IndexManifest? && Collectable(d.digest.content)
    else d.mediaType.IsImage() && d.digest.content.ImageManifest?
  }

  lemma OneMoreChild(children: seq<Descriptor>, n: nat)
    requires n < |children|
    ensures Collectable(IndexManifest(children[..n + 1])) <==>
            Collectable(IndexManifest(children[..n])) && ChildCollectable(children[n])
    ensures ChildCollectable(children[n]) ==>
              TreeBlobs(IndexManifest(children[..n + 1])) ==
              TreeBlobs(IndexManifest(children[..n])) + TreeBlobs(children[n].digest.content)
    ensures Collectable(IndexManifest(children)) ==> ChildCollectable(children[n])
  {
    assert children[..n + 1] == children[..n] + [children[n]];
    assert children[n] in children;
  }

  lemma NoChildren(levels: Levels, lvl: nat)
    ensures Collectable(IndexManifest([])) && TreeBlobs(IndexManifest([])) == {}
    ensures Grown(levels, levels, [], lvl) && Grown(levels, levels + [map[]], [], lvl)
  {
    forall k: nat
      ensures Below([], k) == {}
      ensures Keys(levels + [map[]], k) == Keys(levels, k)
    {
    }
  }

  ghost function Keys(levels: Levels, k: nat): set<Digest> {
    if k < |levels| then levels[k].Keys else {}
  }

  ghost predicate NamesContent(levels: Levels) {
    forall k, d :: 0 <= k < |levels| && d in levels[k] ==> levels[k][d] == d.content
  }

  /** `levels` has grown by the manifests below `m`, the children of `m` at level `lvl`. */
  ghost predicate Grown(before: Levels, levels: Levels, children: seq<Descriptor>, lvl: nat) {
    forall k: nat :: Keys(levels, k) == Keys(before, k) + if k >= lvl then Below(children, k - lvl) else {}
  }

  lemma BelowOneMore(children: seq<Descriptor>, n: nat, depth: nat)
    requires n < |children|
    ensures Below(children[..n + 1], depth) ==
            Below(children[..n], depth)
            + if depth == 0 then {children[n].digest}
              else if children[n].mediaType.IsIndex() then AtDepth(children[n].digest.content, depth - 1)
              else {}
  {
    assert children[..n + 1] == children[..n] + [children[n]];
  }

  class Collector {
    var blobs: set<Digest>
    var newManifests: Levels

    constructor ()
      ensures blobs == {} && newManifests == []
    {
      blobs, newManifests := {}, [];
    }

    /** addImageBlobs: the distributable layers and the config. */
    method AddImageBlobs(image: Content)
      requires image.ImageManifest?
      modifies this`blobs
      ensures blobs == old(blobs) + BlobsOf(image)
    {
      var n := 0;
      while n < |image.layers|
        invariant 0 <= n <= |image.layers|
        invariant blobs == old(blobs) + set l | l in image.layers[..n] && l.mediaType.IsDistributable() :: l.digest
      {
        var l := image.layers[n];
        assert image.layers[..n + 1] == image.layers[..n] + [l];
        n := n + 1;
        if !l.mediaType.IsDistributable() {
          continue;
        }
        blobs := blobs + {l.digest};
      }
      assert image.layers[..n] == image.layers;
      blobs := blobs + {image.config};
    }

    /** addIndexBlobs: fills `newManifests` from level `lvl` on.  It fails exactly on trees that
        hold anything but images and indexes that can be fetched. */
    method AddIndexBlobs(index: Content, lvl: nat) returns (ok: bool)
      requires index.IndexManifest? && lvl <= |newManifests|
      requires NamesContent(newManifests)
      modifies this
      ensures |newManifests| >= |old(newManifests)| && |newManifests| > lvl
      ensures NamesContent(newManifests)
      ensures ok <==> Collectable(index)
      ensures ok ==> blobs == old(blobs) + TreeBlobs(index)
      ensures ok ==> Grown(old(newManifests), newManifests, index.manifests, lvl)
      decreases index
    {
      hide Grown, Collectable, ChildCollectable, TreeBlobs, BlobsOf, NamesContent;
      NoChildren(newManifests, lvl);
      if lvl > |newManifests| - 1 {
        newManifests := newManifests + [map[]];
        NamesMore(old(newManifests));
      }
      var children := index.manifests;
      var n := 0;
      assert children[..0] == [];
      while n < |children|
        invariant 0 <= n <= |children|
        invariant |newManifests| >= |old(newManifests)| && |newManifests| > lvl
        invariant NamesContent(newManifests)
        invariant Collectable(IndexManifest(children[..n]))
        invariant blobs == old(blobs) + TreeBlobs(IndexManifest(children[..n]))
        invariant Grown(old(newManifests), newManifests, children[..n], lvl)
      {
        var desc := children[n];
        var child := desc.digest.content;
        ghost var levels := newManifests;
        OneMoreChild(children, n);
        ChildKinds(desc);
        assert desc in children;
        if desc.mediaType.IsIndex() {
          if !child.IndexManifest? {
            return false;
          }
          assert child < index;
          var added := AddIndexBlobs(child, lvl + 1);
          if !added {
            return false;
          }
          ghost var deeper := newManifests;
          newManifests := newManifests[lvl := newManifests[lvl][desc.digest := child]];
          NamesOneMore(deeper, lvl, desc.digest);
          GrownByIndex(old(newManifests), levels, deeper, newManifests, children, n, lvl);
        } else if desc.mediaType.IsImage() {
          if !child.ImageManifest? {
            return false;
          }
          AddImageBlobs(child);
          newManifests := newManifests[lvl := newManifests[lvl][desc.digest := child]];
          NamesOneMore(levels, lvl, desc.digest);
          GrownByImage(old(newManifests), levels, newManifests, children, n, lvl);
        } else {
          return false;
        }
        n := n + 1;
      }
      assert children[..n] == children;
      return true;
    }
  }

  lemma ChildKinds(d: Descriptor)
    ensures d.mediaType.IsIndex() ==>
              (ChildCollectable(d) <==> d.digest.content.IndexManifest? && Collectable(d.digest.content))
    ensures !d.mediaType.IsIndex() ==>
              (ChildCollectable(d) <==> d.mediaType.IsImage() && d.digest.content.ImageManifest?)
    ensures d.digest.content.ImageManifest? ==> TreeBlobs(d.digest.content) == BlobsOf(d.digest.content)
  {
  }

  lemma NamesMore(levels: Levels)
    requires NamesContent(levels)
    ensures NamesContent(levels + [map[]])
  {
  }

  lemma NamesOneMore(levels: Levels, lvl: nat, d: Digest)
    requires NamesContent(levels) && lvl < |levels|
    ensures NamesContent(levels[lvl := levels[lvl][d := d.content]])
  {
  }

  lemma GrownByImage(start: Levels, levels: Levels, after: Levels, children: seq<Descriptor>, n: nat, lvl: nat)
    requires n < |children| && lvl < |levels| && !children[n].mediaType.IsIndex()
    requires Grown(start, levels, children[..n], lvl)
    requires after == levels[lvl := levels[lvl][children[n].digest := children[n].digest.content]]
    ensures Grown(start, after, children[..n + 1], lvl)
  {
    forall k: nat
      ensures Keys(after, k) == Keys(start, k) + if k >= lvl then Below(children[..n + 1], k - lvl) else {}
    {
      assert Keys(levels, k) == Keys(start, k) + if k >= lvl then Below(children[..n], k - lvl) else {};
      if k >= lvl {
        BelowOneMore(children, n, k - lvl);
      }
    }
  }

  lemma GrownByIndex(start: Levels, levels: Levels, deeper: Levels, after: Levels,
                     children: seq<Descriptor>, n: nat, lvl: nat)
    requires n < |children| && lvl < |levels| <= |deeper| && children[n].mediaType.IsIndex()
    requires children[n].digest.content.IndexManifest?
    requires Grown(start, levels, children[..n], lvl)
    requires Grown(levels, deeper, children[n].digest.content.manifests, lvl + 1)
    requires after == deeper[lvl := deeper[lvl][children[n].digest := children[n].digest.content]]
    ensures Grown(start, after, children[..n + 1], lvl)
  {
    var child := children[n].digest.content;
    forall k: nat
      ensures Keys(after, k) == Keys(start, k) + if k >= lvl then Below(children[..n + 1], k - lvl) else {}
    {
      assert Keys(levels, k) == Keys(start, k) + if k >= lvl then Below(children[..n], k - lvl) else {};
      assert Keys(deeper, k) == Keys(levels, k) + if k >= lvl + 1 then Below(child.manifests, k - lvl - 1) else {};
      if k >= lvl {
        BelowOneMore(children, n, k - lvl);
        assert k > lvl ==> Below(child.manifests, k - lvl - 1) == AtDepth(child, k - lvl - 1);
      }
    }
  }

  // ---------------------------------------------------------------- the level property

  /** Every child of an index at one level is a key of the next level. */
  ghost predicate LevelProperty(levels: Levels) {
    forall k, d, c :: 0 <= k < |levels| && d in levels[k] && c in ChildrenOf(levels[k][d]) ==>
      k + 1 < |levels| && c in levels[k + 1]
  }

  lemma ChildrenAreDeeper(m: Content, depth: nat, d: Digest, c: Digest)
    requires Collectable(m) && d in AtDepth(m, depth) && c in ChildrenOf(d.content)
    ensures c in AtDepth(m, depth + 1)
    decreases m
  {
    var desc :| desc in m.manifests
                && if depth == 0 then desc.digest == d
                   else desc.mediaType.IsIndex() && d in AtDepth(desc.digest.content, depth - 1);
    if depth == 0 {
      assert ChildCollectable(desc);
      assert c in AtDepth(d.content, 0);
    } else {
      ChildrenAreDeeper(desc.digest.content, depth - 1, d, c);
      assert c in AtDepth(desc.digest.content, depth);
      assert c in Below(m.manifests, depth + 1);
    }
  }

  lemma BlobsOfDescendants(m: Content, depth: nat, d: Digest)
    requires Collectable(m) && d in AtDepth(m, depth)
    ensures BlobsOf(d.content) <= TreeBlobs(m)
    decreases m
  {
    var desc :| desc in m.manifests
                && if depth == 0 then desc.digest == d
                   else desc.mediaType.IsIndex() && d in AtDepth(desc.digest.content, depth - 1);
    assert ChildCollectable(desc);
    if depth > 0 {
      BlobsOfDescendants(desc.digest.content, depth - 1, d);
    } else if d.content.ImageManifest? {
      assert TreeBlobs(d.content) == BlobsOf(d.content);
    }
  }

  // ---------------------------------------------------------------- the whole plan

  type Request = map<Ref, Content>

  ghost predicate Pushable(m: Content) { (m.ImageManifest? || m.IndexManifest?) && Collectable(m) }

  /** What has to be in a plan for the requested manifests `roots`. */
  ghost predicate PlanCovers(roots: set<Content>, blobs: set<Digest>, levels: Levels) {
    && (forall m :: m in roots ==> Pushable(m))
    && blobs == BlobsFor(roots)
    && NamesContent(levels)
    && forall k: nat :: Keys(levels, k) == KeysFor(roots, k)
  }

  ghost function BlobsFor(roots: set<Content>): set<Digest> {
    set m, x | m in roots && x in TreeBlobs(m) :: x
  }

  ghost function KeysFor(roots: set<Content>, k: nat): set<Digest> {
    set m, x | m in roots && x in AtDepth(m, k) :: x
  }

  lemma OneLevel(roots: set<Content>, blobs: set<Digest>, levels: Levels, k: nat, d: Digest, c: Digest)
    requires PlanCovers(roots, blobs, levels) && k < |levels| && d in levels[k]
    ensures levels[k][d] == d.content && BlobsOf(d.content) <= blobs
    ensures c in ChildrenOf(d.content) ==> k + 1 < |levels| && c in levels[k + 1]
  {
    assert d in Keys(levels, k) && d in KeysFor(roots, k);
    var m :| m in roots && d in AtDepth(m, k);
    BlobsOfDescendants(m, k, d);
    if c in ChildrenOf(d.content) {
      ChildrenAreDeeper(m, k, d, c);
      assert c in KeysFor(roots, k + 1);
      assert c in Keys(levels, k + 1);
    }
  }

  lemma PlanHasLevelProperty(roots: set<Content>, blobs: set<Digest>, levels: Levels)
    requires PlanCovers(roots, blobs, levels)
    ensures LevelProperty(levels)
    ensures forall k, d :: 0 <= k < |levels| && d in levels[k] ==> BlobsOf(levels[k][d]) <= blobs
    ensures forall m, c :: m in roots && c in ChildrenOf(m) ==> |levels| > 0 && c in levels[0]
  {
    forall k, d, c | 0 <= k < |levels| && d in levels[k] && c in ChildrenOf(levels[k][d])
      ensures k + 1 < |levels| && c in levels[k + 1]
    {
      OneLevel(roots, blobs, levels, k, d, c);
    }
    forall k, d | 0 <= k < |levels| && d in levels[k]
      ensures BlobsOf(levels[k][d]) <= blobs
    {
      OneLevel(roots, blobs, levels, k, d, d);
    }
    forall m, c | m in roots && c in ChildrenOf(m)
      ensures |levels| > 0 && c in levels[0]
    {
      assert c in AtDepth(m, 0);
      assert c in KeysFor(roots, 0);
      assert c in Keys(levels, 0);
    }
  }

  lemma OneMoreRoot(roots: set<Content>, m: Content, k: nat)
    ensures BlobsFor(roots + {m}) == BlobsFor(roots) + TreeBlobs(m)
    ensures KeysFor(roots + {m}, k) == KeysFor(roots, k) + AtDepth(m, k)
  {
    hide TreeBlobs, AtDepth;
    forall x | x in TreeBlobs(m)
      ensures x in BlobsFor(roots + {m})
    {
      assert m in roots + {m};
    }
    forall x | x in AtDepth(m, k)
      ensures x in KeysFor(roots + {m}, k)
    {
      assert m in roots + {m};
    }
  }

  lemma PlanGrows(roots: set<Content>, m: Content, blobs: set<Digest>, blobs': set<Digest>,
                  levels: Levels, levels': Levels)
    requires PlanCovers(roots, blobs, levels) && Pushable(m)
    requires blobs' == blobs + TreeBlobs(m) && NamesContent(levels')
    requires if m.IndexManifest? then Grown(levels, levels', m.manifests, 0) else levels' == levels
    ensures PlanCovers(roots + {m}, blobs', levels')
  {
    hide Collectable, TreeBlobs, NamesContent, Below, Pushable, KeysFor, BlobsFor, Keys;
    OneMoreRoot(roots, m, 0);
    forall k: nat
      ensures Keys(levels', k) == KeysFor(roots + {m}, k)
    {
      OneMoreRoot(roots, m, k);
      assert Keys(levels, k) == KeysFor(roots, k);
      if m.IndexManifest? {
        assert Keys(levels', k) == Keys(levels, k) + Below(m.manifests, k - 0);
      }
    }
  }

  /** What Collect hands over for a request. */
  ghost predicate Collected(request: Request, blobs: set<Digest>, levels: Levels, images: Request, indexes: Request) {
    && PlanCovers(request.Values, blobs, levels)
    && images == (map ref | ref in request && request[ref].ImageManifest? :: request[ref])
    && indexes == (map ref | ref in request && request[ref].IndexManifest? :: request[ref])
  }

  /** The first half of MultiWrite, before any request: sorts the requested manifests into
      images and indexes and collects everything below them.  The map may be walked in any
      order. */
  method Collect(request: Request) returns (ok: bool, blobs: set<Digest>, levels: Levels,
                                            images: Request, indexes: Request)
    ensures ok <==> forall ref :: ref in request ==> Pushable(request[ref])
    ensures ok ==> Collected(request, blobs, levels, images, indexes)
  {
    hide Collectable, TreeBlobs, NamesContent, Grown, PlanCovers;
    var c := new Collector();
    blobs, levels, images, indexes := {}, [], map[], map[];
    EmptyPlan();
    var left := request.Keys;
    ghost var done: Request := map[];
    assert done.Values == {};
    while left != {}
      invariant left <= request.Keys
      invariant done == map ref | ref in request && ref !in left :: request[ref]
      invariant fresh(c)
      invariant forall ref :: ref in done ==> Pushable(done[ref])
      invariant PlanCovers(done.Values, c.blobs, c.newManifests)
      invariant images == map ref | ref in done && done[ref].ImageManifest? :: done[ref]
      invariant indexes == map ref | ref in done && done[ref].IndexManifest? :: done[ref]
    {
      var ref :| ref in left;
      var m := request[ref];
      left := left - {ref};
      ghost var blobs0, levels0 := c.blobs, c.newManifests;
      PlanNames(done.Values, c.blobs, c.newManifests);
      if m.ImageManifest? {
        images := images[ref := m];
        c.AddImageBlobs(m);
        ImagePushable(m);
      } else if m.IndexManifest? {
        indexes := indexes[ref := m];
        var added := c.AddIndexBlobs(m, 0);
        if !added {
          return false, {}, [], map[], map[];
        }
      } else {
        return false, {}, [], map[], map[];
      }
      PlanGrows(done.Values, m, blobs0, c.blobs, levels0, c.newManifests);
      ValuesOneMore(done, ref, m);
      done := done[ref := m];
    }
    assert done == request;
    return true, c.blobs, c.newManifests, images, indexes;
  }

  /** A requested reference with its repository. */
  datatype Target = Target(repo: string, ref: Ref)

  predicate OneRepository(request: map<Target, Content>) {
    forall a, b :: a in request && b in request ==> a.repo == b.repo
  }

  /** The references of a request inside its repository. */
  ghost predicate Inside(request: map<Target, Content>, inside: Request) {
    && (forall t :: t in request ==> t.ref in inside && inside[t.ref] == request[t])
    && (forall ref :: ref in inside ==> exists t :: t in request && t.ref == ref)
  }

  /** MultiWrite up to its first request: gives up on more than one repository, then collects. */
  method Plan(request: map<Target, Content>)
    returns (ok: bool, blobs: set<Digest>, levels: Levels, images: Request, indexes: Request, ghost inside: Request)
    ensures ok <==> OneRepository(request) && forall t :: t in request ==> Pushable(request[t])
    ensures ok ==> Inside(request, inside) && Collected(inside, blobs, levels, images, indexes)
  {
    hide Pushable, Collected;
    blobs, levels, images, indexes, inside := {}, [], map[], map[], map[];
    var left := request.Keys;
    var requested: Request := map[];
    var repo: Common.Option<string> := Common.None;
    while left != {}
      invariant left <= request.Keys
      invariant repo.None? <==> left == request.Keys
      invariant forall t :: t in request && t !in left ==> repo == Common.Some(t.repo)
      invariant forall t :: t in request && t !in left ==> t.ref in requested && requested[t.ref] == request[t]
      invariant forall ref :: ref in requested ==> exists t :: t in request && t !in left && t.ref == ref
    {
      var t :| t in left;
      if repo.None? {
        repo := Common.Some(t.repo);
      } else if repo != Common.Some(t.repo) {
        ghost var other :| other in request && other !in left;
        return false, blobs, levels, images, indexes, inside;
      }
      left := left - {t};
      requested := requested[t.ref := request[t]];
    }
    inside := requested;
    ok, blobs, levels, images, indexes := Collect(requested);
  }

  lemma ValuesOneMore(done: Request, ref: Ref, m: Content)
    requires ref !in done
    ensures done[ref := m].Values == done.Values + {m}
  {
    forall v | v in done.Values + {m}
      ensures v in done[ref := m].Values
    {
      if v == m {
        assert done[ref := m][ref] == v;
      } else {
        var k :| k in done && done[k] == v;
        assert done[ref := m][k] == v;
      }
    }
  }

  lemma EmptyPlan()
    ensures PlanCovers({}, {}, [])
  {
  }

  lemma PlanNames(roots: set<Content>, blobs: set<Digest>, levels: Levels)
    requires PlanCovers(roots, blobs, levels)
    ensures NamesContent(levels)
  {
  }

  lemma ImagePushable(m: Content)
    requires m.ImageManifest?
    ensures Pushable(m) && TreeBlobs(m) == BlobsOf(m)
  {
  }
}
