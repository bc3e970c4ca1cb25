/** Flattening an image's layers into one file system (pkg/v1/mutate/mutate.go).

    `Extract` makes one top-down pass with a map of handled and tombstoned names.
    The reference is `Overlay`, which applies the changesets bottom-up in the way the
    section "Whiteouts" of "Image Layer Filesystem Changeset" in the OCI Image Format
    Specification describes.  The theorems at the end relate the two. */
module Extract {

  /** The components of a clean relative path; [] is ".". */
  type Path = seq<string>

  /** A clean name as it appears in a tar header: "a/b" or, with the slash, "a/b/". */
  datatype FileName = FileName(path: Path, slash: bool)

  /** A tar entry; `content` stands for the rest of the header and the file's bytes. */
  datatype Header = Header(name: FileName, isDir: bool, content: string)

  type Layer = seq<Header>

  const WHITEOUT_PREFIX := ".wh."

  // ---------------------------------------------------------------- path/filepath

  function Base(f: FileName): string {
    if f.path == [] then "." else f.path[|f.path| - 1]
  }

  /** filepath.Dir: everything before the last slash, cleaned. */
  function Dir(f: FileName): FileName {
    if f.slash || f.path == [] then FileName(f.path, false)
    else FileName(f.path[..|f.path| - 1], false)
  }

  /** filepath.Join of a directory name and one more element, cleaned. */
  function Join(dir: FileName, element: string): FileName {
    if element == "" || element == "." then dir
    else if element == ".." && dir.path != [] && dir.path[|dir.path| - 1] != ".." then
      FileName(dir.path[..|dir.path| - 1], false)
    else FileName(dir.path + [element], false)
  }

  /** What filepath.Clean makes of elements joined by slashes. */
  function Clean(elements: seq<string>): Path {
    if elements == [] then []
    else
      var cleaned, last := Clean(elements[..|elements| - 1]), elements[|elements| - 1];
      if last in ["", "."] then cleaned
      else if last != ".." then cleaned + [last]
      else if cleaned == [] || cleaned[|cleaned| - 1] == ".." then cleaned + [".."]
      else cleaned[..|cleaned| - 1]
  }

  lemma JoinIsClean(dir: FileName, element: string)
    requires !dir.slash && Clean(dir.path) == dir.path
    ensures Join(dir, element) == FileName(Clean(dir.path + [element]), false)
  {
    assert (dir.path + [element])[..|dir.path|] == dir.path;
  }

  predicate IsTombstone(h: Header) {
    WHITEOUT_PREFIX <= Base(h.name)
  }

  function Stripped(h: Header): string {
    if IsTombstone(h) then Base(h.name)[|WHITEOUT_PREFIX|..] else Base(h.name)
  }

  /** The key under which an entry is remembered. */
  function Key(h: Header): FileName {
    if h.isDir then h.name else Join(Dir(h.name), Stripped(h))
  }

  // ---------------------------------------------------------------- the one-pass algorithm

  datatype State = State(fileMap: map<FileName, bool>, out: seq<Header>)

  /** `d` is one of the names that repeated filepath.Dir reaches from `f`. */
  predicate Above(d: FileName, f: FileName) {
    !d.slash && d.path <= f.path && (f.slash || d.path != f.path)
  }

  ghost predicate WhitedOut(fileMap: map<FileName, bool>, f: FileName) {
    exists d :: d in fileMap && fileMap[d] && Above(d, f)
  }

  ghost function Visit(s: State, h: Header): State {
    var key := Key(h);
    if key in s.fileMap || WhitedOut(s.fileMap, key) then s
    else State(s.fileMap[key := IsTombstone(h) || !h.isDir],
               if IsTombstone(h) then s.out else s.out + [h])
  }

  ghost function VisitAll(s: State, entries: seq<Header>): State {
    if entries == [] then s
    else Visit(VisitAll(s, entries[..|entries| - 1]), entries[|entries| - 1])
  }

  /** The state after the layers have been visited from the top (last) down to the first. */
  ghost function Pass(layers: seq<Layer>): State {
    if layers == [] then State(map[], [])
    else VisitAll(Pass(layers[1..]), layers[0])
  }

  method InWhiteoutDir(fileMap: map<FileName, bool>, name: FileName) returns (found: bool)
    ensures found <==> WhitedOut(fileMap, name)
  {
    var file := name;
    while true
      invariant file.path <= name.path
      invariant forall d :: d in fileMap && fileMap[d] && Above(d, name) ==> Above(d, file)
      decreases |file.path|, file.slash
    {
      var dirname := Dir(file);
      if file == dirname {
        break;
      }
      if dirname in fileMap && fileMap[dirname] {
        return true;
      }
      forall d | d in fileMap && fileMap[d] && Above(d, name)
        ensures Above(d, dirname)
      {
        assert Above(d, file) && d != dirname;
      }
      file := dirname;
    }
    return false;
  }

  /** What reading one layer yields: no stream at all, a stream that breaks between entries,
      one that breaks inside the contents of an entry, or all its entries.  The header of a cut
      entry has been written by then, with what there was of its contents. */
  datatype Source = Unreadable | Truncated(read: Layer) | Cut(read: Layer, last: Header) | Intact(entries: Layer)
  {
    function Entries(): Layer {
      match this
      case Unreadable => []
      case Truncated(read) => read
      case Cut(read, last) => read + [last]
      case Intact(entries) => entries
    }
  }

  function AllEntries(sources: seq<Source>): (layers: seq<Layer>)
    ensures |layers| == |sources|
    ensures forall i :: 0 <= i < |sources| ==> layers[i] == sources[i].Entries()
  {
    seq(|sources|, i requires 0 <= i < |sources| => sources[i].Entries())
  }

  /** mutate.extract.  On a broken layer it stops there, with the entries emitted so far; an entry
      that is cut is the last one, if it is emitted at all. */
  method ExtractLayers(sources: seq<Source>) returns (ok: bool, out: seq<Header>)
    ensures ok <==> forall s :: s in sources ==> s.Intact?
    ensures ok ==> out == Pass(AllEntries(sources)).out
    ensures !ok ==> exists i :: 0 <= i < |sources| && !sources[i].Intact?
                      && (forall k :: i < k < |sources| ==> sources[k].Intact?)
                      && out == Pass(AllEntries(sources)[i..]).out
  {
    var fileMap: map<FileName, bool> := map[];
    out := [];
    ghost var layers := AllEntries(sources);
    var i := |sources|;
    while i > 0
      invariant 0 <= i <= |sources|
      invariant forall k :: i <= k < |sources| ==> sources[k].Intact?
      invariant State(fileMap, out) == Pass(layers[i..])
    {
      i := i - 1;
      var entries := sources[i].Entries();
      ghost var above := Pass(layers[i + 1..]);
      assert layers[i..][1..] == layers[i + 1..];
      var n := 0;
      while n < |entries|
        invariant 0 <= n <= |entries|
        invariant State(fileMap, out) == VisitAll(above, entries[..n])
      {
        var header := entries[n];
        assert entries[..n + 1][..n] == entries[..n];
        n := n + 1;
        var tombstone := IsTombstone(header);
        var name := Key(header);
        if name in fileMap {
          continue;
        }
        var hidden := InWhiteoutDir(fileMap, name);
        if hidden {
          continue;
        }
        fileMap := fileMap[name := tombstone || !header.isDir];
        if !tombstone {
          out := out + [header];
        }
      }
      assert entries[..n] == entries;
      if !sources[i].Intact? {
        return false, out;
      }
    }
    assert layers[0..] == layers;
    return true, out;
  }

  lemma LayerOnTop(source: Source, above: seq<Source>)
    ensures Pass(AllEntries([source] + above)) == VisitAll(Pass(AllEntries(above)), source.Entries())
  {
    var layers := AllEntries([source] + above);
    assert layers == [source.Entries()] + AllEntries(above);
    hide VisitAll;
  }

  /** What a broken layer, the topmost one that is broken, adds to the entries above it: all that
      was read, and a cut entry unless it is hidden or a whiteout. */
  lemma BrokenLayer(read: Layer, last: Header, above: seq<Source>)
    ensures var before, s := Pass(AllEntries(above)), Pass(AllEntries([Truncated(read)] + above));
            && Pass(AllEntries([Unreadable] + above)) == before
            && s == VisitAll(before, read)
            && Pass(AllEntries([Cut(read, last)] + above)).out ==
               s.out + if Key(last) in s.fileMap || WhitedOut(s.fileMap, Key(last)) || IsTombstone(last) then [] else [last]
  {
    hide Pass, Key, IsTombstone, WhitedOut, AllEntries;
    LayerOnTop(Unreadable, above);
    LayerOnTop(Truncated(read), above);
    LayerOnTop(Cut(read, last), above);
    assert (read + [last])[..|read|] == read;
  }

  // ---------------------------------------------------------------- the reference

  /** A name ".wh.x" stands for the removal of x beside it. */
  predicate IsWhiteout(h: Header) {
    h.name.path != [] && ".wh." <= h.name.path[|h.name.path| - 1]
  }

  /** What is removed or added. */
  function Target(h: Header): Path {
    var p := h.name.path;
    if IsWhiteout(h) then p[..|p| - 1] + [p[|p| - 1][4..]] else p
  }

  /** A whiteout, or anything that is not a directory, hides what lies at or below it. */
  predicate Hides(h: Header, p: Path) { !h.isDir && Target(h) <= p }

  type FileSystem = map<Path, Header>

  function RemoveTree(fs: FileSystem, p: Path): FileSystem {
    map q | q in fs && !(p <= q) :: fs[q]
  }

  function ApplyWhiteouts(fs: FileSystem, layer: Layer): FileSystem {
    if layer == [] then fs
    else
      var rest := ApplyWhiteouts(fs, layer[..|layer| - 1]);
      var h := layer[|layer| - 1];
      if IsWhiteout(h) then RemoveTree(rest, Target(h)) else rest
  }

  /** Adds or replaces one entry; a non-directory replaces a whole tree. */
  function Add(fs: FileSystem, h: Header): FileSystem {
    if IsWhiteout(h) then fs
    else if h.isDir then fs[Target(h) := h]
    else RemoveTree(fs, Target(h))[Target(h) := h]
  }

  function ApplyAdditions(fs: FileSystem, layer: Layer): FileSystem {
    if layer == [] then fs
    else Add(ApplyAdditions(fs, layer[..|layer| - 1]), layer[|layer| - 1])
  }

  function ApplyLayer(fs: FileSystem, layer: Layer): FileSystem {
    ApplyAdditions(ApplyWhiteouts(fs, layer), layer)
  }

  /** The file system obtained by applying the layers in order, the base layer first. */
  function Overlay(layers: seq<Layer>): FileSystem {
    if layers == [] then map[]
    else ApplyLayer(Overlay(layers[..|layers| - 1]), layers[|layers| - 1])
  }

  // ---------------------------------------------------------------- well-formed layers

  predicate WellFormedEntry(h: Header) {
    && (forall c :: c in h.name.path ==> c !in ["", ".", ".."])
    && (h.isDir <==> h.name.slash)
    && (IsWhiteout(h) ==>
          // a plain whiteout: not a directory, not opaque, and naming a sibling
          && !h.isDir
          && !(".wh." <= Target(h)[|Target(h)| - 1])
          && Target(h)[|Target(h)| - 1] !in ["", ".", ".."])
  }

  /** The algorithm's names are those of the reference. */
  lemma KeyIsTarget(h: Header)
    ensures IsTombstone(h) <==> IsWhiteout(h)
    ensures WellFormedEntry(h) ==> Key(h) == FileName(Target(h), h.isDir)
  {
    var p := h.name.path;
    if WellFormedEntry(h) && p != [] {
      assert p == p[..|p| - 1] + [p[|p| - 1]];
      assert p[|p| - 1] in p;
    }
  }

  /** Within one layer no two entries have the same target, and no non-directory or
      whiteout lies above another entry. */
  predicate WellFormed(layer: Layer) {
    && (forall h :: h in layer ==> WellFormedEntry(h))
    && (forall i, j :: 0 <= i < |layer| && 0 <= j < |layer| && i != j ==>
          Target(layer[i]) != Target(layer[j]) && !Hides(layer[i], Target(layer[j])))
  }

  predicate AllWellFormed(layers: seq<Layer>) {
    forall layer :: layer in layers ==> WellFormed(layer)
  }

  // ---------------------------------------------------------------- the pass, declaratively

  /** Once `upper` has been visited, `lower` is skipped. */
  predicate Covers(upper: Header, lower: Header) {
    || Hides(upper, Target(lower))
    || (upper.isDir && lower.isDir && Target(upper) == Target(lower))
  }

  /** The same on keys, where the slash tells directories from the rest. */
  predicate CoversName(upper: FileName, lower: FileName) {
    || (!upper.slash && upper.path <= lower.path)
    || upper == lower
  }

  lemma CoversIsCoversName(upper: Header, lower: Header)
    requires WellFormedEntry(upper) && WellFormedEntry(lower)
    ensures Covers(upper, lower) <==> CoversName(Key(upper), Key(lower))
    ensures Key(lower).slash == lower.isDir
  {
    KeyIsTarget(upper);
    KeyIsTarget(lower);
    hide Key, Target, WellFormedEntry;
  }

  /** `visited` are the keys seen so far: every key in the map is one of them, and each of
      them, accepted or skipped, has an accepted key equal to it or above it. */
  ghost predicate Dominated(fileMap: map<FileName, bool>, visited: set<FileName>) {
    && (forall key :: key in fileMap ==> fileMap[key] == !key.slash && key in visited)
    && (forall key :: key in visited ==> key in fileMap || WhitedOut(fileMap, key))
  }

  /** Skipped entries are not remembered, yet the map answers as if all had been. */
  lemma SkippedIffCovered(fileMap: map<FileName, bool>, visited: set<FileName>, key: FileName)
    requires Dominated(fileMap, visited)
    ensures key in fileMap || WhitedOut(fileMap, key) <==> exists v :: v in visited && CoversName(v, key)
  {
    if WhitedOut(fileMap, key) {
      var d :| d in fileMap && fileMap[d] && Above(d, key);
      assert d in visited && CoversName(d, key);
    }
    if v :| v in visited && CoversName(v, key) {
      if v in fileMap {
        assert v == key || Above(v, key);
      } else {
        var d :| d in fileMap && fileMap[d] && Above(d, v);
        assert Above(d, key);
      }
    }
  }

  lemma AcceptKeepsDominated(fileMap: map<FileName, bool>, visited: set<FileName>, key: FileName)
    requires Dominated(fileMap, visited)
    ensures key in fileMap || WhitedOut(fileMap, key) ==> Dominated(fileMap, visited + {key})
    ensures key !in fileMap ==> Dominated(fileMap[key := !key.slash], visited + {key})
  {
    var grown := fileMap[key := !key.slash];
    if key !in fileMap {
      forall v | v in visited && v !in grown
        ensures WhitedOut(grown, v)
      {
        var d :| d in fileMap && fileMap[d] && Above(d, v);
        assert d in grown && grown[d];
      }
    }
  }

  ghost predicate EmittedKeysDistinct(s: State) {
    && (forall h :: h in s.out ==> Key(h) in s.fileMap)
    && (forall i, j :: 0 <= i < j < |s.out| ==> Key(s.out[i]) != Key(s.out[j]))
  }

  function KeysOf(layer: Layer): set<FileName> { set h | h in layer :: Key(h) }

  /** One entry: skipped or accepted exactly as the keys visited so far demand. */
  lemma VisitOne(s: State, visited: set<FileName>, h: Header)
    requires Dominated(s.fileMap, visited) && EmittedKeysDistinct(s) && WellFormedEntry(h)
    ensures Dominated(Visit(s, h).fileMap, visited + {Key(h)})
    ensures EmittedKeysDistinct(Visit(s, h))
    ensures Visit(s, h).out ==
            if IsWhiteout(h) || (exists v :: v in visited && CoversName(v, Key(h))) then s.out
            else s.out + [h]
  {
    KeyIsTarget(h);
    SkippedIffCovered(s.fileMap, visited, Key(h));
    AcceptKeepsDominated(s.fileMap, visited, Key(h));
    assert IsWhiteout(h) ==> !h.isDir;
    hide Key, IsWhiteout, IsTombstone, Target, WellFormedEntry, Dominated, CoversName, WhitedOut;
  }

  lemma {:induction false} VisitLayer(s: State, upper: set<FileName>, layer: Layer, n: nat)
    requires Dominated(s.fileMap, upper) && EmittedKeysDistinct(s)
    requires WellFormed(layer) && n <= |layer|
    ensures Dominated(VisitAll(s, layer[..n]).fileMap, upper + KeysOf(layer[..n]))
    ensures EmittedKeysDistinct(VisitAll(s, layer[..n]))
    ensures forall h :: h in VisitAll(s, layer[..n]).out <==>
              || h in s.out
              || (h in layer[..n] && !IsWhiteout(h) && !exists v :: v in upper && CoversName(v, Key(h)))
  {
    hide Key, IsWhiteout, WellFormed, WellFormedEntry, Dominated, CoversName, EmittedKeysDistinct, Visit;
    if n == 0 {
      assert upper + KeysOf(layer[..0]) == upper;
    } else {
      VisitLayer(s, upper, layer, n - 1);
      var h := layer[n - 1];
      assert layer[..n][..n - 1] == layer[..n - 1];
      assert layer[..n] == layer[..n - 1] + [h];
      var visited := upper + KeysOf(layer[..n - 1]);
      assert visited + {Key(h)} == upper + KeysOf(layer[..n]);
      SiblingsDoNotCover(layer, n - 1);
      VisitOne(VisitAll(s, layer[..n - 1]), visited, h);
      assert (exists v :: v in visited && CoversName(v, Key(h))) <==> (exists v :: v in upper && CoversName(v, Key(h)));
    }
  }

  lemma SiblingsDoNotCover(layer: Layer, n: nat)
    requires WellFormed(layer) && n < |layer|
    ensures WellFormedEntry(layer[n])
    ensures forall v :: v in KeysOf(layer[..n]) ==> !CoversName(v, Key(layer[n]))
  {
    forall v | v in KeysOf(layer[..n])
      ensures !CoversName(v, Key(layer[n]))
    {
      var j :| 0 <= j < n && Key(layer[j]) == v;
      assert Target(layer[j]) != Target(layer[n]) && !Hides(layer[j], Target(layer[n]));
      CoversIsCoversName(layer[j], layer[n]);
    }
  }

  /** An entry of layer i that nothing in a higher layer covers. */
  ghost predicate Emitted(layers: seq<Layer>, i: nat, h: Header) {
    && i < |layers| && h in layers[i] && !IsWhiteout(h)
    && forall k, e {:trigger e in layers[k]} :: i < k < |layers| && e in layers[k] ==> !Covers(e, h)
  }

  function KeysOfAll(layers: seq<Layer>): set<FileName> {
    set k, h | 0 <= k < |layers| && h in layers[k] :: Key(h)
  }

  lemma CoveredByKeys(layers: seq<Layer>, h: Header)
    requires AllWellFormed(layers) && WellFormedEntry(h)
    ensures (exists v :: v in KeysOfAll(layers) && CoversName(v, Key(h))) <==>
            exists k, e :: 0 <= k < |layers| && e in layers[k] && Covers(e, h)
  {
    forall k, e | 0 <= k < |layers| && e in layers[k]
      ensures Covers(e, h) <==> CoversName(Key(e), Key(h))
      ensures Key(e) in KeysOfAll(layers)
    {
      assert WellFormed(layers[k]);
      CoversIsCoversName(e, h);
    }
    hide Covers, CoversName, Key, AllWellFormed, WellFormedEntry;
    if v :| v in KeysOfAll(layers) && CoversName(v, Key(h)) {
      var k, e :| 0 <= k < |layers| && e in layers[k] && Key(e) == v;
      assert Covers(e, h);
    }
  }

  lemma EmittedShift(layers: seq<Layer>, h: Header)
    requires layers != []
    ensures (exists i :: Emitted(layers, i, h)) <==>
            || (exists i :: Emitted(layers[1..], i, h))
            || (h in layers[0] && !IsWhiteout(h)
                && !exists k, e :: 0 <= k < |layers[1..]| && e in layers[1..][k] && Covers(e, h))
  {
    hide Covers, IsWhiteout;
    var rest := layers[1..];
    if i: nat :| Emitted(layers, i, h) && i > 0 {
      forall k, e | i - 1 < k < |rest| && e in rest[k] ensures !Covers(e, h) {
        assert e in layers[k + 1];
      }
      assert Emitted(rest, i - 1, h);
    }
    if Emitted(layers, 0, h) {
      forall k, e | 0 <= k < |rest| && e in rest[k] ensures !Covers(e, h) {
        assert e in layers[k + 1];
      }
    }
    if i: nat :| Emitted(rest, i, h) {
      forall k, e | i + 1 < k < |layers| && e in layers[k] ensures !Covers(e, h) {
        assert e in rest[k - 1];
      }
      assert Emitted(layers, i + 1, h);
    }
    if h in layers[0] && !IsWhiteout(h)
       && !exists k, e :: 0 <= k < |rest| && e in rest[k] && Covers(e, h) {
      forall k, e | 0 < k < |layers| && e in layers[k] ensures !Covers(e, h) {
        assert e in rest[k - 1];
      }
      assert Emitted(layers, 0, h);
    }
  }

  lemma EmittedByKeys(layers: seq<Layer>, h: Header)
    requires layers != [] && AllWellFormed(layers)
    ensures (exists i :: Emitted(layers, i, h)) <==>
            || (exists i :: Emitted(layers[1..], i, h))
            || (h in layers[0] && !IsWhiteout(h)
                && !exists v :: v in KeysOfAll(layers[1..]) && CoversName(v, Key(h)))
  {
    EmittedShift(layers, h);
    if h in layers[0] {
      assert WellFormed(layers[0]);
      CoveredByKeys(layers[1..], h);
    }
  }

  lemma KeysOfAllSplit(layers: seq<Layer>)
    requires layers != []
    ensures KeysOfAll(layers) == KeysOfAll(layers[1..]) + KeysOf(layers[0])
  {
    hide Key;
    var rest := layers[1..];
    forall k, h | 0 <= k < |rest| && h in rest[k]
      ensures h in layers[k + 1]
    {
    }
    forall k, h | 0 < k < |layers| && h in layers[k]
      ensures h in rest[k - 1]
    {
    }
  }

  /** The map is complete for all visited layers, and what has been emitted is exactly
      what no higher layer covers. */
  lemma {:induction false} PassEmits(layers: seq<Layer>)
    requires AllWellFormed(layers)
    ensures Dominated(Pass(layers).fileMap, KeysOfAll(layers))
    ensures EmittedKeysDistinct(Pass(layers))
    ensures forall h :: h in Pass(layers).out <==> exists i :: Emitted(layers, i, h)
  {
    if layers == [] {
    } else {
      var rest, base := layers[1..], layers[0];
      assert AllWellFormed(rest) && WellFormed(base);
      hide Key, IsWhiteout, CoversName, Dominated, EmittedKeysDistinct, WellFormed, Emitted, VisitAll;
      PassEmits(rest);
      VisitLayer(Pass(rest), KeysOfAll(rest), base, |base|);
      assert base[..|base|] == base;
      KeysOfAllSplit(layers);
      forall h
        ensures h in Pass(layers).out <==> exists i :: Emitted(layers, i, h)
      {
        EmittedByKeys(layers, h);
      }
    }
  }

  // ---------------------------------------------------------------- the overlay, declaratively

  predicate Holds(fs: FileSystem, p: Path, h: Header) { p in fs && fs[p] == h }

  predicate Replaces(e: Header, p: Path) { Target(e) == p || Hides(e, p) }

  lemma {:induction false} WhiteoutsRemove(fs: FileSystem, layer: Layer, p: Path, h: Header)
    ensures Holds(ApplyWhiteouts(fs, layer), p, h) <==>
            Holds(fs, p, h) && forall e :: e in layer && IsWhiteout(e) ==> !(Target(e) <= p)
  {
    if layer != [] {
      var rest := layer[..|layer| - 1];
      WhiteoutsRemove(fs, rest, p, h);
      assert layer == rest + [layer[|layer| - 1]];
    }
  }

  lemma AddHolds(fs: FileSystem, added: Header, p: Path, h: Header)
    ensures Holds(Add(fs, added), p, h) <==>
            if IsWhiteout(added) then Holds(fs, p, h)
            else (h == added && Target(added) == p) || (Holds(fs, p, h) && !Replaces(added, p))
  {
    hide Key, IsWhiteout;
  }

  lemma {:induction false} AdditionsReplace(fs: FileSystem, layer: Layer, p: Path, h: Header)
    requires WellFormed(layer)
    ensures Holds(ApplyAdditions(fs, layer), p, h) <==>
            || (h in layer && !IsWhiteout(h) && Target(h) == p)
            || (Holds(fs, p, h) && forall e :: e in layer && !IsWhiteout(e) ==> !Replaces(e, p))
  {
    hide Target, IsWhiteout, WellFormedEntry, Hides, Holds, Add;
    if layer != [] {
      var rest := layer[..|layer| - 1];
      var last := layer[|layer| - 1];
      AdditionsReplace(fs, rest, p, h);
      AddHolds(ApplyAdditions(fs, rest), last, p, h);
      assert layer == rest + [last];
      forall e | e in rest
        ensures Target(e) != Target(last) && !Hides(last, Target(e))
      {
        var j :| 0 <= j < |rest| && layer[j] == e;
      }
    }
  }

  lemma ApplyLayerHolds(fs: FileSystem, layer: Layer, p: Path, h: Header)
    requires WellFormed(layer)
    ensures Holds(ApplyLayer(fs, layer), p, h) <==>
            || (h in layer && !IsWhiteout(h) && Target(h) == p)
            || (Holds(fs, p, h) && forall e :: e in layer ==> !Replaces(e, p))
  {
    WhiteoutsRemove(fs, layer, p, h);
    AdditionsReplace(ApplyWhiteouts(fs, layer), layer, p, h);
  }

  /** An entry of layer i that no higher layer replaces or removes. */
  ghost predicate Remains(layers: seq<Layer>, i: nat, h: Header) {
    && i < |layers| && h in layers[i] && !IsWhiteout(h)
    && forall k, e {:trigger e in layers[k]} :: i < k < |layers| && e in layers[k] ==> !Replaces(e, Target(h))
  }

  lemma {:induction false} OverlayHolds(layers: seq<Layer>, p: Path, h: Header)
    requires AllWellFormed(layers)
    ensures Holds(Overlay(layers), p, h) <==> Target(h) == p && exists i :: Remains(layers, i, h)
  {
    hide Key, IsWhiteout, WellFormed, ApplyLayer, Replaces;
    if layers != [] {
      var n := |layers| - 1;
      var rest := layers[..n];
      OverlayHolds(rest, p, h);
      ApplyLayerHolds(Overlay(rest), layers[n], p, h);
      if Holds(Overlay(layers), p, h) {
        if h in layers[n] && !IsWhiteout(h) && Target(h) == p {
          assert Remains(layers, n, h);
        } else {
          var i: nat :| Remains(rest, i, h);
          assert Remains(layers, i, h);
        }
      }
      if i: nat :| Remains(layers, i, h) {
        assert i < n ==> Remains(rest, i, h);
      }
    }
  }

  // ---------------------------------------------------------------- the theorems

  /** A non-directory of layer i that no higher layer hides, though layer j above it has a
      directory of the same name. */
  ghost predicate FileUnderDirectory(layers: seq<Layer>, i: nat, j: nat, e: Header, f: Header) {
    && i < j < |layers| && e in layers[i] && f in layers[j]
    && !e.isDir && !IsWhiteout(e) && f.isDir && Target(e) == Target(f)
    && forall k, x {:trigger x in layers[k]} :: i < k < |layers| && x in layers[k] ==> !Hides(x, Target(e))
  }

  ghost predicate Clash(layers: seq<Layer>) {
    exists i, j, e, f :: FileUnderDirectory(layers, i, j, e, f)
  }

  ghost predicate SameFiles(out: seq<Header>, fs: FileSystem) {
    forall h :: h in out <==> Holds(fs, Target(h), h)
  }

  lemma RemainsIsEmitted(layers: seq<Layer>, i: nat, h: Header)
    requires Remains(layers, i, h)
    ensures Emitted(layers, i, h)
  {
  }

  /** Nothing of the overlay is lost. */
  lemma OverlayIsEmitted(layers: seq<Layer>, h: Header)
    requires AllWellFormed(layers)
    requires Holds(Overlay(layers), Target(h), h)
    ensures h in Pass(layers).out
  {
    hide Key, AllWellFormed, IsWhiteout, Dominated, EmittedKeysDistinct, Pass, Overlay, Holds;
    OverlayHolds(layers, Target(h), h);
    PassEmits(layers);
    var i: nat :| Remains(layers, i, h);
    RemainsIsEmitted(layers, i, h);
  }

  /** The one pass emits exactly the bottom-up file system, unless some visible file lies
      under a directory of the same name, and then it does not. */
  lemma ExtractIsOverlay(layers: seq<Layer>)
    requires AllWellFormed(layers)
    ensures SameFiles(Pass(layers).out, Overlay(layers)) <==> !Clash(layers)
  {
    hide Key, AllWellFormed, IsWhiteout, Dominated, EmittedKeysDistinct, Pass, Overlay, Holds;
    PassEmits(layers);
    if Clash(layers) {
      var i: nat, j: nat, e, f :| FileUnderDirectory(layers, i, j, e, f);
      assert Emitted(layers, i, e);
      OverlayHolds(layers, Target(e), e);
      if i': nat :| Remains(layers, i', e) {
        assert false;
      }
    } else {
      forall h
        ensures h in Pass(layers).out <==> Holds(Overlay(layers), Target(h), h)
      {
        OverlayHolds(layers, Target(h), h);
        if h in Pass(layers).out {
          var i: nat :| Emitted(layers, i, h);
          forall k: nat, e | i < k < |layers| && e in layers[k]
            ensures !Replaces(e, Target(h))
          {
            assert Target(e) == Target(h) && !h.isDir && e.isDir ==> FileUnderDirectory(layers, i, k, h, e);
          }
          assert Remains(layers, i, h);
        } else if Holds(Overlay(layers), Target(h), h) {
          OverlayIsEmitted(layers, h);
        }
      }
    }
  }

  /** A name that marks a removal. */
  ghost predicate Marks(h: Header, p: Path, x: string) { h.name.path == p + [".wh." + x] }

  /** By the names in the headers alone, `upper` keeps `lower` out of the result: a marker for a name
      at or above it, a file or link at or above it, or another directory of the same name. */
  ghost predicate KeepsOut(upper: Header, lower: Header) {
    || (exists p, x :: Marks(upper, p, x) && p + [x] <= lower.name.path)
    || (!upper.isDir && !(exists p, x :: Marks(upper, p, x)) && upper.name.path <= lower.name.path)
    || (upper.isDir && lower.isDir && upper.name.path == lower.name.path)
  }

  lemma MarkedTarget(h: Header, p: Path, x: string)
    requires Marks(h, p, x)
    ensures IsWhiteout(h) && Target(h) == p + [x]
  {
    assert (".wh." + x)[4..] == x;
  }

  lemma MarkerOf(h: Header)
    ensures IsWhiteout(h) <==> exists p, x :: Marks(h, p, x)
    ensures !IsWhiteout(h) ==> Target(h) == h.name.path
  {
    var q := h.name.path;
    if IsWhiteout(h) {
      var last := q[|q| - 1];
      assert last == ".wh." + last[4..] && q == q[..|q| - 1] + [last];
      assert Marks(h, q[..|q| - 1], last[4..]);
    }
    if p, x :| Marks(h, p, x) {
      MarkedTarget(h, p, x);
    }
  }

  lemma KeepsOutIsCovers(upper: Header, lower: Header)
    requires WellFormedEntry(upper) && WellFormedEntry(lower) && !IsWhiteout(lower)
    ensures KeepsOut(upper, lower) <==> Covers(upper, lower)
  {
    MarkerOf(upper);
    MarkerOf(lower);
    assert IsWhiteout(upper) ==> !upper.isDir;
    hide IsWhiteout, Target, WellFormedEntry;
    if p, x :| Marks(upper, p, x) {
      MarkedTarget(upper, p, x);
      forall q, y | Marks(upper, q, y)
        ensures q + [y] == p + [x]
      {
        MarkedTarget(upper, q, y);
      }
    }
  }

  /** What comes out, said of the names in the headers: every entry of a layer that is no marker and
      that nothing in a higher layer keeps out. */
  lemma OutputByNames(layers: seq<Layer>, h: Header)
    requires AllWellFormed(layers)
    ensures h in Pass(layers).out <==>
      exists i :: 0 <= i < |layers| && h in layers[i] && !(exists p, x :: Marks(h, p, x))
             && forall k, e {:trigger e in layers[k]} :: i < k < |layers| && e in layers[k] ==> !KeepsOut(e, h)
  {
    hide Pass, KeepsOut, Covers, IsWhiteout, Marks, Dominated, EmittedKeysDistinct, WellFormedEntry, Target;
    PassEmits(layers);
    MarkerOf(h);
    forall i, k, e | 0 <= i < k < |layers| && h in layers[i] && e in layers[k] && !IsWhiteout(h)
      ensures KeepsOut(e, h) <==> Covers(e, h)
    {
      assert WellFormed(layers[i]) && WellFormed(layers[k]);
      KeepsOutIsCovers(e, h);
    }
    hide AllWellFormed;
    if i: nat :| Emitted(layers, i, h) {
      assert h in layers[i];
    }
    if i :| 0 <= i < |layers| && h in layers[i] && !IsWhiteout(h)
            && forall k, e {:trigger e in layers[k]} :: i < k < |layers| && e in layers[k] ==> !KeepsOut(e, h) {
      assert Emitted(layers, i, h);
    }
  }

  /** No marker comes out, however the layers are formed. */
  lemma {:induction false} NoMarkerComesOut(layers: seq<Layer>, h: Header, p: Path, x: string)
    requires h in Pass(layers).out
    ensures !Marks(h, p, x)
  {
    if layers == [] {
    } else if h in Pass(layers[1..]).out {
      NoMarkerComesOut(layers[1..], h, p, x);
    } else {
      VisitedAreNoTombstones(Pass(layers[1..]), layers[0], h);
      KeyIsTarget(h);
      if Marks(h, p, x) {
        MarkedTarget(h, p, x);
      }
    }
  }

  lemma {:induction false} VisitedAreNoTombstones(s: State, entries: seq<Header>, h: Header)
    requires h in VisitAll(s, entries).out && h !in s.out
    ensures !IsTombstone(h)
  {
    if entries != [] && h in VisitAll(s, entries[..|entries| - 1]).out {
      VisitedAreNoTombstones(s, entries[..|entries| - 1], h);
    }
  }

  /** No entry is emitted twice; without a clash no two entries share a path. */
  lemma EmittedOnce(layers: seq<Layer>, i: nat, j: nat)
    requires AllWellFormed(layers)
    requires i < j < |Pass(layers).out|
    ensures Key(Pass(layers).out[i]) != Key(Pass(layers).out[j])
    ensures !Clash(layers) ==> Target(Pass(layers).out[i]) != Target(Pass(layers).out[j])
  {
    PassEmits(layers);
    if !Clash(layers) {
      ExtractIsOverlay(layers);
      var out := Pass(layers).out;
      assert out[i] in out && out[j] in out;
    }
  }

  lemma {:induction false} TwiceInMultiset<T>(s: seq<T>, x: T)
    requires multiset(s)[x] >= 2
    ensures exists i, j :: 0 <= i < j < |s| && s[i] == x && s[j] == x
  {
    var n := |s| - 1;
    assert s == s[..n] + [s[n]];
    if multiset(s[..n])[x] >= 2 {
      TwiceInMultiset(s[..n], x);
      var i, j :| 0 <= i < j < n && s[..n][i] == x && s[..n][j] == x;
      assert s[i] == x && s[j] == x;
    } else {
      assert x in multiset(s[..n]);
      var i :| 0 <= i < n && s[i] == x;
      assert s[i] == x && s[n] == x;
    }
  }

  lemma TwoPositions<T>(s: seq<T>, i: nat, j: nat)
    requires i < j < |s| && s[i] == s[j]
    ensures multiset(s)[s[i]] >= 2
  {
    assert s == s[..j] + [s[j]] + s[j + 1..];
    assert s[i] in s[..j];
  }

  lemma PermutationWellFormed(a: Layer, b: Layer)
    requires WellFormed(a) && multiset(a) == multiset(b)
    ensures WellFormed(b)
  {
    assert forall h :: h in b ==> h in multiset(a);
    forall i, j | 0 <= i < |b| && 0 <= j < |b| && i != j
      ensures Target(b[i]) != Target(b[j]) && !Hides(b[i], Target(b[j]))
    {
      assert b[i] in multiset(a) && b[j] in multiset(a);
      var i' :| 0 <= i' < |a| && a[i'] == b[i];
      var j' :| 0 <= j' < |a| && a[j'] == b[j];
      if i' == j' {
        TwoPositions(b, if i < j then i else j, if i < j then j else i);
        TwiceInMultiset(a, b[i]);
        assert false;
      }
    }
  }

  /** The order of the entries inside each layer does not matter. */
  lemma EntryOrderIsIrrelevant(layers: seq<Layer>, shuffled: seq<Layer>)
    requires AllWellFormed(layers) && |layers| == |shuffled|
    requires forall i :: 0 <= i < |layers| ==> multiset(layers[i]) == multiset(shuffled[i])
    ensures forall h :: h in Pass(layers).out <==> h in Pass(shuffled).out
  {
    forall i | 0 <= i < |layers|
      ensures WellFormed(shuffled[i])
      ensures forall h :: h in layers[i] <==> h in shuffled[i]
    {
      PermutationWellFormed(layers[i], shuffled[i]);
      forall h
        ensures h in layers[i] <==> h in shuffled[i]
      {
        assert h in layers[i] <==> h in multiset(layers[i]);
        assert h in shuffled[i] <==> h in multiset(shuffled[i]);
      }
    }
    PassEmits(layers);
    PassEmits(shuffled);
    forall h
      ensures h in Pass(layers).out <==> h in Pass(shuffled).out
    {
      assert forall i: nat :: Emitted(layers, i, h) <==> Emitted(shuffled, i, h);
    }
  }

  /** The smallest clash: a directory put over a file leaves both in the output. */
  lemma FileAndDirectoryAreBothEmitted()
    ensures var file, dir := Header(FileName(["a"], false), false, "f"), Header(FileName(["a"], true), true, "d");
            var layers := [[file], [dir]];
            && AllWellFormed(layers)
            && file in Pass(layers).out && dir in Pass(layers).out
            && !SameFiles(Pass(layers).out, Overlay(layers))
  {
    var file, dir := Header(FileName(["a"], false), false, "f"), Header(FileName(["a"], true), true, "d");
    var layers := [[file], [dir]];
    assert forall layer :: layer in layers ==> layer == layers[0] || layer == layers[1];
    assert FileUnderDirectory(layers, 0, 1, file, dir);
    ExtractIsOverlay(layers);
    PassEmits(layers);
    assert Emitted(layers, 0, file) && Emitted(layers, 1, dir);
  }
}
