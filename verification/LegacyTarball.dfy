/** Tarballs in the v1 image format (pkg/legacy/tarball/write.go). */
module LegacyTarball {
  import opened Common
  import Names
  import Sorting
  import T = Tarball

  datatype History = History(author: string, created: string, createdBy: string, comment: string, emptyLayer: bool)

  const NO_HISTORY := History("", "", "", "", false)

  datatype ConfigFile = ConfigFile(architecture: string, container: string, dockerVersion: string, os: string,
                                   config: string, created: string, history: seq<History>)

  /** `sha` is SHA-256 in hex of a string, `text` the bytes of a file as a string. */
  datatype Codec = Codec(blobs: T.Codec, sha: string -> string, text: Bytes -> string, parse: Bytes -> ConfigFile)

  /** The metadata of one layer directory. */
  datatype LayerConfig = LayerConfig(id: string, parent: string, author: string, created: string, cmd: string,
                                     comment: string, throwaway: bool, architecture: string, container: string,
                                     dockerVersion: string, os: string, config: string)

  datatype V1Layer = V1Layer(config: LayerConfig, layer: T.Layer)

  // ---------------------------------------------------------------- layer IDs

  /** v1LayerID. */
  function V1LayerID(c: Codec, layer: T.Layer, parentID: string, rawConfig: Bytes): string {
    var s := c.blobs.hex(layer.bytes) + " " + parentID;
    c.sha(if rawConfig != [] then s + " " + c.text(rawConfig) else s)
  }

  /** newV1Layer. */
  function NewV1Layer(c: Codec, layer: T.Layer, parent: Option<V1Layer>, history: History): V1Layer {
    var parentID := if parent.Some? then parent.value.config.id else "";
    var id := V1LayerID(c, layer, parentID, []);
    V1Layer(LayerConfig(id, parentID, history.author, history.created, history.createdBy, history.comment,
                        history.emptyLayer, "", "", "", "", ""), layer)
  }

  /** newTopV1Layer. */
  function NewTopV1Layer(c: Codec, layer: T.Layer, parent: Option<V1Layer>, history: History,
                         imgConfig: ConfigFile, rawConfig: Bytes): V1Layer {
    var result := NewV1Layer(c, layer, parent, history);
    var id := V1LayerID(c, layer, result.config.parent, rawConfig);
    result.(config := result.config.(id := id, architecture := imgConfig.architecture, container := imgConfig.container,
                                     dockerVersion := imgConfig.dockerVersion, os := imgConfig.os,
                                     config := imgConfig.config, created := imgConfig.created))
  }

  /** The ID of a layer from the layers up to it alone: a chain of hashes. */
  function ChainID(c: Codec, layers: seq<T.Layer>, rawConfig: Bytes): string {
    if layers == [] then ""
    else V1LayerID(c, layers[|layers| - 1], ChainID(c, layers[..|layers| - 1], []), rawConfig)
  }

  /** No collisions, and digests are words. */
  ghost predicate Sane(c: Codec) {
    && Injective(c.blobs.hex) && Injective(c.sha) && Injective(c.text)
    && (forall b :: ' ' !in c.blobs.hex(b))
    && (forall s :: c.sha(s) != "" && ' ' !in c.sha(s))
  }

  ghost predicate SameChain(a: seq<T.Layer>, b: seq<T.Layer>) {
    |a| == |b| && forall i :: 0 <= i < |a| ==> a[i].bytes == b[i].bytes
  }

  /** Words separated by a blank can be told apart. */
  lemma WordsApart(x: string, y: string, u: string, v: string)
    requires ' ' !in x && ' ' !in u
    requires x + " " + y == u + " " + v
    ensures x == u && y == v
  {
    var s := x + " " + y;
    assert s[|x|] == ' ' && s[|u|] == ' ';
    assert forall i :: 0 <= i < |x| ==> s[i] in x;
    assert forall i :: 0 <= i < |u| ==> s[i] in u;
    assert |x| == |u|;
    assert s[..|x|] == x && s[..|u|] == u;
    assert s[|x| + 1..] == y && s[|u| + 1..] == v;
  }

  lemma IDParts(c: Codec, l: T.Layer, p: string, raw: Bytes, k: T.Layer, q: string, other: Bytes)
    requires Sane(c) && ' ' !in p && ' ' !in q
    requires V1LayerID(c, l, p, raw) == V1LayerID(c, k, q, other)
    ensures l.bytes == k.bytes && p == q && raw == other
  {
    var x, u := c.blobs.hex(l.bytes), c.blobs.hex(k.bytes);
    var y := if raw != [] then p + " " + c.text(raw) else p;
    var v := if other != [] then q + " " + c.text(other) else q;
    assert (x + " " + p) + " " + c.text(raw) == x + " " + (p + " " + c.text(raw));
    assert (u + " " + q) + " " + c.text(other) == u + " " + (q + " " + c.text(other));
    WordsApart(x, y, u, v);
    TailsApart(c, p, raw, q, other);
  }

  lemma TailsApart(c: Codec, p: string, raw: Bytes, q: string, other: Bytes)
    requires ' ' !in p && ' ' !in q && Injective(c.text)
    requires (if raw != [] then p + " " + c.text(raw) else p) == (if other != [] then q + " " + c.text(other) else q)
    ensures p == q && raw == other
  {
    HasBlank(p, c.text(raw));
    HasBlank(q, c.text(other));
    if raw != [] {
      WordsApart(p, c.text(raw), q, c.text(other));
    }
  }

  lemma HasBlank(p: string, s: string)
    ensures ' ' in p + " " + s
  {
    assert (p + " " + s)[|p|] == ' ';
  }

  lemma ChainIDIsAWord(c: Codec, layers: seq<T.Layer>, raw: Bytes)
    requires Sane(c)
    ensures ' ' !in ChainID(c, layers, raw) && (ChainID(c, layers, raw) == "" <==> layers == [])
  {
  }

  /** Equal IDs come from equal chains of layers, from the base up, and equal raw configs. */
  lemma {:induction false} EqualIDsEqualChains(c: Codec, a: seq<T.Layer>, raw: Bytes, b: seq<T.Layer>, other: Bytes)
    requires Sane(c) && a != [] && ChainID(c, a, raw) == ChainID(c, b, other)
    ensures SameChain(a, b) && raw == other
    decreases |a|
  {
    var m, n := |a| - 1, |b| - 1;
    ChainIDIsAWord(c, a, raw);
    ChainIDIsAWord(c, b, other);
    ChainIDIsAWord(c, a[..m], []);
    ChainIDIsAWord(c, b[..n], []);
    IDParts(c, a[m], ChainID(c, a[..m], []), raw, b[n], ChainID(c, b[..n], []), other);
    if m > 0 {
      EqualIDsEqualChains(c, a[..m], [], b[..n], []);
      forall i | 0 <= i <= m
        ensures a[i].bytes == b[i].bytes
      {
        if i < m {
          assert a[..m][i].bytes == b[..n][i].bytes;
        }
      }
    }
  }

  // ---------------------------------------------------------------- an image

  /** filterEmpty. */
  method FilterEmpty(h: seq<History>) returns (result: seq<History>)
    ensures result == NonEmpty(h)
  {
    result := [];
    for k := 0 to |h|
      invariant result == NonEmpty(h[..k])
    {
      assert h[..k + 1][..k] == h[..k];
      if h[k].emptyLayer {
        continue;
      }
      result := result + [h[k]];
    }
    assert h[..|h|] == h;
  }

  function NonEmpty(h: seq<History>): seq<History> {
    if h == [] then []
    else
      var rest, last := NonEmpty(h[..|h| - 1]), h[|h| - 1];
      if last.emptyLayer then rest else rest + [last]
  }

  /** The history entries of the layers, blank ones when there are none at all. */
  function Histories(c: Codec, img: T.Image): seq<History> {
    var h := NonEmpty(c.parse(img.config).history);
    if h == [] then seq(|img.layers|, _ => NO_HISTORY) else h
  }

  /** Only the top layer's ID depends on the config file. */
  function RawAt(img: T.Image, i: nat): Bytes {
    if i + 1 < |img.layers| then [] else img.config
  }

  function ID(c: Codec, img: T.Image, i: nat): string
    requires i < |img.layers|
  {
    ChainID(c, img.layers[..i + 1], RawAt(img, i))
  }

  function ParentID(c: Codec, img: T.Image, i: nat): string
    requires i < |img.layers|
  {
    ChainID(c, img.layers[..i], [])
  }

  /** Layer `i` of an image in the v1 format. */
  function V1(c: Codec, img: T.Image, i: nat): V1Layer
    requires i < |img.layers| == |Histories(c, img)|
  {
    var parent := if i == 0 then None else Some(V1(c, img, i - 1));
    if i + 1 < |img.layers| then NewV1Layer(c, img.layers[i], parent, Histories(c, img)[i])
    else NewTopV1Layer(c, img.layers[i], parent, Histories(c, img)[i], c.parse(img.config), img.config)
  }

  lemma {:induction false} V1HasID(c: Codec, img: T.Image, i: nat)
    requires i < |img.layers| == |Histories(c, img)|
    ensures var config := V1(c, img, i).config;
            config.id == ID(c, img, i) && config.parent == ParentID(c, img, i)
  {
    hide Histories, ChainID;
    IDStep(c, img, i);
    ParentIsBelow(c, img, i);
    if i > 0 {
      V1HasID(c, img, i - 1);
    }
  }

  /** Everything that stands in the metadata of a layer. */
  lemma V1Metadata(c: Codec, img: T.Image, i: nat)
    requires i < |img.layers| == |Histories(c, img)|
    ensures var v, h, file := V1(c, img, i), Histories(c, img)[i], c.parse(img.config);
            var m, top := v.config, i + 1 == |img.layers|;
            && v.layer == img.layers[i]
            && m.author == h.author && m.cmd == h.createdBy && m.comment == h.comment && m.throwaway == h.emptyLayer
            && m.created == (if top then file.created else h.created)
            && m.architecture == (if top then file.architecture else "") && m.os == (if top then file.os else "")
            && m.container == (if top then file.container else "")
            && m.dockerVersion == (if top then file.dockerVersion else "")
            && m.config == (if top then file.config else "")
            && m.parent == (if i == 0 then "" else V1(c, img, i - 1).config.id)
            && m.id == c.sha(if top && img.config != [] then
                               c.blobs.hex(img.layers[i].bytes) + " " + m.parent + " " + c.text(img.config)
                             else c.blobs.hex(img.layers[i].bytes) + " " + m.parent)
  {
    hide Histories;
  }

  lemma IDStep(c: Codec, img: T.Image, i: nat)
    requires i < |img.layers|
    ensures ID(c, img, i) == V1LayerID(c, img.layers[i], ParentID(c, img, i), RawAt(img, i))
  {
    var x := img.layers[..i + 1];
    assert |x| - 1 == i && x[..i] == img.layers[..i] && x[i] == img.layers[i];
  }

  /** A layer that has a parent has the parent's ID in its metadata. */
  lemma ParentIsBelow(c: Codec, img: T.Image, i: nat)
    requires i < |img.layers|
    ensures ParentID(c, img, i) == if i == 0 then "" else ID(c, img, i - 1)
  {
  }

  /** Equal layer IDs stand for equal contents under equal parents; a top layer's ID (of an
      image with a config file) stands for the config file too. */
  lemma EqualIDsShare(c: Codec, a: T.Image, i: nat, b: T.Image, j: nat)
    requires Sane(c) && i < |a.layers| && j < |b.layers| && ID(c, a, i) == ID(c, b, j)
    ensures i == j && SameChain(a.layers[..i + 1], b.layers[..i + 1])
    ensures a.layers[i].bytes == b.layers[j].bytes
    ensures ParentID(c, a, i) == ParentID(c, b, j)
    ensures i + 1 == |a.layers| && a.config != [] ==> j + 1 == |b.layers| && a.config == b.config
  {
    var x, y := a.layers[..i + 1], b.layers[..j + 1];
    EqualIDsEqualChains(c, x, RawAt(a, i), y, RawAt(b, j));
    assert x[i].bytes == y[i].bytes;
    forall k | 0 <= k < i
      ensures a.layers[..i][k].bytes == b.layers[..i][k].bytes
    {
      assert x[k].bytes == y[k].bytes;
    }
    SameChainsSameID(c, a.layers[..i], b.layers[..i]);
  }

  lemma {:induction false} SameChainsSameID(c: Codec, a: seq<T.Layer>, b: seq<T.Layer>)
    requires SameChain(a, b)
    ensures ChainID(c, a, []) == ChainID(c, b, [])
  {
    if a != [] {
      SameChainsSameID(c, a[..|a| - 1], b[..|a| - 1]);
    }
  }

  // ---------------------------------------------------------------- the archive

  type Repos = map<string, map<string, string>>

  datatype File =
    | Config(raw: Bytes) | LayerTar(bytes: Bytes) | LayerJson(config: LayerConfig) | Version
    | ManifestJson(m: T.Manifest) | Repositories(repos: Repos)

  datatype Entry = Entry(name: string, file: File)

  datatype Error = BadSource(error: T.Error) | HistoryMismatch(histories: nat, layers: nat) | NilLayer

  /** Layer `i` of one of the images, all of which have a history entry for each layer. */
  ghost predicate Spot(c: Codec, images: set<T.Image>, img: T.Image, i: nat) {
    img in images && i < |img.layers| == |Histories(c, img)|
  }

  /** The directory of a layer. */
  ghost function Files(c: Codec, img: T.Image, i: nat): seq<Entry>
    requires i < |img.layers| == |Histories(c, img)|
  {
    var id := ID(c, img, i);
    [Entry(id + "/layer.tar", LayerTar(c.blobs.unzip(img.layers[i].bytes))),
     Entry(id + "/json", LayerJson(V1(c, img, i).config)),
     Entry(id + "/VERSION", Version)]
  }

  ghost predicate InDir(c: Codec, images: set<T.Image>, ids: set<string>, e: Entry) {
    exists o, j :: Spot(c, images, o, j) && ID(c, o, j) in ids && e in Files(c, o, j)
  }

  ghost predicate IsConfig(c: Codec, images: set<T.Image>, e: Entry) {
    exists o :: o in images && e == Entry(c.blobs.hex(o.config) + ".json", Config(o.config))
  }

  ghost predicate DirWritten(c: Codec, images: set<T.Image>, entries: seq<Entry>, id: string) {
    exists o, j :: Spot(c, images, o, j) && ID(c, o, j) == id && forall e :: e in Files(c, o, j) ==> e in entries
  }

  /** What has been written: directories of layers, one for each ID seen, and config files. */
  ghost predicate Dirs(c: Codec, images: set<T.Image>, seen: set<string>, entries: seq<Entry>) {
    && (forall e :: e in entries ==> InDir(c, images, seen, e) || IsConfig(c, images, e))
    && (forall id :: id in seen ==> DirWritten(c, images, entries, id))
    && OnlyConfigsRepeat(entries)
  }

  ghost predicate OnlyConfigsRepeat(entries: seq<Entry>) {
    forall a, b :: 0 <= a < b < |entries| && entries[a].name == entries[b].name ==>
      entries[a].file.Config? && entries[b].file.Config?
  }

  /** The directory of a layer is complete: its own contents, and metadata with its ID and its
      parent's, taken from a layer with the same ID. */
  ghost predicate HasDir(c: Codec, images: set<T.Image>, entries: seq<Entry>, img: T.Image, i: nat)
    requires i < |img.layers|
  {
    var id := ID(c, img, i);
    && Entry(id + "/layer.tar", LayerTar(c.blobs.unzip(img.layers[i].bytes))) in entries
    && Entry(id + "/VERSION", Version) in entries
    && exists o :: Spot(c, images, o, i) && ID(c, o, i) == id
         && V1(c, o, i).config.id == id && V1(c, o, i).config.parent == ParentID(c, img, i)
         && Entry(id + "/json", LayerJson(V1(c, o, i).config)) in entries
  }

  /** Skipping a seen ID loses nothing: the directory that is there will do. */
  lemma SeenHasDir(c: Codec, images: set<T.Image>, entries: seq<Entry>, img: T.Image, i: nat)
    requires Sane(c) && i < |img.layers| && DirWritten(c, images, entries, ID(c, img, i))
    ensures HasDir(c, images, entries, img, i)
  {
    hide Sane, Histories, ID, V1, ParentID;
    var o, j :| Spot(c, images, o, j) && ID(c, o, j) == ID(c, img, i) && forall e :: e in Files(c, o, j) ==> e in entries;
    EqualIDsShare(c, img, i, o, j);
    V1HasID(c, o, j);
    var files := Files(c, o, j);
    assert files[0] in entries && files[1] in entries && files[2] in entries;
  }

  lemma NamesApart(id: string, other: string, hex: string)
    ensures id != other ==> id + "/layer.tar" != other + "/layer.tar" && id + "/json" != other + "/json" && id + "/VERSION" != other + "/VERSION"
    ensures id + "/layer.tar" != other + "/json" && id + "/layer.tar" != other + "/VERSION" && id + "/json" != other + "/VERSION"
    ensures id + "/layer.tar" != hex + ".json" && id + "/json" != hex + ".json" && id + "/VERSION" != hex + ".json"
  {
    var a, b, v := id + "/layer.tar", id + "/json", id + "/VERSION";
    var x, y, z, w := other + "/layer.tar", other + "/json", other + "/VERSION", hex + ".json";
    assert a[|a| - 1] == 'r' && x[|x| - 1] == 'r' && b[|b| - 1] == 'n' && y[|y| - 1] == 'n' && v[|v| - 1] == 'N' && z[|z| - 1] == 'N';
    assert w[|w| - 1] == 'n' && w[|w| - 5] == '.' && b[|b| - 5] == '/';
    assert a[..|a| - 10] == id && x[..|x| - 10] == other;
    assert b[..|b| - 5] == id && y[..|y| - 5] == other;
    assert v[..|v| - 8] == id && z[..|z| - 8] == other;
  }

  lemma DirWrittenStays(c: Codec, images: set<T.Image>, entries: seq<Entry>, more: seq<Entry>, id: string)
    requires DirWritten(c, images, entries, id)
    ensures DirWritten(c, images, entries + more, id)
  {
    hide ID, Files, Histories;
    var o, j :| Spot(c, images, o, j) && ID(c, o, j) == id && forall e :: e in Files(c, o, j) ==> e in entries;
    assert forall e :: e in Files(c, o, j) ==> e in entries + more;
  }

  lemma InDirStays(c: Codec, images: set<T.Image>, seen: set<string>, more: set<string>, e: Entry)
    requires InDir(c, images, seen, e) && seen <= more
    ensures InDir(c, images, more, e)
  {
    hide ID, Files, Histories;
    var o, j :| Spot(c, images, o, j) && ID(c, o, j) in seen && e in Files(c, o, j);
    assert ID(c, o, j) in more;
  }

  /** A file of an unseen directory has a new name. */
  lemma NameIsNew(c: Codec, images: set<T.Image>, seen: set<string>, e: Entry, img: T.Image, i: nat, f: Entry)
    requires InDir(c, images, seen, e) || IsConfig(c, images, e)
    requires Spot(c, images, img, i) && ID(c, img, i) !in seen && f in Files(c, img, i)
    ensures e.name != f.name
  {
    hide ID, V1;
    var id := ID(c, img, i);
    if InDir(c, images, seen, e) {
      var o, j :| Spot(c, images, o, j) && ID(c, o, j) in seen && e in Files(c, o, j);
      NamesApart(id, ID(c, o, j), "");
      NamesApart(ID(c, o, j), id, "");
    } else {
      var o :| o in images && e == Entry(c.blobs.hex(o.config) + ".json", Config(o.config));
      NamesApart(id, id, c.blobs.hex(o.config));
    }
  }

  lemma AddDir(c: Codec, images: set<T.Image>, seen: set<string>, entries: seq<Entry>, img: T.Image, i: nat)
    requires Dirs(c, images, seen, entries) && Spot(c, images, img, i) && ID(c, img, i) !in seen
    ensures Dirs(c, images, seen + {ID(c, img, i)}, entries + Files(c, img, i))
  {
    hide InDir, IsConfig, DirWritten, ID, Files, Histories;
    var id, files := ID(c, img, i), Files(c, img, i);
    var all := entries + files;
    forall e | e in all
      ensures InDir(c, images, seen + {id}, e) || IsConfig(c, images, e)
    {
      if e in files {
        NewInDir(c, images, seen + {id}, img, i, e);
      } else if InDir(c, images, seen, e) {
        InDirStays(c, images, seen, seen + {id}, e);
      }
    }
    forall k | k in seen + {id}
      ensures DirWritten(c, images, all, k)
    {
      if k in seen {
        DirWrittenStays(c, images, entries, files, k);
      } else {
        NewDirWritten(c, images, all, img, i);
      }
    }
    forall a, b | 0 <= a < b < |all| && all[a].name == all[b].name
      ensures all[a].file.Config? && all[b].file.Config?
    {
      if b < |entries| {
        assert entries[a].name == entries[b].name;
      } else if a < |entries| {
        assert all[a] == entries[a] && entries[a] in entries && all[b] == files[b - |entries|] && all[b] in files;
        NameIsNew(c, images, seen, entries[a], img, i, all[b]);
      } else {
        FilesApart(c, img, i, a - |entries|, b - |entries|);
      }
    }
  }

  lemma NewInDir(c: Codec, images: set<T.Image>, ids: set<string>, img: T.Image, i: nat, e: Entry)
    requires Spot(c, images, img, i) && ID(c, img, i) in ids && e in Files(c, img, i)
    ensures InDir(c, images, ids, e)
  {
  }

  lemma NewDirWritten(c: Codec, images: set<T.Image>, all: seq<Entry>, img: T.Image, i: nat)
    requires Spot(c, images, img, i) && forall e :: e in Files(c, img, i) ==> e in all
    ensures DirWritten(c, images, all, ID(c, img, i))
  {
  }

  lemma FilesApart(c: Codec, img: T.Image, i: nat, a: nat, b: nat)
    requires i < |img.layers| == |Histories(c, img)| && a < b < |Files(c, img, i)|
    ensures Files(c, img, i)[a].name != Files(c, img, i)[b].name
  {
    hide ID, V1, Histories;
    NamesApart(ID(c, img, i), ID(c, img, i), "");
  }

  lemma AddConfig(c: Codec, images: set<T.Image>, seen: set<string>, entries: seq<Entry>, img: T.Image)
    requires Dirs(c, images, seen, entries) && img in images
    ensures Dirs(c, images, seen, entries + [Entry(c.blobs.hex(img.config) + ".json", Config(img.config))])
  {
    hide InDir, DirWritten, ID, Files;
    var e := Entry(c.blobs.hex(img.config) + ".json", Config(img.config));
    var all := entries + [e];
    assert IsConfig(c, images, e);
    forall k | k in seen
      ensures DirWritten(c, images, all, k)
    {
      DirWrittenStays(c, images, entries, [e], k);
    }
    forall a | 0 <= a < |entries| && entries[a].name == e.name
      ensures entries[a].file.Config?
    {
      assert entries[a] in entries;
      if !IsConfig(c, images, entries[a]) {
        DirNamesAreNotConfigs(c, images, seen, entries[a], c.blobs.hex(img.config));
      }
    }
  }

  lemma DirNamesAreNotConfigs(c: Codec, images: set<T.Image>, ids: set<string>, e: Entry, hex: string)
    requires InDir(c, images, ids, e)
    ensures e.name != hex + ".json"
  {
    hide ID, V1, Histories;
    var o, j :| Spot(c, images, o, j) && ID(c, o, j) in ids && e in Files(c, o, j);
    NamesApart(ID(c, o, j), ID(c, o, j), hex);
  }

  // ---------------------------------------------------------------- writing

  datatype Written = Written(layerFiles: seq<string>, layerSources: map<string, T.BlobInfo>, top: string)

  /** The layers of one image: a directory for every ID not seen before. */
  method WriteLayers(c: Codec, ghost images: set<T.Image>, img: T.Image, history: seq<History>, cfg: ConfigFile,
                     seen0: set<string>, entries0: seq<Entry>)
    returns (r: Result<Written, Error>, seen: set<string>, entries: seq<Entry>)
    requires img in images && img.layers != [] && |history| == |img.layers|
    requires history == Histories(c, img) && cfg == c.parse(img.config)
    requires Dirs(c, images, seen0, entries0)
    ensures r.Failure? <==> T.Sources(c.blobs, img, |img.layers|).Failure?
    ensures r.Success? ==>
      && Dirs(c, images, seen, entries) && seen0 <= seen && entries0 <= entries
      && (forall k :: 0 <= k < |img.layers| ==> ID(c, img, k) in seen)
      && |r.value.layerFiles| == |img.layers|
      && (forall k :: 0 <= k < |img.layers| ==> r.value.layerFiles[k] == ID(c, img, k) + "/layer.tar")
      && T.Sources(c.blobs, img, |img.layers|) == Success(r.value.layerSources)
      && r.value.top == ID(c, img, |img.layers| - 1)
  {
    hide Histories, Dirs, ID, NewV1Layer, NewTopV1Layer, T.BlobDescriptor, T.BlobToDiffID, T.IsDistributable, T.Sources;
    seen, entries := seen0, entries0;
    var layerFiles: seq<string>, layerSources: map<string, T.BlobInfo> := [], map[];
    var prev: Option<V1Layer> := None;
    NoSources(c, img);
    for i := 0 to |img.layers|
      invariant prev == if i == 0 then None else Some(V1(c, img, i - 1))
      invariant i > 0 ==> prev.value.config.id == ID(c, img, i - 1)
      invariant |layerFiles| == i
      invariant forall k :: 0 <= k < i ==> layerFiles[k] == ID(c, img, k) + "/layer.tar"
      invariant forall k :: 0 <= k < i ==> ID(c, img, k) in seen
      invariant T.Sources(c.blobs, img, i) == Success(layerSources)
      invariant Dirs(c, images, seen, entries) && seen0 <= seen && entries0 <= entries
    {
      var l := img.layers[i];
      var source := UpdateLayerSources(c, layerSources, img, i);
      if source.Failure? {
        T.SourcesStayFailed(c.blobs, img, i + 1, |img.layers|);
        return Failure(BadSource(source.error)), seen, entries;
      }
      layerSources := source.value;
      V1HasID(c, img, i);
      var cur := if i < |img.layers| - 1 then NewV1Layer(c, l, prev, history[i])
                 else NewTopV1Layer(c, l, prev, history[i], cfg, img.config);
      assert cur == V1(c, img, i);
      layerFiles := layerFiles + [cur.config.id + "/layer.tar"];
      if cur.config.id in seen {
        prev := Some(cur);
        continue;
      }
      AddDir(c, images, seen, entries, img, i);
      seen := seen + {cur.config.id};
      ghost var before := entries;
      entries := entries + [Entry(cur.config.id + "/layer.tar", LayerTar(c.blobs.unzip(l.bytes)))];
      entries := entries + [Entry(cur.config.id + "/json", LayerJson(cur.config))];
      entries := entries + [Entry(cur.config.id + "/VERSION", Version)];
      assert entries == before + Files(c, img, i);
      prev := Some(cur);
    }
    return Success(Written(layerFiles, layerSources, prev.value.config.id)), seen, entries;
  }

  lemma NoSources(c: Codec, img: T.Image)
    ensures T.Sources(c.blobs, img, 0) == Success(map[])
  {
  }

  /** updateLayerSources. */
  method UpdateLayerSources(c: Codec, layerSources: map<string, T.BlobInfo>, img: T.Image, i: nat)
    returns (r: Result<map<string, T.BlobInfo>, T.Error>)
    requires i < |img.layers| && T.Sources(c.blobs, img, i) == Success(layerSources)
    ensures r == T.Sources(c.blobs, img, i + 1)
  {
    var d := c.blobs.hex(img.layers[i].bytes);
    var desc :- T.BlobDescriptor(c.blobs, img, d);
    if !T.IsDistributable(desc.mediaType) {
      var diffid :- T.BlobToDiffID(c.blobs, img, d);
      return Success(layerSources[diffid := desc]);
    }
    return Success(layerSources);
  }

  // The "repositories" file.

  function TopID(repos: Repos, name: string): Option<string> {
    var (base, tag) := Names.SplitTag(name);
    if base in repos && tag in repos[base] then Some(repos[base][tag]) else None
  }

  /** addTags: the tags now stand for the layer, and the others for what they stood for. */
  method AddTags(repos0: Repos, tags: seq<string>, topLayerID: string) returns (repos: Repos)
    ensures forall t :: t in tags ==> TopID(repos, t) == Some(topLayerID)
    ensures forall n :: (forall t :: t in tags ==> Names.SplitTag(t) != Names.SplitTag(n)) ==> TopID(repos, n) == TopID(repos0, n)
  {
    hide Names.SplitTag;
    repos := repos0;
    for k := 0 to |tags|
      invariant forall t :: t in tags[..k] ==> TopID(repos, t) == Some(topLayerID)
      invariant forall n :: (forall t :: t in tags[..k] ==> Names.SplitTag(t) != Names.SplitTag(n)) ==> TopID(repos, n) == TopID(repos0, n)
    {
      var t := tags[k];
      var (base, tag) := Names.SplitTag(t);
      var tagToID := if base in repos then repos[base] else map[];
      ghost var was := repos;
      repos := repos[base := tagToID[tag := topLayerID]];
      assert forall n :: Names.SplitTag(n) != Names.SplitTag(t) ==> TopID(repos, n) == TopID(was, n);
      assert forall n :: Names.SplitTag(n) == Names.SplitTag(t) ==> TopID(repos, n) == Some(topLayerID);
      assert tags[..k + 1] == tags[..k] + [t];
    }
    assert tags[..|tags|] == tags;
  }

  // ---------------------------------------------------------------- the whole tarball

  predicate HistoryFits(c: Codec, img: T.Image) {
    img.layers != [] && |Histories(c, img)| == |img.layers|
  }

  /** The images that can be written: some layers, a history that is empty or one entry for
      each of them, and diff IDs for foreign layers. */
  predicate Writable(c: Codec, img: T.Image) {
    HistoryFits(c, img) && !T.LacksDiffIDs(c.blobs, img)
  }

  ghost predicate IsDescriptor(c: Codec, refs: map<T.Ref, T.Image>, img: T.Image, d: T.Descriptor) {
    && d.config == c.blobs.hex(img.config) + ".json"
    && |d.layers| == |img.layers|
    && (forall i :: 0 <= i < |d.layers| ==> d.layers[i] == ID(c, img, i) + "/layer.tar")
    && T.Sources(c.blobs, img, |img.layers|) == Success(d.layerSources)
    && T.NoDuplicates(d.repoTags)
    && forall t :: t in d.repoTags <==> T.TagRef(t) in refs && refs[T.TagRef(t)] == img
  }

  /** An image and everything its descriptor names. */
  ghost predicate Complete(c: Codec, images: set<T.Image>, entries: seq<Entry>, img: T.Image) {
    && Entry(c.blobs.hex(img.config) + ".json", Config(img.config)) in entries
    && forall i :: 0 <= i < |img.layers| ==> HasDir(c, images, entries, img, i)
  }

  ghost predicate OfDir(c: Codec, images: set<T.Image>, e: Entry) {
    exists o, j :: Spot(c, images, o, j) && e in Files(c, o, j)
  }

  ghost predicate NothingElse(c: Codec, images: set<T.Image>, entries: seq<Entry>) {
    forall e :: e in entries ==> OfDir(c, images, e) || IsConfig(c, images, e)
  }

  /** Some tag of the image is written like that in the "repositories" file. */
  ghost predicate Claims(refs: map<T.Ref, T.Image>, img: T.Image, name: string) {
    exists t :: T.TagRef(t) in refs && refs[T.TagRef(t)] == img && Names.SplitTag(t) == Names.SplitTag(name)
  }

  /** The last image that claims a name. */
  ghost function Owner(refs: map<T.Ref, T.Image>, order: seq<T.Image>, name: string): (o: Option<T.Image>)
    ensures o.Some? ==> o.value in order
  {
    if order == [] then None
    else if Claims(refs, order[|order| - 1], name) then Some(order[|order| - 1])
    else Owner(refs, order[..|order| - 1], name)
  }

  /** It is the image at position k when none after it claims the name; there is none when none does. */
  lemma {:induction false} OwnerIsLast(refs: map<T.Ref, T.Image>, order: seq<T.Image>, name: string, k: nat)
    requires k <= |order| && forall j :: k <= j < |order| ==> !Claims(refs, order[j], name)
    ensures k == 0 ==> Owner(refs, order, name) == None
    ensures k > 0 && Claims(refs, order[k - 1], name) ==> Owner(refs, order, name) == Some(order[k - 1])
  {
    hide Claims;
    if k < |order| {
      OwnerIsLast(refs, order[..|order| - 1], name, k);
    }
  }

  /** A name stands for the top layer of the last image that claims it, and nothing else is named. */
  ghost predicate TagsAreKept(c: Codec, refs: map<T.Ref, T.Image>, order: seq<T.Image>, repos: Repos) {
    && (forall img :: img in order ==> img.layers != [])
    && forall n :: TopID(repos, n) == match Owner(refs, order, n)
                                       case None => None
                                       case Some(img) => Some(ID(c, img, |img.layers| - 1))
  }

  function ConfigKey(c: Codec): T.Image -> string { (img: T.Image) => c.blobs.hex(img.config) }

  function Itself(s: string): string { s }

  /** dedupRefToImage: the images by config digest, the tags of each by name. */
  method SortedImages(c: Codec, refs: map<T.Ref, T.Image>) returns (images: seq<T.Image>, imageToTags: map<T.Image, seq<string>>)
    ensures T.Enumerates(images, refs.Values) && Sorting.Sorted(images, ConfigKey(c))
    ensures T.Tagged(refs, imageToTags)
    ensures forall img :: img in imageToTags ==> Sorting.Sorted(imageToTags[img], Itself)
  {
    hide Sorting.Sorted, Sorting.Rearranges, ConfigKey;
    var tagged := T.DedupRefToImage(refs);
    imageToTags := map[];
    var found: seq<T.Image> := [];
    var left := tagged.Keys;
    while left != {}
      invariant left <= refs.Values && imageToTags.Keys == refs.Values - left
      invariant T.Enumerates(found, refs.Values - left)
      invariant forall img :: img in imageToTags ==>
        && Sorting.Sorted(imageToTags[img], Itself) && T.NoDuplicates(imageToTags[img])
        && forall t :: t in imageToTags[img] <==> T.TagRef(t) in refs && refs[T.TagRef(t)] == img
    {
      var img :| img in left;
      T.EnumerateMore(found, refs.Values - left, img);
      assert refs.Values - (left - {img}) == refs.Values - left + {img};
      left := left - {img};
      var tags, perm := Sorting.SortBy(tagged[img], Itself);
      Sorting.SameElements(tags, tagged[img], perm);
      imageToTags := imageToTags[img := tags];
      found := found + [img];
    }
    assert refs.Values - {} == refs.Values;
    ghost var perm;
    images, perm := Sorting.SortBy(found, ConfigKey(c));
    Sorting.SameElements(images, found, perm);
  }

  /** What the two orders are: the images by the digest of their configs, tags by themselves. */
  lemma OrdersAre(c: Codec, order: seq<T.Image>, tags: seq<string>)
    ensures Sorting.Sorted(order, ConfigKey(c)) <==>
              forall i, j :: 0 <= i < j < |order| ==> !Sorting.Less(c.blobs.hex(order[j].config), c.blobs.hex(order[i].config))
    ensures Sorting.Sorted(tags, Itself) <==> forall i, j :: 0 <= i < j < |tags| ==> !Sorting.Less(tags[j], tags[i])
  {
    hide Sorting.Less;
    forall i, j | 0 <= i < j < |order|
      ensures Sorting.Less(ConfigKey(c)(order[j]), ConfigKey(c)(order[i]))
              == Sorting.Less(c.blobs.hex(order[j].config), c.blobs.hex(order[i].config))
    {
    }
  }

  /** What MultiWrite promises.  `body` is everything but the two index files. */
  ghost predicate IsTarball(c: Codec, refs: map<T.Ref, T.Image>, order: seq<T.Image>, m: T.Manifest, repos: Repos,
                            body: seq<Entry>) {
    && T.Enumerates(order, refs.Values) && Sorting.Sorted(order, ConfigKey(c))
    && (forall d :: d in m ==> Sorting.Sorted(d.repoTags, Itself))
    && |m| == |order| && (forall k :: 0 <= k < |m| ==> IsDescriptor(c, refs, order[k], m[k]))
    && (forall img :: img in refs.Values ==> Complete(c, refs.Values, body, img))
    && NothingElse(c, refs.Values, body)
    && OnlyConfigsRepeat(body)
    && TagsAreKept(c, refs, order, repos)
  }

  /** One round of MultiWrite's loop over the images. */
  method WriteImage(c: Codec, ghost refs: map<T.Ref, T.Image>, ghost done: seq<T.Image>, img: T.Image, tags: seq<string>,
                    seen0: set<string>, entries0: seq<Entry>, repos0: Repos)
    returns (r: Result<T.Descriptor, Error>, seen: set<string>, entries: seq<Entry>, repos: Repos)
    requires Sane(c) && img in refs.Values
    requires T.NoDuplicates(tags) && forall t :: t in tags <==> T.TagRef(t) in refs && refs[T.TagRef(t)] == img
    requires Dirs(c, refs.Values, seen0, entries0) && TagsAreKept(c, refs, done, repos0)
    ensures r.Success? <==> Writable(c, img)
    ensures r.Success? ==>
      && Dirs(c, refs.Values, seen, entries) && entries0 <= entries
      && IsDescriptor(c, refs, img, r.value) && r.value.repoTags == tags && Complete(c, refs.Values, entries, img)
      && TagsAreKept(c, refs, done + [img], repos)
  {
    hide Sane, Histories, Dirs, ID, T.Sources, T.LacksDiffIDs, T.NoDuplicates, Complete, TopID, Names.SplitTag, TagsAreKept, NonEmpty;
    T.WhenSourcesFail(c.blobs, img);
    AddConfig(c, refs.Values, seen0, entries0, img);
    var cfgFile := Entry(c.blobs.hex(img.config) + ".json", Config(img.config));
    seen, entries, repos := seen0, entries0 + [cfgFile], repos0;
    assert cfgFile in entries;
    var cfg := c.parse(img.config);
    var history := FilterEmpty(cfg.history);
    HistoriesAre(c, img);
    if |history| == 0 && |img.layers| != 0 {
      history := seq(|img.layers|, _ => NO_HISTORY);
    } else if |img.layers| != |history| {
      return Failure(HistoryMismatch(|history|, |img.layers|)), seen, entries, repos;
    }
    if img.layers == [] {
      // There is no top layer to tag.
      return Failure(NilLayer), seen, entries, repos;
    }
    var w;
    w, seen, entries := WriteLayers(c, refs.Values, img, history, cfg, seen, entries);
    if w.Failure? {
      return Failure(w.error), seen, entries, repos;
    }
    NowComplete(c, refs.Values, seen, entries, img);
    repos := AddTags(repos, tags, w.value.top);
    TagsStayKept(c, refs, done, repos0, img, tags, repos);
    return Success(T.Descriptor(cfgFile.name, tags, w.value.layerFiles, w.value.layerSources)), seen, entries, repos;
  }

  /** MultiWrite. */
  method MultiWrite(c: Codec, refs: map<T.Ref, T.Image>)
    returns (r: Result<seq<Entry>, Error>, ghost order: seq<T.Image>, ghost m: T.Manifest, ghost repos: Repos, ghost body: seq<Entry>)
    requires Sane(c)
    ensures r.Success? <==> forall img :: img in refs.Values ==> Writable(c, img)
    ensures r.Success? ==> IsTarball(c, refs, order, m, repos, body)
    ensures r.Success? ==>
      r.value == body + [Entry("manifest.json", ManifestJson(m)), Entry("repositories", Repositories(repos))]
  {
    hide Sane, Dirs, Writable, IsDescriptor, T.NoDuplicates, Complete, TagsAreKept, OnlyConfigsRepeat, NothingElse,
      Sorting.Sorted, ConfigKey;
    var sortedImages, imageToTags := SortedImages(c, refs);
    ghost var images := refs.Values;
    order, m, repos, body := sortedImages, [], map[], [];
    var entries: seq<Entry>, manifest: T.Manifest, repositories: Repos := [], [], map[];
    var seenLayerIDs: set<string> := {};
    NothingWritten(c, refs);
    for k := 0 to |sortedImages|
      invariant |manifest| == k
      invariant Dirs(c, images, seenLayerIDs, entries)
      invariant forall i :: 0 <= i < k ==> IsDescriptor(c, refs, sortedImages[i], manifest[i])
      invariant forall d :: d in manifest ==> Sorting.Sorted(d.repoTags, Itself)
      invariant forall img :: img in sortedImages[..k] ==> Complete(c, images, entries, img) && Writable(c, img)
      invariant TagsAreKept(c, refs, sortedImages[..k], repositories)
    {
      var img := sortedImages[k];
      ghost var was := entries;
      assert img in sortedImages && img in imageToTags;
      var d;
      d, seenLayerIDs, entries, repositories :=
        WriteImage(c, refs, sortedImages[..k], img, imageToTags[img], seenLayerIDs, entries, repositories);
      if d.Failure? {
        return Failure(d.error), order, m, repos, body;
      }
      manifest := manifest + [d.value];
      AllStayComplete(c, images, was, entries, sortedImages[..k]);
      assert sortedImages[..k + 1] == sortedImages[..k] + [img];
    }
    assert sortedImages[..|sortedImages|] == sortedImages;
    BodyIsDirs(c, images, seenLayerIDs, entries);
    m, repos, body := manifest, repositories, entries;
    entries := entries + [Entry("manifest.json", ManifestJson(manifest))];
    entries := entries + [Entry("repositories", Repositories(repositories))];
    return Success(entries), order, m, repos, body;
  }

  lemma NothingWritten(c: Codec, refs: map<T.Ref, T.Image>)
    ensures Dirs(c, refs.Values, {}, [])
    ensures TagsAreKept(c, refs, [], map[])
  {
  }

  lemma HistoriesAre(c: Codec, img: T.Image)
    ensures var h := NonEmpty(c.parse(img.config).history);
            Histories(c, img) == if |h| == 0 && |img.layers| != 0 then seq(|img.layers|, _ => NO_HISTORY) else h
  {
  }

  lemma BodyIsDirs(c: Codec, images: set<T.Image>, seen: set<string>, entries: seq<Entry>)
    requires Dirs(c, images, seen, entries)
    ensures OnlyConfigsRepeat(entries) && NothingElse(c, images, entries)
  {
    hide ID, Files, Histories, DirWritten, IsConfig, OnlyConfigsRepeat;
    forall e | e in entries && InDir(c, images, seen, e)
      ensures OfDir(c, images, e)
    {
      var o, j :| Spot(c, images, o, j) && ID(c, o, j) in seen && e in Files(c, o, j);
    }
  }

  /** The layer directories are closed under Parent. */
  lemma ParentsAreThere(c: Codec, images: set<T.Image>, body: seq<Entry>, e: Entry)
    requires NothingElse(c, images, body) && forall img :: img in images ==> Complete(c, images, body, img)
    requires e in body && e.file.LayerJson? && e.file.config.parent != ""
    ensures exists img, i: nat :: img in images && i < |img.layers| && ID(c, img, i) == e.file.config.parent
                             && HasDir(c, images, body, img, i)
  {
    hide ID, V1, Histories, HasDir, ParentID;
    assert !IsConfig(c, images, e);
    var o, j: nat :| Spot(c, images, o, j) && e in Files(c, o, j);
    V1HasID(c, o, j);
    ParentIsBelow(c, o, j);
    assert Complete(c, images, body, o);
    assert j > 0 && HasDir(c, images, body, o, j - 1);
  }

  lemma StaysComplete(c: Codec, images: set<T.Image>, was: seq<Entry>, entries: seq<Entry>, img: T.Image)
    requires Complete(c, images, was, img) && was <= entries
    ensures Complete(c, images, entries, img)
  {
    hide ID, V1, ParentID, Spot;
    assert forall e :: e in was ==> e in entries;
    forall i | 0 <= i < |img.layers|
      ensures HasDir(c, images, entries, img, i)
    {
      assert HasDir(c, images, was, img, i);
    }
  }

  lemma AllStayComplete(c: Codec, images: set<T.Image>, was: seq<Entry>, entries: seq<Entry>, order: seq<T.Image>)
    requires forall img :: img in order ==> Complete(c, images, was, img)
    requires was <= entries
    ensures forall img :: img in order ==> Complete(c, images, entries, img)
  {
    forall img | img in order
      ensures Complete(c, images, entries, img)
    {
      StaysComplete(c, images, was, entries, img);
    }
  }

  lemma NowComplete(c: Codec, images: set<T.Image>, seen: set<string>, entries: seq<Entry>, img: T.Image)
    requires Sane(c) && Dirs(c, images, seen, entries)
    requires Entry(c.blobs.hex(img.config) + ".json", Config(img.config)) in entries
    requires forall k :: 0 <= k < |img.layers| ==> ID(c, img, k) in seen
    ensures Complete(c, images, entries, img)
  {
    hide Sane, InDir, IsConfig, DirWritten, HasDir, ID;
    forall i | 0 <= i < |img.layers|
      ensures HasDir(c, images, entries, img, i)
    {
      SeenHasDir(c, images, entries, img, i);
    }
  }

  lemma TagsStayKept(c: Codec, refs: map<T.Ref, T.Image>, done: seq<T.Image>, before: Repos, img: T.Image,
                     tags: seq<string>, after: Repos)
    requires TagsAreKept(c, refs, done, before) && img.layers != []
    requires forall t :: t in tags <==> T.TagRef(t) in refs && refs[T.TagRef(t)] == img
    requires forall t :: t in tags ==> TopID(after, t) == Some(ID(c, img, |img.layers| - 1))
    requires forall n :: (forall t :: t in tags ==> Names.SplitTag(t) != Names.SplitTag(n)) ==> TopID(after, n) == TopID(before, n)
    ensures TagsAreKept(c, refs, done + [img], after)
  {
    ClaimedNow(refs, img, tags, before, after, ID(c, img, |img.layers| - 1));
    assert (done + [img])[..|done|] == done;
    hide ID, TopID, Claims, Names.SplitTag;
  }

  /** The names that adding an image's tags changes. */
  lemma ClaimedNow(refs: map<T.Ref, T.Image>, img: T.Image, tags: seq<string>, before: Repos, after: Repos, top: string)
    requires forall t :: t in tags <==> T.TagRef(t) in refs && refs[T.TagRef(t)] == img
    requires forall t :: t in tags ==> TopID(after, t) == Some(top)
    requires forall n :: (forall t :: t in tags ==> Names.SplitTag(t) != Names.SplitTag(n)) ==> TopID(after, n) == TopID(before, n)
    ensures forall n :: TopID(after, n) == if Claims(refs, img, n) then Some(top) else TopID(before, n)
  {
    hide Names.SplitTag;
  }
}
