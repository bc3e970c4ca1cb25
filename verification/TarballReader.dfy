/** Reading an image back from a tarball (pkg/v1/tarball/image.go). */
module TarballReader {
  import opened Common
  import opened Tarball
  import Names

  // ---------------------------------------------------------------- files

  /** The contents of the first file with that name. */
  function Lookup(entries: seq<Entry>, path: string): Option<Bytes> {
    if entries == [] then None
    else if entries[0].name == path then Some(entries[0].bytes)
    else Lookup(entries[1..], path)
  }

  function FileOf(entries: seq<Entry>, path: string): Result<Bytes, Error> {
    match Lookup(entries, path)
    case Some(bytes) => Success(bytes)
    case None => Failure(NoFile(path))
  }

  /** extractFileFromTar. */
  method ExtractFileFromTar(entries: seq<Entry>, path: string) returns (r: Result<Bytes, Error>)
    ensures r == FileOf(entries, path)
  {
    for i := 0 to |entries|
      invariant Lookup(entries, path) == Lookup(entries[i..], path)
    {
      if entries[i].name == path {
        return Success(entries[i].bytes);
      }
    }
    return Failure(NoFile(path));
  }

  lemma {:induction false} LookupFinds(entries: seq<Entry>, path: string, bytes: Bytes)
    requires exists e :: e in entries && e.name == path
    requires forall e :: e in entries && e.name == path ==> e.bytes == bytes
    ensures Lookup(entries, path) == Some(bytes)
  {
    if entries[0].name != path {
      LookupFinds(entries[1..], path, bytes);
    }
  }

  // ---------------------------------------------------------------- the descriptor for a tag

  /** Where a tag stands among the tags of one image: found, not found, or unreadable.
      `resolve` parses a tag and gives its full name. */
  function FindTag(tags: seq<string>, resolve: string -> Option<string>, tag: string): Option<bool> {
    if tags == [] then Some(false)
    else if resolve(tags[0]).None? then None
    else if resolve(tags[0]) == Some(tag) then Some(true)
    else FindTag(tags[1..], resolve, tag)
  }

  function Find(m: Manifest, resolve: string -> Option<string>, tag: string): Result<Descriptor, Error> {
    if m == [] then Failure(NoTag)
    else match FindTag(m[0].repoTags, resolve, tag)
      case None => Failure(BadTag)
      case Some(found) => if found then Success(m[0]) else Find(m[1..], resolve, tag)
  }

  function Choose(m: Manifest, resolve: string -> Option<string>, tag: Option<string>): Result<Descriptor, Error> {
    match tag
    case None => if |m| != 1 then Failure(NotSingle) else Success(m[0])
    case Some(t) => Find(m, resolve, t)
  }

  /** findDescriptor. */
  method FindDescriptor(m: Manifest, resolve: string -> Option<string>, tag: Option<string>)
    returns (r: Result<Descriptor, Error>)
    ensures r == Choose(m, resolve, tag)
  {
    if tag.None? {
      if |m| != 1 {
        return Failure(NotSingle);
      }
      return Success(m[0]);
    }
    for k := 0 to |m|
      invariant Find(m, resolve, tag.value) == Find(m[k..], resolve, tag.value)
    {
      var tags := m[k].repoTags;
      assert m[k..][0] == m[k] && m[k..][1..] == m[k + 1..];
      for j := 0 to |tags|
        invariant FindTag(tags, resolve, tag.value) == FindTag(tags[j..], resolve, tag.value)
      {
        assert tags[j..][0] == tags[j] && tags[j..][1..] == tags[j + 1..];
        var repoTag := resolve(tags[j]);
        if repoTag.None? {
          return Failure(BadTag);
        }
        if repoTag.value == tag.value {
          return Success(m[k]);
        }
      }
    }
    return Failure(NoTag);
  }

  // ---------------------------------------------------------------- the compressed image

  datatype ImageManifest = ImageManifest(config: BlobInfo, layers: seq<BlobInfo>)

  /** A layer of the image that was read: what it says of itself and the file it is in. */
  datatype TarLayer = TarLayer(desc: BlobInfo, filePath: string)

  class CompressedImage {
    const c: Codec
    const entries: seq<Entry>
    const config: Bytes
    const descriptor: Descriptor
    var manifest: Option<ImageManifest>

    ghost predicate Valid()
      reads this
    {
      manifest.Some? ==> Assembled(c, entries, config, descriptor, manifest.value)
    }

    constructor (c: Codec, entries: seq<Entry>, config: Bytes, descriptor: Descriptor)
      ensures this.c == c && this.entries == entries && this.config == config && this.descriptor == descriptor
      ensures manifest == None && Valid()
    {
      this.c, this.entries, this.config, this.descriptor := c, entries, config, descriptor;
      manifest := None;
    }

    /** Manifest: the first call assembles it, later calls return what is there. */
    method Manifest() returns (r: Result<ImageManifest, Error>)
      requires Valid()
      modifies this
      ensures Valid() && manifest.Some?
      ensures old(manifest).Some? ==> manifest == old(manifest) && r == Success(manifest.value)
      ensures old(manifest).None? ==> r == Outcome(c, entries, config, descriptor, manifest.value)
    {
      if manifest.Some? {
        return Success(manifest.value);
      }
      var layers := [];
      manifest := Some(ImageManifest(BlobInfo(DOCKER_CONFIG_JSON, c.hex(config), |config|), layers));
      for i := 0 to |descriptor.layers|
        invariant manifest == Some(ImageManifest(BlobInfo(DOCKER_CONFIG_JSON, c.hex(config), |config|), layers))
        invariant |layers| == i
        invariant forall k :: 0 <= k < i ==> LayerAt(c, entries, config, descriptor, k) == Success(layers[k])
      {
        var diffIDs := c.diffIDs(config);
        if i >= |diffIDs| {
          return Failure(OutOfRange);
        }
        if diffIDs[i] in descriptor.layerSources {
          layers := layers + [descriptor.layerSources[diffIDs[i]]];
        } else {
          var l := ExtractFileFromTar(entries, descriptor.layers[i]);
          if l.Failure? {
            return Failure(l.error);
          }
          layers := layers + [BlobInfo(DOCKER_LAYER, c.hex(l.value), |l.value|)];
        }
        manifest := Some(manifest.value.(layers := layers));
      }
      return Success(manifest.value);
    }

    /** LayerByDigest. */
    method LayerByDigest(h: string) returns (r: Result<TarLayer, Error>)
      requires Valid()
      modifies this
      ensures Valid() && manifest.Some?
      ensures old(manifest).Some? ==> manifest == old(manifest)
      ensures r == if old(manifest).None? && Outcome(c, entries, config, descriptor, manifest.value).Failure?
                   then Failure(Outcome(c, entries, config, descriptor, manifest.value).error)
                   else ByDigest(descriptor, manifest.value, h)
    {
      hide LayerAt;
      var m := Manifest();
      if m.Failure? {
        return Failure(m.error);
      }
      var digests := DigestsOf(m.value);
      for i := 0 to |m.value.layers|
        invariant forall k :: 0 <= k < i ==> digests[k] != h
      {
        if m.value.layers[i].digest == h {
          assert First(digests, h) == i;
          return Success(TarLayer(m.value.layers[i], descriptor.layers[i]));
        }
      }
      return Failure(NoBlob(h));
    }

    /** Layers of the image around it: each digest of the manifest is looked up again. */
    method Layers() returns (r: Result<seq<TarLayer>, Error>)
      requires Valid()
      modifies this
      ensures Valid() && manifest.Some?
      ensures old(manifest).Some? ==> manifest == old(manifest)
      ensures r.Success? <==>
        old(manifest).Some? || Outcome(c, entries, config, descriptor, manifest.value).Success?
      ensures r.Success? ==> |r.value| == |manifest.value.layers| && forall i :: 0 <= i < |r.value| ==>
        ByDigest(descriptor, manifest.value, manifest.value.layers[i].digest) == Success(r.value[i])
    {
      hide LayerAt;
      var m := Manifest();
      if m.Failure? {
        return Failure(m.error);
      }
      var ls := [];
      for i := 0 to |m.value.layers|
        invariant Valid() && manifest == Some(m.value)
        invariant |ls| == i
        invariant forall k :: 0 <= k < i ==>
          ByDigest(descriptor, m.value, m.value.layers[k].digest) == Success(ls[k])
      {
        ListedIsFound(descriptor, m.value, i);
        var l := LayerByDigest(m.value.layers[i].digest);
        if l.Success? {
          ls := ls + [l.value];
        } else {
          assert false;
        }
      }
      return Success(ls);
    }
  }

  lemma ListedIsFound(d: Descriptor, m: ImageManifest, i: nat)
    requires |m.layers| <= |d.layers| && i < |m.layers|
    ensures ByDigest(d, m, m.layers[i].digest).Success?
  {
    assert DigestsOf(m)[i] == m.layers[i].digest;
  }

  /** A manifest that could not be assembled is taken for complete from the second call on. */
  method AskTwice(image: CompressedImage) returns (first: Result<ImageManifest, Error>, second: Result<ImageManifest, Error>)
    requires image.Valid() && image.manifest.None?
    modifies image
    ensures first.Success? ==> second == first
    ensures first.Failure? ==> second.Success? && |second.value.layers| < |image.descriptor.layers|
  {
    hide LayerAt;
    first := image.Manifest();
    second := image.Manifest();
  }

  /** What Manifest makes of layer `i`. */
  function LayerAt(c: Codec, entries: seq<Entry>, config: Bytes, d: Descriptor, i: nat): Result<BlobInfo, Error>
    requires i < |d.layers|
  {
    var diffIDs := c.diffIDs(config);
    if i >= |diffIDs| then Failure(OutOfRange)
    else if diffIDs[i] in d.layerSources then Success(d.layerSources[diffIDs[i]])
    else
      var bytes :- FileOf(entries, d.layers[i]);
      Success(BlobInfo(DOCKER_LAYER, c.hex(bytes), |bytes|))
  }

  /** The manifest holds the layers up to the first that cannot be had. */
  ghost predicate Assembled(c: Codec, entries: seq<Entry>, config: Bytes, d: Descriptor, m: ImageManifest) {
    && m.config == BlobInfo(DOCKER_CONFIG_JSON, c.hex(config), |config|)
    && |m.layers| <= |d.layers|
    && (forall k :: 0 <= k < |m.layers| ==> LayerAt(c, entries, config, d, k) == Success(m.layers[k]))
    && (|m.layers| < |d.layers| ==> LayerAt(c, entries, config, d, |m.layers|).Failure?)
  }

  ghost function Outcome(c: Codec, entries: seq<Entry>, config: Bytes, d: Descriptor, m: ImageManifest): Result<ImageManifest, Error>
    requires Assembled(c, entries, config, d, m)
  {
    if |m.layers| == |d.layers| then Success(m)
    else Failure(LayerAt(c, entries, config, d, |m.layers|).error)
  }

  function DigestsOf(m: ImageManifest): (r: seq<string>)
    ensures |r| == |m.layers| && forall i :: 0 <= i < |r| ==> r[i] == m.layers[i].digest
  {
    seq(|m.layers|, i requires 0 <= i < |m.layers| => m.layers[i].digest)
  }

  function ByDigest(d: Descriptor, m: ImageManifest, h: string): Result<TarLayer, Error>
    requires |m.layers| <= |d.layers|
  {
    var k := First(DigestsOf(m), h);
    if k < |m.layers| then Success(TarLayer(m.layers[k], d.layers[k])) else Failure(NoBlob(h))
  }

  lemma {:induction false} LookupMisses(entries: seq<Entry>, path: string)
    ensures Lookup(entries, path).None? <==> forall e :: e in entries ==> e.name != path
  {
    if entries != [] {
      LookupMisses(entries[1..], path);
      assert entries == [entries[0]] + entries[1..];
    }
  }

  /** A layer without a diff ID, or without a file and not among the layer sources. */
  predicate Unavailable(c: Codec, entries: seq<Entry>, config: Bytes, d: Descriptor, i: nat)
    requires i < |d.layers|
  {
    var diffIDs := c.diffIDs(config);
    || i >= |diffIDs|
    || (diffIDs[i] !in d.layerSources && forall e :: e in entries ==> e.name != d.layers[i])
  }

  /** The first call of Manifest fails exactly when some layer is unavailable. */
  lemma FirstCallFails(c: Codec, entries: seq<Entry>, config: Bytes, d: Descriptor, m: ImageManifest)
    requires Assembled(c, entries, config, d, m)
    ensures Outcome(c, entries, config, d, m).Failure? <==>
            exists i :: 0 <= i < |d.layers| && Unavailable(c, entries, config, d, i)
  {
    forall i | 0 <= i < |d.layers|
      ensures LayerAt(c, entries, config, d, i).Failure? <==> Unavailable(c, entries, config, d, i)
    {
      LookupMisses(entries, d.layers[i]);
    }
    hide LayerAt, Unavailable;
  }

  // ---------------------------------------------------------------- opening the tarball

  datatype Loaded = Loaded(descriptor: Descriptor, config: Bytes)

  function Load(c: Codec, entries: seq<Entry>, resolve: string -> Option<string>, tag: Option<string>): Result<Loaded, Error> {
    var b :- FileOf(entries, MANIFEST_NAME);
    match c.parse(b)
    case None => Failure(NoManifest)
    case Some(m) =>
      var d :- Choose(m, resolve, tag);
      var config :- FileOf(entries, d.config);
      Success(Loaded(d, config))
  }

  datatype Opened = Compressed(image: CompressedImage) | Uncompressed(descriptor: Descriptor, config: Bytes)

  /** Image: the first layer decides whether the layers are taken for compressed. */
  method Open(c: Codec, entries: seq<Entry>, resolve: string -> Option<string>, tag: Option<string>)
    returns (r: Result<Opened, Error>)
    ensures Load(c, entries, resolve, tag).Failure? ==> r == Failure(Load(c, entries, resolve, tag).error)
    ensures Load(c, entries, resolve, tag).Success? ==>
      var Loaded(d, config) := Load(c, entries, resolve, tag).value;
      if d.layers == [] then r == Success(Uncompressed(d, config))
      else match FileOf(entries, d.layers[0])
        case Failure(e) => r == Failure(e)
        case Success(bytes) =>
          if c.gzipped(bytes) then
            && r.Success? && r.value.Compressed? && fresh(r.value.image)
            && var image := r.value.image;
               image.c == c && image.entries == entries && image.config == config && image.descriptor == d
               && image.manifest.None? && image.Valid()
          else r == Success(Uncompressed(d, config))
  {
    hide Lookup, Choose;
    var b :- ExtractFileFromTar(entries, MANIFEST_NAME);
    var m := c.parse(b);
    if m.None? {
      return Failure(NoManifest);
    }
    var d :- FindDescriptor(m.value, resolve, tag);
    var config :- ExtractFileFromTar(entries, d.config);
    if |d.layers| > 0 {
      var blob :- ExtractFileFromTar(entries, d.layers[0]);
      if c.gzipped(blob) {
        var image := new CompressedImage(c, entries, config, d);
        return Success(Compressed(image));
      }
    }
    return Success(Uncompressed(d, config));
  }

  /** A tarball without its second layer: the first call names the missing file, the second
      returns a manifest with the first layer alone. */
  method ReadIncompleteTarball(c: Codec, resolve: string -> Option<string>, m: Bytes, config: Bytes, layer: Bytes)
    returns (first: Result<ImageManifest, Error>, second: Result<ImageManifest, Error>)
    requires c.parse(m) == Some([Descriptor("config", [], ["a.tar.gz", "b.tar.gz"], map[])])
    requires |c.diffIDs(config)| == 2 && c.gzipped(layer)
    ensures first == Failure(NoFile("b.tar.gz"))
    ensures second.Success? && second.value.layers == [BlobInfo(DOCKER_LAYER, c.hex(layer), |layer|)]
  {
    var entries := [Entry(MANIFEST_NAME, m), Entry("config", config), Entry("a.tar.gz", layer)];
    IncompleteLookups(m, config, layer);
    hide Lookup;
    var opening := Open(c, entries, resolve, None);
    var image := opening.value.image;
    first := image.Manifest();
    second := image.Manifest();
    assert LayerAt(c, entries, config, image.descriptor, 0).Success?;
    assert LayerAt(c, entries, config, image.descriptor, 1) == Failure(NoFile("b.tar.gz"));
  }

  lemma IncompleteLookups(m: Bytes, config: Bytes, layer: Bytes)
    ensures var entries := [Entry(MANIFEST_NAME, m), Entry("config", config), Entry("a.tar.gz", layer)];
      && Lookup(entries, MANIFEST_NAME) == Some(m) && Lookup(entries, "config") == Some(config)
      && Lookup(entries, "a.tar.gz") == Some(layer) && Lookup(entries, "b.tar.gz") == None
  {
    var entries := [Entry(MANIFEST_NAME, m), Entry("config", config), Entry("a.tar.gz", layer)];
    assert MANIFEST_NAME[0] == 'm';
    LookupFinds(entries, MANIFEST_NAME, m) by {
      assert entries[0] in entries;
    }
    LookupFinds(entries, "config", config) by {
      assert entries[1] in entries;
    }
    LookupFinds(entries, "a.tar.gz", layer) by {
      assert entries[2] in entries;
    }
    LookupMisses(entries, "b.tar.gz");
  }

  // ---------------------------------------------------------------- the round trip

  /** What the tarball format rests on. */
  ghost predicate Sane(c: Codec) {
    && Injective(c.hex)
    && (forall b :: ':' !in c.hex(b))
    && (forall m :: m != [] ==> c.parse(c.json(m)) == Some(m))
  }

  /** Gzip layers, and a config file that lists their diff IDs. */
  ghost predicate Consistent(c: Codec, img: Image) {
    && |c.diffIDs(img.config)| == |img.layers|
    && (forall i :: 0 <= i < |img.layers| ==> c.gzipped(img.layers[i].bytes))
    && (forall i :: 0 <= i < |img.layers| ==> c.diffIDs(img.config)[i] == c.hex(c.unzip(img.layers[i].bytes)))
    && !c.gzipped(img.config)
  }

  /** All tags can be parsed, and none is ambiguous. */
  ghost predicate Unambiguous(refs: map<Ref, Image>, resolve: string -> Option<string>) {
    && (forall t :: TagRef(t) in refs ==> resolve(t).Some?)
    && (forall t, u :: TagRef(t) in refs && TagRef(u) in refs && resolve(t) == resolve(u) ==> refs[TagRef(t)] == refs[TagRef(u)])
  }

  /** A foreign layer shares its diff ID with a layer of another digest. */
  ghost predicate ForeignClash(c: Codec, img: Image) {
    && |c.diffIDs(img.config)| == |img.layers|
    && (exists i, j :: 0 <= i < |img.layers| && 0 <= j < |img.layers| && Foreign(c, img, j)
          && c.diffIDs(img.config)[i] == c.diffIDs(img.config)[j]
          && c.hex(img.layers[i].bytes) != c.hex(img.layers[j].bytes))
  }

  function TwoCompressions(config: Bytes, a: Bytes, b: Bytes): Image {
    Image(0, config, [Layer(a, DOCKER_FOREIGN_LAYER), Layer(b, DOCKER_LAYER)])
  }

  /** It does happen: the same contents compressed twice, once as a foreign layer. */
  lemma TwoCompressionsClash(c: Codec, config: Bytes, a: Bytes, b: Bytes)
    requires Sane(c) && c.unzip(a) == c.unzip(b) && a != b && a != config
    requires c.diffIDs(config) == [c.hex(c.unzip(a)), c.hex(c.unzip(b))]
    ensures ForeignClash(c, TwoCompressions(config, a, b))
  {
    var img := TwoCompressions(config, a, b);
    FirstOf(c, img, 0);
    assert Foreign(c, img, 0);
    assert c.diffIDs(img.config)[1] == c.diffIDs(img.config)[0];
    assert c.hex(img.layers[1].bytes) != c.hex(img.layers[0].bytes);
  }

  lemma NamesApart(c: Codec, img: Image, a: Layer, b: Layer)
    requires Sane(c)
    ensures LayerName(c, a) == LayerName(c, b) ==> a.bytes == b.bytes
    ensures ConfigName(c, img) != LayerName(c, a)
    ensures MANIFEST_NAME != LayerName(c, a)
  {
    var x, y := LayerName(c, a), LayerName(c, b);
    if x == y {
      assert x[..|x| - 7] == c.hex(a.bytes) && y[..|y| - 7] == c.hex(b.bytes);
    }
    assert ConfigName(c, img)[6] == ':';
    assert ':' !in x;
    assert x[|x| - 1] == 'z';
  }

  lemma ConfigNamesApart(c: Codec, a: Image, b: Image)
    requires Sane(c)
    ensures ConfigName(c, a) == ConfigName(c, b) ==> a.config == b.config
    ensures ConfigName(c, a) != MANIFEST_NAME
  {
    var x, y := ConfigName(c, a), ConfigName(c, b);
    assert x[6] == ':' && MANIFEST_NAME[6] == 's';
    if x == y {
      assert x[7..] == c.hex(a.config) && y[7..] == c.hex(b.config);
    }
  }

  lemma NamedAlike(c: Codec, images: set<Image>, e: Entry, img: Image)
    requires Sane(c) && Belongs(c, images, e)
    ensures e.name == ConfigName(c, img) ==> e.bytes == img.config
    ensures e.name != MANIFEST_NAME
    ensures forall l :: e.name == LayerName(c, l) ==> e.bytes == l.bytes
  {
    var o :| o in images && (e == Entry(ConfigName(c, o), o.config)
      || exists l :: l in o.layers && e == Entry(LayerName(c, l), l.bytes));
    ConfigNamesApart(c, o, img);
    if e == Entry(ConfigName(c, o), o.config) {
      forall k
        ensures e.name != LayerName(c, k)
      {
        NamesApart(c, o, k, k);
      }
    } else {
      var l :| l in o.layers && e == Entry(LayerName(c, l), l.bytes);
      NamesApart(c, img, l, l);
      forall k
        ensures e.name == LayerName(c, k) ==> e.bytes == k.bytes
      {
        NamesApart(c, img, l, k);
      }
    }
  }

  /** Every file of the tarball is the first of its name with its contents. */
  lemma FilesAreFound(c: Codec, images: set<Image>, entries: seq<Entry>, m: Manifest, img: Image)
    requires Sane(c) && Archives(c, images, entries) && img in images
    ensures var all := entries + [Entry(MANIFEST_NAME, c.json(m))];
      && Lookup(all, MANIFEST_NAME) == Some(c.json(m))
      && Lookup(all, ConfigName(c, img)) == Some(img.config)
      && forall l :: l in img.layers ==> Lookup(all, LayerName(c, l)) == Some(l.bytes)
  {
    hide Belongs, ConfigName, LayerName, Lookup;
    var last := Entry(MANIFEST_NAME, c.json(m));
    var all := entries + [last];
    forall e | e in entries
      ensures e.name == ConfigName(c, img) ==> e.bytes == img.config
      ensures e.name != MANIFEST_NAME
      ensures forall l :: e.name == LayerName(c, l) ==> e.bytes == l.bytes
    {
      NamedAlike(c, images, e, img);
    }
    assert last in all;
    LookupFinds(all, MANIFEST_NAME, c.json(m));
    ConfigNamesApart(c, img, img);
    assert Entry(ConfigName(c, img), img.config) in all;
    LookupFinds(all, ConfigName(c, img), img.config);
    forall l | l in img.layers
      ensures Lookup(all, LayerName(c, l)) == Some(l.bytes)
    {
      NamesApart(c, img, l, l);
      assert HasLayer(c, entries, l);
      var e :| e in entries && e.name == LayerName(c, l) && c.hex(e.bytes) == c.hex(l.bytes);
      assert e in all;
      LookupFinds(all, LayerName(c, l), l.bytes);
    }
  }

  // What findDescriptor finds.

  lemma {:induction false} TagIsFound(tags: seq<string>, resolve: string -> Option<string>, tag: string)
    requires forall t :: t in tags ==> resolve(t).Some?
    ensures FindTag(tags, resolve, tag) == Some(exists t :: t in tags && resolve(t) == Some(tag))
  {
    if tags != [] {
      assert tags[0] in tags;
      assert forall t :: t in tags <==> t == tags[0] || t in tags[1..];
      TagIsFound(tags[1..], resolve, tag);
    }
  }

  lemma {:induction false} DescriptorIsFound(c: Codec, refs: map<Ref, Image>, order: seq<Image>, m: Manifest,
                                             resolve: string -> Option<string>, t: string)
    requires Describes(c, refs, order, m) && Unambiguous(refs, resolve)
    requires TagRef(t) in refs && refs[TagRef(t)] in order
    ensures var r := Find(m, resolve, resolve(t).value);
            r.Success? && IsDescriptor(c, refs, refs[TagRef(t)], r.value)
    decreases |m|
  {
    hide ConfigName, LayerName, Sources;
    var img := refs[TagRef(t)];
    assert IsDescriptor(c, refs, order[0], m[0]);
    TagIsFound(m[0].repoTags, resolve, resolve(t).value);
    if order[0] != img {
      assert Describes(c, refs, order[1..], m[1..]) by {
        forall i | 0 <= i < |m| - 1
          ensures IsDescriptor(c, refs, order[1..][i], m[1..][i])
        {
          assert IsDescriptor(c, refs, order[i + 1], m[i + 1]);
        }
      }
      DescriptorIsFound(c, refs, order[1..], m[1..], resolve, t);
    } else {
      assert t in m[0].repoTags;
    }
  }

  // The layers.

  /** The digest and the size of a layer. */
  predicate IsOf(c: Codec, d: BlobInfo, l: Layer) { d.digest == c.hex(l.bytes) && d.size == |l.bytes| }

  predicate SameBlob(a: BlobInfo, b: BlobInfo) { a.digest == b.digest && a.size == b.size }

  ghost predicate IsOfSome(c: Codec, d: BlobInfo, img: Image) {
    exists j :: 0 <= j < |img.layers| && IsOf(c, d, img.layers[j])
  }

  lemma OwnDescriptor(c: Codec, img: Image, i: nat)
    requires Sane(c) && Consistent(c, img) && i < |img.layers|
    ensures var h := c.hex(img.layers[i].bytes);
      && BlobDescriptor(c, img, h).Success?
      && IsOf(c, BlobDescriptor(c, img, h).value, img.layers[i])
      && BlobToDiffID(c, img, h) == Success(c.diffIDs(img.config)[i])
  {
    FirstOf(c, img, i);
    assert img.config != img.layers[i].bytes;
  }

  /** Of the first n layers, `j` is the last foreign one with that diff ID. */
  ghost predicate LastForeign(c: Codec, img: Image, n: nat, diffID: string, j: nat)
    requires n <= |img.layers| == |c.diffIDs(img.config)|
  {
    && j < n && Foreign(c, img, j) && c.diffIDs(img.config)[j] == diffID
    && forall k :: j < k < n && Foreign(c, img, k) ==> c.diffIDs(img.config)[k] != diffID
  }

  /** Under every diff ID of a foreign layer stands the last one with it. */
  ghost predicate LastOnes(c: Codec, img: Image, n: nat, sources: map<string, BlobInfo>)
    requires n <= |img.layers| == |c.diffIDs(img.config)|
  {
    && (forall j :: 0 <= j < n && Foreign(c, img, j) ==> c.diffIDs(img.config)[j] in sources)
    && (forall k :: k in sources ==> exists j: nat :: LastForeign(c, img, n, k, j) && IsOf(c, sources[k], img.layers[j]))
  }

  lemma LastOnesMore(c: Codec, img: Image, n: nat, sources: map<string, BlobInfo>, desc: BlobInfo)
    requires n < |img.layers| == |c.diffIDs(img.config)| && LastOnes(c, img, n, sources) && IsOf(c, desc, img.layers[n])
    ensures LastOnes(c, img, n + 1, if Foreign(c, img, n) then sources[c.diffIDs(img.config)[n] := desc] else sources)
  {
    hide IsOf, Foreign;
    var diffID := c.diffIDs(img.config)[n];
    var more := if Foreign(c, img, n) then sources[diffID := desc] else sources;
    forall k | k in more
      ensures exists j: nat :: LastForeign(c, img, n + 1, k, j) && IsOf(c, more[k], img.layers[j])
    {
      if Foreign(c, img, n) && diffID == k {
        assert LastForeign(c, img, n + 1, k, n);
      } else {
        var j: nat :| LastForeign(c, img, n, k, j) && IsOf(c, sources[k], img.layers[j]);
        assert LastForeign(c, img, n + 1, k, j);
      }
    }
  }

  lemma {:induction false} SourcesHold(c: Codec, img: Image, n: nat)
    requires Sane(c) && Consistent(c, img) && n <= |img.layers| == |c.diffIDs(img.config)|
    ensures Sources(c, img, n).Success? && LastOnes(c, img, n, Sources(c, img, n).value)
  {
    hide Sane, Consistent, IsOf, LastForeign, BlobDescriptor, BlobToDiffID, IsDistributable;
    if n > 0 {
      SourcesHold(c, img, n - 1);
      OwnDescriptor(c, img, n - 1);
      var desc := BlobDescriptor(c, img, c.hex(img.layers[n - 1].bytes)).value;
      LastOnesMore(c, img, n - 1, Sources(c, img, n - 1).value, desc);
    }
  }

  /** At position `i` layer `j` comes back: the last foreign one with that diff ID, or the layer
      itself if there is none. */
  ghost predicate ReadAs(c: Codec, img: Image, i: nat, j: nat)
    requires i < |img.layers| == |c.diffIDs(img.config)|
  {
    var diffID, n := c.diffIDs(img.config)[i], |img.layers|;
    || LastForeign(c, img, n, diffID, j)
    || (j == i && forall k :: 0 <= k < n && Foreign(c, img, k) ==> c.diffIDs(img.config)[k] != diffID)
  }

  /** Reading as another layer is either reading the same bytes or a clash. */
  lemma ReadAsAnother(c: Codec, img: Image, i: nat, j: nat)
    requires Sane(c) && Consistent(c, img) && i < |img.layers| && j < |img.layers| && ReadAs(c, img, i, j)
    ensures img.layers[i].bytes == img.layers[j].bytes || ForeignClash(c, img)
    ensures forall j': nat :: j' < |img.layers| && ReadAs(c, img, i, j') ==> j' == j
  {
    hide Foreign;
  }

  /** Which layer comes back at each position. */
  lemma WhatIsReadBack(c: Codec, entries: seq<Entry>, img: Image, d: Descriptor, m: ImageManifest) returns (origin: seq<nat>)
    requires Sane(c) && Consistent(c, img) && |img.layers| == |d.layers| == |c.diffIDs(img.config)|
    requires Sources(c, img, |img.layers|) == Success(d.layerSources)
    requires forall i :: 0 <= i < |img.layers| ==> Lookup(entries, d.layers[i]) == Some(img.layers[i].bytes)
    requires Assembled(c, entries, img.config, d, m)
    ensures |m.layers| == |img.layers| == |origin|
    ensures forall i :: 0 <= i < |origin| ==>
      origin[i] < |img.layers| && ReadAs(c, img, i, origin[i]) && IsOf(c, m.layers[i], img.layers[origin[i]])
  {
    hide Lookup, Foreign, Sources, Sane, Consistent;
    SourcesHold(c, img, |img.layers|);
    origin := [];
    for i := 0 to |img.layers|
      invariant |origin| == i
      invariant forall k :: 0 <= k < i ==>
        && origin[k] < |img.layers| && ReadAs(c, img, k, origin[k])
        && LayerAt(c, entries, img.config, d, k).Success?
        && IsOf(c, LayerAt(c, entries, img.config, d, k).value, img.layers[origin[k]])
    {
      var diffID := c.diffIDs(img.config)[i];
      if diffID in d.layerSources {
        var j: nat :| LastForeign(c, img, |img.layers|, diffID, j) && IsOf(c, d.layerSources[diffID], img.layers[j]);
        origin := origin + [j];
      } else {
        origin := origin + [i];
      }
    }
  }

  /** The layers come back with their digests and sizes exactly when no foreign layer shares its
      diff ID with a layer of another digest. */
  lemma LayersReadBack(c: Codec, entries: seq<Entry>, img: Image, d: Descriptor, m: ImageManifest)
    requires Sane(c) && Consistent(c, img) && |img.layers| == |d.layers| == |c.diffIDs(img.config)|
    requires Sources(c, img, |img.layers|) == Success(d.layerSources)
    requires forall i :: 0 <= i < |img.layers| ==> Lookup(entries, d.layers[i]) == Some(img.layers[i].bytes)
    requires Assembled(c, entries, img.config, d, m)
    ensures |m.layers| == |img.layers|
    ensures (forall i :: 0 <= i < |img.layers| ==> IsOf(c, m.layers[i], img.layers[i])) <==> !ForeignClash(c, img)
    ensures forall i :: 0 <= i < |img.layers| ==> IsOfSome(c, m.layers[i], img)
  {
    hide Lookup, Foreign, Sources, Sane, Consistent, Assembled, LastForeign;
    var origin := WhatIsReadBack(c, entries, img, d, m);
    var n := |img.layers|;
    forall i: nat | i < n
      ensures IsOfSome(c, m.layers[i], img)
      ensures IsOf(c, m.layers[i], img.layers[i]) || ForeignClash(c, img)
    {
      ReadAsAnother(c, img, i, origin[i]);
    }
    if ForeignClash(c, img) {
      var i: nat, j: nat :| i < n && j < n && Foreign(c, img, j)
        && c.diffIDs(img.config)[i] == c.diffIDs(img.config)[j]
        && c.hex(img.layers[i].bytes) != c.hex(img.layers[j].bytes);
      assert ReadAs(c, img, j, origin[i]);
      ReadAsAnother(c, img, j, origin[i]);
      assert m.layers[i].digest == m.layers[j].digest;
    }
  }

  /** Whatever they were, the config and all but foreign layers come back with the media types of Docker. */
  lemma ReadBackTypes(c: Codec, entries: seq<Entry>, config: Bytes, d: Descriptor, m: ImageManifest, i: nat)
    requires Assembled(c, entries, config, d, m) && i < |m.layers|
    ensures m.config == BlobInfo("application/vnd.docker.container.image.v1+json", c.hex(config), |config|)
    ensures i < |c.diffIDs(config)|
    ensures c.diffIDs(config)[i] !in d.layerSources ==>
              m.layers[i].mediaType == "application/vnd.docker.image.rootfs.diff.tar.gzip"
    ensures c.diffIDs(config)[i] in d.layerSources ==> m.layers[i] == d.layerSources[c.diffIDs(config)[i]]
  {
    hide Lookup;
    assert LayerAt(c, entries, config, d, i) == Success(m.layers[i]);
  }

  /** One content compressed twice, first as a foreign layer: both positions come back with the
      first digest. */
  lemma TwoCompressionsReadAsOne(c: Codec, config: Bytes, a: Bytes, b: Bytes, entries: seq<Entry>, d: Descriptor, m: ImageManifest)
    requires Sane(c) && c.unzip(a) == c.unzip(b) && a != b
    requires Consistent(c, TwoCompressions(config, a, b)) && |d.layers| == 2
    requires Sources(c, TwoCompressions(config, a, b), 2) == Success(d.layerSources)
    requires Lookup(entries, d.layers[0]) == Some(a) && Lookup(entries, d.layers[1]) == Some(b)
    requires Assembled(c, entries, config, d, m)
    ensures |m.layers| == 2 && m.layers[0].digest == m.layers[1].digest == c.hex(a) != c.hex(b)
  {
    var img := TwoCompressions(config, a, b);
    FirstOf(c, img, 0);
    FirstOf(c, img, 1);
    assert Foreign(c, img, 0) && !Foreign(c, img, 1);
    hide Foreign, Sources, Lookup, Assembled;
    var diffIDs := c.diffIDs(config);
    assert diffIDs[1] == diffIDs[0] && LastForeign(c, img, 2, diffIDs[0], 0);
    assert ReadAs(c, img, 0, 0) && ReadAs(c, img, 1, 0);
    var origin := WhatIsReadBack(c, entries, img, d, m);
    ReadAsAnother(c, img, 0, 0);
    ReadAsAnother(c, img, 1, 0);
  }

  /** Looking the digests up again makes no difference, and finds the contents. */
  lemma LookedUpAgain(c: Codec, entries: seq<Entry>, img: Image, d: Descriptor, m: ImageManifest, i: nat)
    requires Injective(c.hex) && i < |img.layers| == |d.layers| == |m.layers|
    requires forall k :: 0 <= k < |img.layers| ==> Lookup(entries, d.layers[k]) == Some(img.layers[k].bytes)
    requires forall k :: 0 <= k < |img.layers| ==> IsOfSome(c, m.layers[k], img)
    ensures var r := ByDigest(d, m, m.layers[i].digest);
      && r.Success?
      && SameBlob(r.value.desc, m.layers[i])
      && Lookup(entries, r.value.filePath).Some?
      && ((forall k :: 0 <= k < |img.layers| ==> IsOf(c, m.layers[k], img.layers[k])) ==>
            Lookup(entries, r.value.filePath) == Some(img.layers[i].bytes))
  {
    hide Lookup;
    ListedIsFound(d, m, i);
    var k := First(DigestsOf(m), m.layers[i].digest);
    assert IsOfSome(c, m.layers[k], img) && IsOfSome(c, m.layers[i], img);
  }

  /** What Load gives for a tag of the tarball. */
  lemma TaggedImageLoads(c: Codec, refs: map<Ref, Image>, order: seq<Image>, m: Manifest, entries: seq<Entry>,
                         resolve: string -> Option<string>, t: string)
    requires Sane(c) && IsTarball(c, refs, order, m, entries)
    requires TagRef(t) in refs && Unambiguous(refs, resolve)
    ensures var img, r := refs[TagRef(t)], Load(c, entries, resolve, resolve(t));
      && r.Success? && r.value.config == img.config && IsDescriptor(c, refs, img, r.value.descriptor)
      && forall i :: 0 <= i < |img.layers| ==> Lookup(entries, r.value.descriptor.layers[i]) == Some(img.layers[i].bytes)
  {
    hide Lookup, Describes, Archives, Find, Load, Sources, Unambiguous, ConfigName, LayerName;
    var img := refs[TagRef(t)];
    var tag := resolve(t);
    assert img in refs.Values;
    assert entries == entries[..|entries| - 1] + [Entry(MANIFEST_NAME, c.json(m))];
    FilesAreFound(c, refs.Values, entries[..|entries| - 1], m, img);
    TagResolves(refs, resolve, t);
    OrderHas(c, refs, order, m, img);
    DescriptorIsFound(c, refs, order, m, resolve, t);
    LoadIs(c, entries, resolve, tag.value, m, Find(m, resolve, tag.value).value, img.config);
  }

  lemma LoadIs(c: Codec, entries: seq<Entry>, resolve: string -> Option<string>, tag: string,
               m: Manifest, d: Descriptor, config: Bytes)
    requires Lookup(entries, MANIFEST_NAME) == Some(c.json(m)) && c.parse(c.json(m)) == Some(m)
    requires Find(m, resolve, tag) == Success(d) && Lookup(entries, d.config) == Some(config)
    ensures Load(c, entries, resolve, Some(tag)) == Success(Loaded(d, config))
  {
    hide Lookup, Find;
  }

  lemma TagResolves(refs: map<Ref, Image>, resolve: string -> Option<string>, t: string)
    requires TagRef(t) in refs && Unambiguous(refs, resolve)
    ensures resolve(t).Some?
  {
  }

  lemma OrderHas(c: Codec, refs: map<Ref, Image>, order: seq<Image>, m: Manifest, img: Image)
    requires Describes(c, refs, order, m) && img in order
    ensures m != []
  {
  }

  lemma NothingToClash(c: Codec, img: Image)
    requires img.layers == []
    ensures !ForeignClash(c, img)
  {
  }

  lemma NothingLacking(c: Codec, refs: map<Ref, Image>)
    requires forall img :: img in refs.Values ==> Consistent(c, img)
    ensures !exists img :: img in refs.Values && LacksDiffIDs(c, img)
  {
  }

  lemma OneDiffIDEach(c: Codec, img: Image)
    requires Consistent(c, img)
    ensures |c.diffIDs(img.config)| == |img.layers|
  {
  }

  /** The layers of an image that was opened, with the files they are in. */
  method ReadLayers(image: CompressedImage, ghost img: Image) returns (layers: seq<TarLayer>, contents: seq<Bytes>)
    requires image.Valid() && image.manifest.None?
    requires Sane(image.c) && Consistent(image.c, img) && image.config == img.config
    requires |img.layers| == |image.descriptor.layers|
    requires Sources(image.c, img, |img.layers|) == Success(image.descriptor.layerSources)
    requires forall i :: 0 <= i < |img.layers| ==>
      Lookup(image.entries, image.descriptor.layers[i]) == Some(img.layers[i].bytes)
    modifies image
    ensures |layers| == |contents| == |img.layers|
    ensures (forall i :: 0 <= i < |layers| ==> IsOf(image.c, layers[i].desc, img.layers[i])) <==> !ForeignClash(image.c, img)
    ensures !ForeignClash(image.c, img) ==> forall i :: 0 <= i < |layers| ==> contents[i] == img.layers[i].bytes
  {
    hide Lookup, LayerAt, Sources, ForeignClash, ByDigest, Assembled, IsOfSome, Consistent;
    OneDiffIDEach(image.c, img);
    var r := image.Layers();
    ghost var d, m := image.descriptor, image.manifest.value;
    LayersReadBack(image.c, image.entries, img, d, m);
    layers, contents := r.value, [];
    for i := 0 to |layers|
      invariant |contents| == i
      invariant !ForeignClash(image.c, img) ==> forall k :: 0 <= k < i ==> contents[k] == img.layers[k].bytes
      invariant forall k :: 0 <= k < i ==> SameBlob(layers[k].desc, m.layers[k])
    {
      LookedUpAgain(image.c, image.entries, img, d, m, i);
      var file := ExtractFileFromTar(image.entries, layers[i].filePath);
      contents := contents + [file.value];
    }
    assert forall k :: 0 <= k < |layers| ==> SameBlob(layers[k].desc, m.layers[k]);
  }

  /** Writing images and reading one of them back by any of its tags: the config file is the
      same, and so are the digests and sizes of the layers, in order, exactly when no foreign
      layer shares its diff ID with a layer of another digest; then the contents are the same
      too. */
  method WriteThenRead(c: Codec, refs: map<Ref, Image>, resolve: string -> Option<string>, t: string)
    returns (config: Bytes, layers: seq<TarLayer>, contents: seq<Bytes>)
    requires Sane(c) && Unambiguous(refs, resolve)
    requires forall img :: img in refs.Values ==> Consistent(c, img)
    requires TagRef(t) in refs
    ensures config == refs[TagRef(t)].config
    ensures |layers| == |contents| == |refs[TagRef(t)].layers|
    ensures (forall i :: 0 <= i < |layers| ==> IsOf(c, layers[i].desc, refs[TagRef(t)].layers[i]))
       <==> !ForeignClash(c, refs[TagRef(t)])
    ensures !ForeignClash(c, refs[TagRef(t)]) ==>
      forall i :: 0 <= i < |layers| ==> contents[i] == refs[TagRef(t)].layers[i].bytes
  {
    hide Lookup, Load, Sane, IsTarball, Sources, IsOf, ForeignClash, Unambiguous, LacksDiffIDs, ConfigName, LayerName,
      Consistent;
    var img := refs[TagRef(t)];
    assert img in refs.Values;
    NothingLacking(c, refs);
    var entries, size, order, written, m := MultiRefWrite(c, refs);
    TaggedImageLoads(c, refs, order, m, entries.value, resolve, t);
    FirstIsGzipped(c, img);
    var tarball := Open(c, entries.value, resolve, resolve(t));
    if tarball.value.Uncompressed? {
      NothingToClash(c, img);
      return tarball.value.config, [], [];
    }
    config := tarball.value.image.config;
    layers, contents := ReadLayers(tarball.value.image, img);
  }

  lemma FirstIsGzipped(c: Codec, img: Image)
    requires Consistent(c, img)
    ensures img.layers != [] ==> c.gzipped(img.layers[0].bytes)
  {
  }

  // ---------------------------------------------------------------- tags by name

  /** name.NewTag with default options, and the full name of the result. */
  function Resolve(authority: string -> bool): string -> Option<string> {
    s =>
      var t := Names.NewTag(authority, s, Names.DEFAULTS);
      if t.Success? then Some(Names.TagName(t.value)) else None
  }

  /** The references are tags that can be parsed, with pairwise distinct full names. */
  ghost predicate DistinctNames(refs: map<Ref, Image>, authority: string -> bool) {
    && (forall t :: TagRef(t) in refs ==> Names.NewTag(authority, t, Names.DEFAULTS).Success?)
    && (forall t, u :: TagRef(t) in refs && TagRef(u) in refs && t != u ==>
          Names.TagName(Names.NewTag(authority, t, Names.DEFAULTS).value)
          != Names.TagName(Names.NewTag(authority, u, Names.DEFAULTS).value))
  }

  lemma DistinctNamesAreUnambiguous(refs: map<Ref, Image>, authority: string -> bool)
    requires DistinctNames(refs, authority)
    ensures Unambiguous(refs, Resolve(authority))
  {
    hide Names.NewTag, Names.TagName;
    forall t, u | TagRef(t) in refs && TagRef(u) in refs && Resolve(authority)(t) == Resolve(authority)(u)
      ensures refs[TagRef(t)] == refs[TagRef(u)]
    {
      assert Names.NewTag(authority, t, Names.DEFAULTS).Success? && Names.NewTag(authority, u, Names.DEFAULTS).Success?;
    }
  }

  /** The round trip for images under tags with pairwise distinct names. */
  method WriteThenReadByName(c: Codec, refs: map<Ref, Image>, authority: string -> bool, t: string)
    returns (config: Bytes, layers: seq<TarLayer>, contents: seq<Bytes>)
    requires Sane(c) && DistinctNames(refs, authority)
    requires forall img :: img in refs.Values ==> Consistent(c, img)
    requires TagRef(t) in refs
    ensures config == refs[TagRef(t)].config
    ensures |layers| == |contents| == |refs[TagRef(t)].layers|
    ensures (forall i :: 0 <= i < |layers| ==> IsOf(c, layers[i].desc, refs[TagRef(t)].layers[i]))
       <==> !ForeignClash(c, refs[TagRef(t)])
    ensures !ForeignClash(c, refs[TagRef(t)]) ==>
      forall i :: 0 <= i < |layers| ==> contents[i] == refs[TagRef(t)].layers[i].bytes
  {
    DistinctNamesAreUnambiguous(refs, authority);
    hide *;
    config, layers, contents := WriteThenRead(c, refs, Resolve(authority), t);
  }
}
