/** Writing images to a tarball and the size it will have (pkg/v1/tarball/write.go). */
module Tarball {
  import opened Common
  import Sorting

  /** SHA-256 in hex, gzip detection and decompression, the diff IDs in a config file, and
      manifest.json as it is encoded and decoded. */
  datatype Codec = Codec(hex: Bytes -> string, gzipped: Bytes -> bool, unzip: Bytes -> Bytes,
                         diffIDs: Bytes -> seq<string>,
                         json: Manifest -> Bytes, parse: Bytes -> Option<Manifest>)

  const DOCKER_LAYER := "application/vnd.docker.image.rootfs.diff.tar.gzip"
  const DOCKER_CONFIG_JSON := "application/vnd.docker.container.image.v1+json"
  const DOCKER_FOREIGN_LAYER := "application/vnd.docker.image.rootfs.foreign.diff.tar.gzip"
  const OCI_RESTRICTED_LAYER := "application/vnd.oci.image.layer.nondistributable.v1.tar+gzip"
  const OCI_UNCOMPRESSED_RESTRICTED_LAYER := "application/vnd.oci.image.layer.nondistributable.v1.tar"

  predicate IsDistributable(mediaType: string) {
    mediaType !in {DOCKER_FOREIGN_LAYER, OCI_RESTRICTED_LAYER, OCI_UNCOMPRESSED_RESTRICTED_LAYER}
  }

  /** The layers that are not distributed, by their media types. */
  lemma NotDistributed(mediaType: string)
    ensures !IsDistributable(mediaType) <==>
              || mediaType == "application/vnd.docker.image.rootfs.foreign.diff.tar.gzip"
              || mediaType == "application/vnd.oci.image.layer.nondistributable.v1.tar+gzip"
              || mediaType == "application/vnd.oci.image.layer.nondistributable.v1.tar"
  {
  }

  datatype Layer = Layer(bytes: Bytes, mediaType: string)

  /** `id` is the image's identity: equal images under different pointers stay apart. */
  datatype Image = Image(id: nat, config: Bytes, layers: seq<Layer>)

  datatype Ref = TagRef(name: string) | DigestRef(name: string)

  datatype BlobInfo = BlobInfo(mediaType: string, digest: string, size: nat)

  datatype Descriptor = Descriptor(config: string, repoTags: seq<string>, layers: seq<string>,
                                   layerSources: map<string, BlobInfo>)

  type Manifest = seq<Descriptor>

  datatype Entry = Entry(name: string, bytes: Bytes)

  function ConfigName(c: Codec, img: Image): string { "sha256:" + c.hex(img.config) }

  function LayerName(c: Codec, l: Layer): string { c.hex(l.bytes) + ".tar.gz" }

  const MANIFEST_NAME := "manifest.json"

  // ---------------------------------------------------------------- references to images

  ghost predicate NoDuplicates<T(!new)>(s: seq<T>) {
    forall i, j :: 0 <= i < j < |s| ==> s[i] != s[j]
  }

  /** Each image with its tags, in the order in which the map happened to be walked. */
  ghost predicate Tagged(refs: map<Ref, Image>, m: map<Image, seq<string>>) {
    && m.Keys == refs.Values
    && forall img :: img in m ==>
         && NoDuplicates(m[img])
         && forall t :: t in m[img] <==> TagRef(t) in refs && refs[TagRef(t)] == img
  }

  /** dedupRefToImage. */
  method DedupRefToImage(refs: map<Ref, Image>) returns (imageToTags: map<Image, seq<string>>)
    ensures Tagged(refs, imageToTags)
  {
    imageToTags := map[];
    var left := refs.Keys;
    while left != {}
      invariant left <= refs.Keys
      invariant forall img :: img in imageToTags <==> exists r :: r in refs && r !in left && refs[r] == img
      invariant forall img :: img in imageToTags ==> NoDuplicates(imageToTags[img])
      invariant forall img, t :: img in imageToTags ==>
        (t in imageToTags[img] <==> TagRef(t) in refs && TagRef(t) !in left && refs[TagRef(t)] == img)
    {
      var ref :| ref in left;
      left := left - {ref};
      var img := refs[ref];
      if ref.TagRef? {
        if img in imageToTags && imageToTags[img] != [] {
          imageToTags := imageToTags[img := imageToTags[img] + [ref.name]];
        } else {
          imageToTags := imageToTags[img := [ref.name]];
        }
      } else if img !in imageToTags {
        imageToTags := imageToTags[img := []];
      }
    }
  }

  // ---------------------------------------------------------------- sizes

  /** What the ustar format makes of a file: a header block and the contents in whole blocks. */
  function Cost(size: nat): nat { 512 + 512 * ((size + 511) / 512) }

  /** calculateSingleFileInTarSize. */
  method CalculateSingleFileInTarSize(size: nat) returns (out: nat)
    ensures out == Cost(size)
  {
    out := size;
    var remainder := out % 512;
    if remainder != 0 {
      out := out + (512 - remainder);
    }
    out := out + 512;
  }

  function ImageSize(img: Image): nat { Cost(|img.config|) + LayersSize(img.layers) }

  function LayersSize(layers: seq<Layer>): nat {
    if layers == [] then 0 else LayersSize(layers[..|layers| - 1]) + Cost(|layers[|layers| - 1].bytes|)
  }

  function Total(images: seq<Image>): nat {
    if images == [] then 0 else Total(images[..|images| - 1]) + ImageSize(images[|images| - 1])
  }

  /** `order` lists the elements of `s`, each once. */
  ghost predicate Enumerates<T(!new)>(order: seq<T>, s: set<T>) {
    NoDuplicates(order) && forall x :: x in order <==> x in s
  }

  lemma EnumerateMore<T(!new)>(order: seq<T>, s: set<T>, x: T)
    requires Enumerates(order, s) && x !in s
    ensures Enumerates(order + [x], s + {x})
  {
  }

  lemma {:induction false} TotalWithout(images: seq<Image>, i: nat)
    requires i < |images|
    ensures Total(images) == Total(images[..i] + images[i + 1..]) + ImageSize(images[i])
  {
    var n := |images| - 1;
    var without := images[..i] + images[i + 1..];
    if i == n {
      assert without == images[..n];
    } else {
      TotalWithout(images[..n], i);
      assert without[..|without| - 1] == images[..n][..i] + images[..n][i + 1..];
      assert without[|without| - 1] == images[n];
    }
  }

  /** The total does not depend on the order in which the images are walked. */
  lemma {:induction false} TotalIsOrderFree(a: seq<Image>, b: seq<Image>, s: set<Image>)
    requires Enumerates(a, s) && Enumerates(b, s)
    ensures Total(a) == Total(b)
    decreases |a|
  {
    if a == [] {
      assert forall i :: 0 <= i < |b| ==> b[i] in a;
    } else {
      var n := |a| - 1;
      var x := a[n];
      assert x in a && x in b;
      var i :| 0 <= i < |b| && b[i] == x;
      TotalWithout(b, i);
      assert Enumerates(a[..n], s - {x}) by {
        assert a == a[..n] + [x];
      }
      Without(b, s, i);
      TotalIsOrderFree(a[..n], b[..i] + b[i + 1..], s - {x});
    }
  }

  lemma Without<T(!new)>(b: seq<T>, s: set<T>, i: nat)
    requires Enumerates(b, s) && i < |b|
    ensures Enumerates(b[..i] + b[i + 1..], s - {b[i]})
  {
    var w := b[..i] + b[i + 1..];
    forall x
      ensures x in w <==> x in s - {b[i]}
    {
      if x in b && x != b[i] {
        var k :| 0 <= k < |b| && b[k] == x;
        assert w[if k < i then k else k - 1] == x;
      }
    }
  }

  lemma {:induction false} EnumerationExists<T(!new)>(s: set<T>)
    ensures exists order :: Enumerates(order, s)
    decreases |s|
  {
    if s == {} {
      assert Enumerates([], s);
    } else {
      var x :| x in s;
      EnumerationExists(s - {x});
      var order :| Enumerates(order, s - {x});
      EnumerateMore(order, s - {x}, x);
      assert s - {x} + {x} == s;
    }
  }

  /** What all images come to, in whatever order they are added up. */
  ghost function SizeOf(images: set<Image>): nat {
    EnumerationExists(images);
    var order :| Enumerates(order, images);
    Total(order)
  }

  lemma TotalIsSize(order: seq<Image>, images: set<Image>)
    requires Enumerates(order, images)
    ensures Total(order) == SizeOf(images)
  {
    hide Total, Enumerates;
    EnumerationExists(images);
    forall other | Enumerates(other, images)
      ensures Total(other) == Total(order)
    {
      TotalIsOrderFree(order, other, images);
    }
  }

  /** calculateTarballSize, walking the images in some order. */
  method CalculateTarballSize(refs: map<Ref, Image>, manifestSize: nat) returns (size: nat)
    ensures size == SizeOf(refs.Values) + Cost(manifestSize) + 1024
  {
    hide SizeOf;
    var imageToTags := DedupRefToImage(refs);
    size := 0;
    ghost var order := [];
    var left := imageToTags.Keys;
    while left != {}
      invariant left <= refs.Values
      invariant Enumerates(order, refs.Values - left)
      invariant size == Total(order)
    {
      var img :| img in left;
      ghost var done := refs.Values - left;
      left := left - {img};
      var cost := CalculateSingleFileInTarSize(|img.config|);
      size := size + cost;
      for n := 0 to |img.layers|
        invariant size == Total(order) + Cost(|img.config|) + LayersSize(img.layers[..n])
      {
        assert img.layers[..n + 1][..n] == img.layers[..n];
        cost := CalculateSingleFileInTarSize(|img.layers[n].bytes|);
        size := size + cost;
      }
      assert img.layers[..|img.layers|] == img.layers;
      EnumerateMore(order, done, img);
      assert refs.Values - left == done + {img};
      order := order + [img];
      assert order[..|order| - 1] == order[..|order| - 1];
    }
    assert refs.Values - {} == refs.Values;
    TotalIsSize(order, refs.Values);
    var cost := CalculateSingleFileInTarSize(manifestSize);
    size := size + cost + 1024;
  }

  // ---------------------------------------------------------------- the archive

  function EntriesSize(entries: seq<Entry>): nat {
    if entries == [] then 0
    else EntriesSize(entries[..|entries| - 1]) + Cost(|entries[|entries| - 1].bytes|)
  }

  /** The bytes of a tar file: its entries and a trailer of two blocks. */
  function TarSize(entries: seq<Entry>): nat { EntriesSize(entries) + 1024 }

  function FlatLayers(images: seq<Image>): seq<Layer> {
    if images == [] then [] else FlatLayers(images[..|images| - 1]) + images[|images| - 1].layers
  }

  function Digests(c: Codec, layers: seq<Layer>): set<string> {
    set k | k in layers :: c.hex(k.bytes)
  }

  predicate Seen(c: Codec, layers: seq<Layer>, l: Layer) { c.hex(l.bytes) in Digests(c, layers) }

  /** The cost of the layers whose digest occurs earlier. */
  function Repeated(c: Codec, layers: seq<Layer>): nat {
    if layers == [] then 0
    else
      var rest, l := layers[..|layers| - 1], layers[|layers| - 1];
      Repeated(c, rest) + if Seen(c, rest, l) then Cost(|l.bytes|) else 0
  }

  ghost predicate HasConfig(c: Codec, entries: seq<Entry>, img: Image) {
    Entry(ConfigName(c, img), img.config) in entries
  }

  /** A file under the layer's name, with the bytes of a layer of the same digest. */
  ghost predicate HasLayer(c: Codec, entries: seq<Entry>, l: Layer) {
    exists e :: e in entries && e.name == LayerName(c, l) && c.hex(e.bytes) == c.hex(l.bytes)
  }

  /** A file that belongs to one of the images. */
  ghost predicate Belongs(c: Codec, images: set<Image>, e: Entry) {
    exists img :: img in images &&
      (e == Entry(ConfigName(c, img), img.config)
       || exists l :: l in img.layers && e == Entry(LayerName(c, l), l.bytes))
  }

  /** All images are there, with every layer, and nothing else is. */
  ghost predicate Archives(c: Codec, images: set<Image>, entries: seq<Entry>) {
    && (forall img :: img in images ==> HasConfig(c, entries, img) && forall l :: l in img.layers ==> HasLayer(c, entries, l))
    && (forall e :: e in entries ==> Belongs(c, images, e))
  }

  lemma HasLayerStays(c: Codec, entries: seq<Entry>, e: Entry, l: Layer)
    requires HasLayer(c, entries, l)
    ensures HasLayer(c, entries + [e], l)
  {
    var x :| x in entries && x.name == LayerName(c, l) && c.hex(x.bytes) == c.hex(l.bytes);
    assert x in entries + [e];
  }

  lemma EntriesMore(c: Codec, entries: seq<Entry>, e: Entry)
    ensures EntriesSize(entries + [e]) == EntriesSize(entries) + Cost(|e.bytes|)
    ensures forall l :: HasLayer(c, entries, l) ==> HasLayer(c, entries + [e], l)
  {
    assert (entries + [e])[..|entries|] == entries;
    forall l | HasLayer(c, entries, l)
      ensures HasLayer(c, entries + [e], l)
    {
      HasLayerStays(c, entries, e, l);
    }
  }

  /** What the writer has done: `layers` are all layers it has come across, in order; those with
      a digest it had seen before were not written again. */
  ghost predicate Written(c: Codec, images: set<Image>, size: nat, layers: seq<Layer>, entries: seq<Entry>) {
    && (forall l :: l in layers ==> HasLayer(c, entries, l))
    && (forall e :: e in entries ==> Belongs(c, images, e))
    && EntriesSize(entries) + Repeated(c, layers) == size
  }

  /** The layers of one image. */
  method WriteLayers(c: Codec, img: Image, seen0: set<string>, entries0: seq<Entry>,
                     ghost images: set<Image>, ghost size: nat, ghost before: seq<Layer>)
    returns (seen: set<string>, entries: seq<Entry>)
    requires img in images && seen0 == Digests(c, before)
    requires Written(c, images, size, before, entries0)
    ensures seen == Digests(c, before + img.layers)
    ensures Written(c, images, size + LayersSize(img.layers), before + img.layers, entries)
    ensures entries0 <= entries
  {
    hide Written, Digests, LayersSize, Cost;
    seen, entries := seen0, entries0;
    var n := 0;
    assert before + img.layers[..0] == before;
    NoLayers();
    while n < |img.layers|
      invariant 0 <= n <= |img.layers|
      invariant seen == Digests(c, before + img.layers[..n])
      invariant Written(c, images, size + LayersSize(img.layers[..n]), before + img.layers[..n], entries)
      invariant entries0 <= entries
    {
      var l := img.layers[n];
      ghost var so, was := before + img.layers[..n], size + LayersSize(img.layers[..n]);
      assert before + img.layers[..n + 1] == so + [l];
      LayersMore(c, img.layers, n, so);
      n := n + 1;
      var hex := c.hex(l.bytes);
      if hex in seen {
        SkipLayer(c, images, was, so, entries, l);
        continue;
      }
      seen := seen + {hex};
      AddLayer(c, images, was, so, entries, l, img);
      entries := entries + [Entry(LayerName(c, l), l.bytes)];
    }
    assert img.layers[..n] == img.layers;
  }

  lemma NoLayers()
    ensures LayersSize([]) == 0
  {
  }

  lemma LayersMore(c: Codec, layers: seq<Layer>, n: nat, so: seq<Layer>)
    requires n < |layers|
    ensures LayersSize(layers[..n + 1]) == LayersSize(layers[..n]) + Cost(|layers[n].bytes|)
    ensures Digests(c, so + [layers[n]]) == Digests(c, so) + {c.hex(layers[n].bytes)}
    ensures c.hex(layers[n].bytes) in Digests(c, so) ==> Digests(c, so + [layers[n]]) == Digests(c, so)
  {
    assert layers[..n + 1][..n] == layers[..n];
    DigestsMore(c, so, layers[n]);
  }

  lemma DigestsMore(c: Codec, so: seq<Layer>, l: Layer)
    ensures Digests(c, so + [l]) == Digests(c, so) + {c.hex(l.bytes)}
  {
    forall h
      ensures h in Digests(c, so + [l]) <==> h in Digests(c, so) + {c.hex(l.bytes)}
    {
      if h in Digests(c, so) {
        var k :| k in so && c.hex(k.bytes) == h;
        assert k in so + [l];
      }
      assert l in so + [l];
    }
  }

  lemma SkipLayer(c: Codec, images: set<Image>, size: nat, so: seq<Layer>, entries: seq<Entry>, l: Layer)
    requires Written(c, images, size, so, entries) && Seen(c, so, l)
    ensures Written(c, images, size + Cost(|l.bytes|), so + [l], entries)
  {
    hide Cost, Belongs, EntriesSize;
    assert (so + [l])[..|so|] == so;
    var k :| k in so && c.hex(k.bytes) == c.hex(l.bytes);
    assert HasLayer(c, entries, k);
  }

  lemma AddLayer(c: Codec, images: set<Image>, size: nat, so: seq<Layer>, entries: seq<Entry>, l: Layer, img: Image)
    requires Written(c, images, size, so, entries) && !Seen(c, so, l)
    requires img in images && l in img.layers
    ensures Written(c, images, size + Cost(|l.bytes|), so + [l], entries + [Entry(LayerName(c, l), l.bytes)])
  {
    NewLayer(c, images, img, entries, l);
    hide Cost, Belongs, EntriesSize, HasLayer;
    assert (so + [l])[..|so|] == so;
  }

  lemma NewLayer(c: Codec, images: set<Image>, img: Image, entries: seq<Entry>, l: Layer)
    requires img in images && l in img.layers
    ensures var e := Entry(LayerName(c, l), l.bytes);
            && Belongs(c, images, e) && HasLayer(c, entries + [e], l)
            && EntriesSize(entries + [e]) == EntriesSize(entries) + Cost(|l.bytes|)
            && forall k :: HasLayer(c, entries, k) ==> HasLayer(c, entries + [e], k)
  {
    var e := Entry(LayerName(c, l), l.bytes);
    EntriesMore(c, entries, e);
    assert e in entries + [e];
  }

  lemma AddConfig(c: Codec, images: set<Image>, size: nat, so: seq<Layer>, entries: seq<Entry>, img: Image)
    requires Written(c, images, size, so, entries) && img in images
    ensures var e := Entry(ConfigName(c, img), img.config);
            && HasConfig(c, entries + [e], img)
            && Written(c, images, size + Cost(|img.config|), so, entries + [e])
  {
    var e := Entry(ConfigName(c, img), img.config);
    EntriesMore(c, entries, e);
    assert Belongs(c, images, e);
  }

  /** writeImagesToTar, walking the images in some order: the archive holds everything, and
      its size falls short of the calculated one by exactly the repeated layers. */
  method WriteImagesToTar(c: Codec, refs: map<Ref, Image>, m: Bytes) returns (entries: seq<Entry>, ghost order: seq<Image>)
    ensures Enumerates(order, refs.Values)
    ensures entries != [] && entries[|entries| - 1] == Entry(MANIFEST_NAME, m)
    ensures Archives(c, refs.Values, entries[..|entries| - 1])
    ensures TarSize(entries) + Repeated(c, FlatLayers(order)) == Total(order) + Cost(|m|) + 1024
  {
    hide Written, LayersSize, Repeated, Cost, Digests, Archives, EntriesSize;
    var imageToTags := DedupRefToImage(refs);
    ghost var images := refs.Values;
    entries, order := [], [];
    var seenLayerDigests: set<string> := {};
    var left := imageToTags.Keys;
    NothingWritten(c, images);
    while left != {}
      invariant left <= images
      invariant Enumerates(order, images - left)
      invariant seenLayerDigests == Digests(c, FlatLayers(order))
      invariant Written(c, images, Total(order), FlatLayers(order), entries)
      invariant forall img :: img in order ==> HasConfig(c, entries, img)
    {
      var img :| img in left;
      EnumerateMore(order, images - left, img);
      assert images - (left - {img}) == images - left + {img};
      left := left - {img};
      AddConfig(c, images, Total(order), FlatLayers(order), entries, img);
      entries := entries + [Entry(ConfigName(c, img), img.config)];
      assert (order + [img])[..|order|] == order;
      ghost var earlier := entries;
      seenLayerDigests, entries :=
        WriteLayers(c, img, seenLayerDigests, entries, images, Total(order) + Cost(|img.config|), FlatLayers(order));
      order := order + [img];
      forall x | x in order
        ensures HasConfig(c, entries, x)
      {
        assert HasConfig(c, earlier, x);
      }
    }
    assert images - {} == images;
    Finish(c, images, order, entries, m);
    entries := entries + [Entry(MANIFEST_NAME, m)];
  }

  lemma Finish(c: Codec, images: set<Image>, order: seq<Image>, entries: seq<Entry>, m: Bytes)
    requires Enumerates(order, images)
    requires Written(c, images, Total(order), FlatLayers(order), entries)
    requires forall img :: img in order ==> HasConfig(c, entries, img)
    ensures Archives(c, images, entries)
    ensures TarSize(entries + [Entry(MANIFEST_NAME, m)]) + Repeated(c, FlatLayers(order))
         == Total(order) + Cost(|m|) + 1024
  {
    hide Belongs, HasLayer, LayersSize, Repeated, Cost, HasConfig;
    LayersOfOrder(order, images);
    EntriesMore(c, entries, Entry(MANIFEST_NAME, m));
  }

  lemma NothingWritten(c: Codec, images: set<Image>)
    ensures Written(c, images, Total([]), FlatLayers([]), []) && Digests(c, FlatLayers([])) == {}
    ensures Enumerates([], images - images)
  {
  }

  lemma {:induction false} FlatLayersHas(images: seq<Image>, img: Image, l: Layer)
    requires img in images && l in img.layers
    ensures l in FlatLayers(images)
  {
    assert images == images[..|images| - 1] + [images[|images| - 1]];
    if img in images[..|images| - 1] {
      FlatLayersHas(images[..|images| - 1], img, l);
    }
  }

  lemma LayersOfOrder(order: seq<Image>, images: set<Image>)
    requires Enumerates(order, images)
    ensures forall img, l :: img in images && l in img.layers ==> l in FlatLayers(order)
  {
    forall img, l | img in images && l in img.layers
      ensures l in FlatLayers(order)
    {
      FlatLayersHas(order, img, l);
    }
  }

  /** No digest occurs twice. */
  ghost predicate DistinctDigests(c: Codec, layers: seq<Layer>) {
    forall i, j :: 0 <= i < j < |layers| ==> c.hex(layers[i].bytes) != c.hex(layers[j].bytes)
  }

  lemma {:induction false} NothingRepeated(c: Codec, layers: seq<Layer>)
    ensures Repeated(c, layers) == 0 <==> DistinctDigests(c, layers)
  {
    if layers != [] {
      var n := |layers| - 1;
      var rest, l := layers[..n], layers[n];
      NothingRepeated(c, rest);
      if Seen(c, rest, l) {
        var k :| k in rest && c.hex(k.bytes) == c.hex(l.bytes);
        var i :| 0 <= i < n && layers[i] == k;
      } else {
        forall i | 0 <= i < n
          ensures c.hex(layers[i].bytes) != c.hex(l.bytes)
        {
          assert layers[i] in rest;
        }
      }
    }
  }

  /** The calculated size is the size of the archive plus the cost of every repeated layer,
      in whatever order the images were written; so it is never too small, and it is exact
      precisely when no layer digest repeats. */
  lemma CalculatedSizeIsExactWithoutRepeats(c: Codec, images: set<Image>, written: seq<Image>,
                                            calculated: nat, actual: nat, m: Bytes)
    requires Enumerates(written, images)
    requires calculated == SizeOf(images) + Cost(|m|) + 1024
    requires actual + Repeated(c, FlatLayers(written)) == Total(written) + Cost(|m|) + 1024
    ensures calculated == actual + Repeated(c, FlatLayers(written))
    ensures calculated == actual <==> DistinctDigests(c, FlatLayers(written))
  {
    hide Total, SizeOf, Enumerates, Repeated, DistinctDigests;
    TotalIsSize(written, images);
    NothingRepeated(c, FlatLayers(written));
  }

  // ---------------------------------------------------------------- manifest.json

  datatype Error =
    | NoBlob(digest: string) | Mismatch(blobs: nat, diffIDs: nat)
    | NoFile(name: string) | NoManifest | NotSingle | BadTag | NoTag | OutOfRange

  /** The first occurrence of `d`, or the length. */
  function First(ds: seq<string>, d: string): (k: nat)
    ensures k <= |ds|
    ensures forall j :: 0 <= j < k ==> ds[j] != d
    ensures k < |ds| ==> ds[k] == d
  {
    if ds == [] || ds[0] == d then 0 else 1 + First(ds[1..], d)
  }

  /** The digests of the image's layers. */
  function FSLayers(c: Codec, img: Image): (r: seq<string>)
    ensures |r| == |img.layers| && forall i :: 0 <= i < |r| ==> r[i] == c.hex(img.layers[i].bytes)
  {
    seq(|img.layers|, i requires 0 <= i < |img.layers| => c.hex(img.layers[i].bytes))
  }

  function Describe(c: Codec, l: Layer): BlobInfo { BlobInfo(l.mediaType, c.hex(l.bytes), |l.bytes|) }

  /** partial.BlobDescriptor: the config first, then the first layer with that digest. */
  function BlobDescriptor(c: Codec, img: Image, h: string): Result<BlobInfo, Error> {
    if h == c.hex(img.config) then Success(BlobInfo(DOCKER_CONFIG_JSON, h, |img.config|))
    else
      var k := First(FSLayers(c, img), h);
      if k < |img.layers| then Success(Describe(c, img.layers[k])) else Failure(NoBlob(h))
  }

  /** partial.BlobToDiffID. */
  function BlobToDiffID(c: Codec, img: Image, h: string): Result<string, Error> {
    var diffIDs, k := c.diffIDs(img.config), First(FSLayers(c, img), h);
    if |img.layers| != |diffIDs| then Failure(Mismatch(|img.layers|, |diffIDs|))
    else if k < |diffIDs| then Success(diffIDs[k])
    else Failure(NoBlob(h))
  }

  predicate Foreign(c: Codec, img: Image, i: nat)
    requires i < |img.layers|
  {
    var d := BlobDescriptor(c, img, c.hex(img.layers[i].bytes));
    d.Success? && !IsDistributable(d.value.mediaType)
  }

  /** The layer sources after the first `n` layers: later layers overwrite earlier ones. */
  function Sources(c: Codec, img: Image, n: nat): Result<map<string, BlobInfo>, Error>
    requires n <= |img.layers|
  {
    if n == 0 then Success(map[])
    else
      var rest :- Sources(c, img, n - 1);
      var h := c.hex(img.layers[n - 1].bytes);
      var desc :- BlobDescriptor(c, img, h);
      if IsDistributable(desc.mediaType) then Success(rest)
      else
        var diffID :- BlobToDiffID(c, img, h);
        Success(rest[diffID := desc])
  }

  /** The entry of manifest.json for an image. */
  ghost predicate IsDescriptor(c: Codec, refs: map<Ref, Image>, img: Image, d: Descriptor) {
    && d.config == ConfigName(c, img)
    && |d.layers| == |img.layers|
    && (forall i :: 0 <= i < |d.layers| ==> d.layers[i] == LayerName(c, img.layers[i]))
    && Sources(c, img, |img.layers|) == Success(d.layerSources)
    && NoDuplicates(d.repoTags)
    && forall t :: t in d.repoTags <==> TagRef(t) in refs && refs[TagRef(t)] == img
  }

  ghost predicate Describes(c: Codec, refs: map<Ref, Image>, order: seq<Image>, m: Manifest) {
    |m| == |order| && forall i :: 0 <= i < |m| ==> IsDescriptor(c, refs, order[i], m[i])
  }

  /** A foreign layer whose diff ID cannot be told. */
  predicate LacksDiffIDs(c: Codec, img: Image) {
    |img.layers| != |c.diffIDs(img.config)| && exists i :: 0 <= i < |img.layers| && Foreign(c, img, i)
  }

  lemma {:induction false} SourcesFail(c: Codec, img: Image, n: nat)
    requires n <= |img.layers|
    ensures Sources(c, img, n).Failure?
       <==> |img.layers| != |c.diffIDs(img.config)| && exists i :: 0 <= i < n && Foreign(c, img, i)
  {
    if n > 0 {
      SourcesFail(c, img, n - 1);
      FirstOf(c, img, n - 1);
      assert Sources(c, img, n).Failure?
        <==> Sources(c, img, n - 1).Failure? || (Foreign(c, img, n - 1) && |img.layers| != |c.diffIDs(img.config)|);
    }
  }

  lemma FirstOf(c: Codec, img: Image, i: nat)
    requires i < |img.layers|
    ensures First(FSLayers(c, img), c.hex(img.layers[i].bytes)) <= i
  {
    assert FSLayers(c, img)[i] == c.hex(img.layers[i].bytes);
  }

  /** One image of calculateManifest. */
  method DescribeImage(c: Codec, img: Image, tags: seq<string>) returns (r: Result<Descriptor, Error>)
    ensures Sources(c, img, |img.layers|).Failure? ==> r.Failure?
    ensures r.Success? ==>
      && r.value.config == ConfigName(c, img) && r.value.repoTags == tags
      && |r.value.layers| == |img.layers|
      && (forall i :: 0 <= i < |img.layers| ==> r.value.layers[i] == LayerName(c, img.layers[i]))
    ensures Sources(c, img, |img.layers|).Success? ==> r.Success? && Sources(c, img, |img.layers|).value == r.value.layerSources
  {
    hide BlobDescriptor, BlobToDiffID, IsDistributable;
    var layerSources: map<string, BlobInfo> := map[];
    var layerFiles := [];
    for i := 0 to |img.layers|
      invariant |layerFiles| == i
      invariant forall k :: 0 <= k < i ==> layerFiles[k] == LayerName(c, img.layers[k])
      invariant Sources(c, img, i) == Success(layerSources)
    {
      var hex := c.hex(img.layers[i].bytes);
      layerFiles := layerFiles + [hex + ".tar.gz"];
      var desc := BlobDescriptor(c, img, hex);
      if desc.Failure? {
        SourcesStayFailed(c, img, i + 1, |img.layers|);
        return Failure(desc.error);
      }
      if !IsDistributable(desc.value.mediaType) {
        var diffID := BlobToDiffID(c, img, hex);
        if diffID.Failure? {
          SourcesStayFailed(c, img, i + 1, |img.layers|);
          return Failure(diffID.error);
        }
        layerSources := layerSources[diffID.value := desc.value];
      }
    }
    return Success(Descriptor(ConfigName(c, img), tags, layerFiles, layerSources));
  }

  lemma {:induction false} SourcesStayFailed(c: Codec, img: Image, k: nat, n: nat)
    requires k <= n <= |img.layers| && Sources(c, img, k).Failure?
    ensures Sources(c, img, n).Failure?
  {
    if k < n {
      SourcesStayFailed(c, img, k, n - 1);
    }
  }

  /** strings.Join with commas. */
  function Joined(tags: seq<string>): string {
    if tags == [] then "" else if |tags| == 1 then tags[0] else tags[0] + "," + Joined(tags[1..])
  }

  lemma {:induction false} JoinedMore(tags: seq<string>, t: string)
    ensures Joined(tags + [t]) == if tags == [] then t else Joined(tags) + "," + t
  {
    if |tags| > 1 {
      JoinedMore(tags[1..], t);
      assert (tags + [t])[1..] == tags[1..] + [t];
    }
  }

  function SortKey(d: Descriptor): string { Joined(d.repoTags) }

  /** The entries stand in the order of their tags. */
  ghost predicate InTagOrder(m: Manifest) {
    forall i, j :: 0 <= i < j < |m| ==> !Sorting.Less(Joined(m[j].repoTags), Joined(m[i].repoTags))
  }

  lemma SortedByTags(m: Manifest)
    requires Sorting.Sorted(m, SortKey)
    ensures InTagOrder(m)
  {
    forall i, j | 0 <= i < j < |m|
      ensures !Sorting.Less(Joined(m[j].repoTags), Joined(m[i].repoTags))
    {
      assert !Sorting.Less(SortKey(m[j]), SortKey(m[i]));
    }
  }

  /** calculateManifest: it fails exactly when an image has a foreign layer but another number
      of diff IDs than of layers, and otherwise describes every image once, in the order of
      their tags. */
  method CalculateManifest(c: Codec, refs: map<Ref, Image>) returns (r: Result<Manifest, Error>, ghost order: seq<Image>)
    ensures r.Failure? <==> exists img :: img in refs.Values && LacksDiffIDs(c, img)
    ensures r.Success? ==> Enumerates(order, refs.Values) && Describes(c, refs, order, r.value)
    ensures r.Success? ==> InTagOrder(r.value)
  {
    hide Sources, LacksDiffIDs, IsDescriptor, SortKey, Sorting.Sorted, Sorting.Rearranges, InTagOrder;
    var imageToTags := DedupRefToImage(refs);
    ghost var images := refs.Values;
    var m := [];
    order := [];
    var left := imageToTags.Keys;
    while left != {}
      invariant left <= images
      invariant Enumerates(order, images - left)
      invariant Describes(c, refs, order, m)
      invariant forall img :: img in order ==> !LacksDiffIDs(c, img)
    {
      var img :| img in left;
      EnumerateMore(order, images - left, img);
      assert images - (left - {img}) == images - left + {img};
      left := left - {img};
      WhenSourcesFail(c, img);
      var d := DescribeImage(c, img, imageToTags[img]);
      if d.Failure? {
        return Failure(d.error), order;
      }
      DescribesOneMore(c, refs, order, m, img, d.value);
      m, order := m + [d.value], order + [img];
    }
    assert images - {} == images;
    var sorted, perm := Sorting.SortBy(m, SortKey);
    RearrangedDescribes(c, refs, order, m, sorted, perm);
    SortedByTags(sorted);
    return Success(sorted), seq(|perm|, i requires 0 <= i < |perm| && perm[i] < |order| => order[perm[i]]);
  }

  lemma DescribesOneMore(c: Codec, refs: map<Ref, Image>, order: seq<Image>, m: Manifest, img: Image, d: Descriptor)
    requires Describes(c, refs, order, m)
    requires img in refs.Values
    requires d.config == ConfigName(c, img) && |d.layers| == |img.layers|
    requires forall i :: 0 <= i < |img.layers| ==> d.layers[i] == LayerName(c, img.layers[i])
    requires Sources(c, img, |img.layers|) == Success(d.layerSources)
    requires NoDuplicates(d.repoTags) && forall t :: t in d.repoTags <==> TagRef(t) in refs && refs[TagRef(t)] == img
    ensures Describes(c, refs, order + [img], m + [d])
  {
    hide Sources, ConfigName, LayerName;
  }

  lemma RearrangedDescribes(c: Codec, refs: map<Ref, Image>, order: seq<Image>, m: Manifest, sorted: Manifest, perm: seq<nat>)
    requires Enumerates(order, refs.Values) && Describes(c, refs, order, m) && Sorting.Rearranges(sorted, m, perm)
    ensures |perm| == |order| && forall i :: 0 <= i < |perm| ==> perm[i] < |order|
    ensures var rearranged := seq(|perm|, i requires 0 <= i < |perm| && perm[i] < |order| => order[perm[i]]);
            Enumerates(rearranged, refs.Values) && Describes(c, refs, rearranged, sorted)
  {
    hide IsDescriptor;
    var rearranged := seq(|perm|, i requires 0 <= i < |perm| && perm[i] < |order| => order[perm[i]]);
    assert Sorting.Rearranges(rearranged, order, perm);
    Sorting.SameElements(rearranged, order, perm);
  }

  lemma WhenSourcesFail(c: Codec, img: Image)
    ensures Sources(c, img, |img.layers|).Failure? <==> LacksDiffIDs(c, img)
  {
    SourcesFail(c, img, |img.layers|);
  }

  /** A whole tarball for the references. */
  ghost predicate IsTarball(c: Codec, refs: map<Ref, Image>, order: seq<Image>, m: Manifest, entries: seq<Entry>) {
    && Enumerates(order, refs.Values) && Describes(c, refs, order, m)
    && entries != [] && entries[|entries| - 1] == Entry(MANIFEST_NAME, c.json(m))
    && Archives(c, refs.Values, entries[..|entries| - 1])
  }

  /** The archive by the names of its files: configs under sha256 and their digest, layers under their
      digests with .tar.gz, and manifest.json at the end. */
  lemma ArchiveByName(c: Codec, refs: map<Ref, Image>, order: seq<Image>, m: Manifest, entries: seq<Entry>, img: Image, l: Layer)
    requires Injective(c.hex) && IsTarball(c, refs, order, m, entries)
    requires img in refs.Values && l in img.layers
    ensures Entry("sha256:" + c.hex(img.config), img.config) in entries
    ensures Entry(c.hex(l.bytes) + ".tar.gz", l.bytes) in entries
    ensures entries[|entries| - 1] == Entry("manifest.json", c.json(m))
    ensures exists d :: d in m && d.config == "sha256:" + c.hex(img.config) && |d.layers| == |img.layers|
                   && forall i :: 0 <= i < |d.layers| ==> d.layers[i] == c.hex(img.layers[i].bytes) + ".tar.gz"
  {
    var body := entries[..|entries| - 1];
    assert forall e :: e in body ==> e in entries;
    assert HasLayer(c, body, l) && HasConfig(c, body, img);
    var k :| 0 <= k < |order| && order[k] == img;
    assert IsDescriptor(c, refs, img, m[k]) && m[k] in m;
  }

  /** MultiRefWrite. */
  method MultiRefWrite(c: Codec, refs: map<Ref, Image>)
    returns (r: Result<seq<Entry>, Error>, size: nat, ghost order: seq<Image>, ghost written: seq<Image>, ghost m: Manifest)
    ensures r.Failure? <==> exists img :: img in refs.Values && LacksDiffIDs(c, img)
    ensures r.Success? ==> IsTarball(c, refs, order, m, r.value)
    ensures r.Success? ==>
      Enumerates(written, refs.Values) && size == TarSize(r.value) + Repeated(c, FlatLayers(written))
  {
    hide LacksDiffIDs, Describes, Archives, TarSize, Repeated, Cost, SizeOf;
    var manifest;
    manifest, order := CalculateManifest(c, refs);
    m, written, size := [], [], 0;
    if manifest.Failure? {
      return Failure(manifest.error), size, order, written, m;
    }
    m := manifest.value;
    var mBytes := c.json(manifest.value);
    size := CalculateTarballSize(refs, |mBytes|);
    var entries;
    entries, written := WriteImagesToTar(c, refs, mBytes);
    CalculatedSizeIsExactWithoutRepeats(c, refs.Values, written, size, TarSize(entries), mBytes);
    return Success(entries), size, order, written, m;
  }
}
