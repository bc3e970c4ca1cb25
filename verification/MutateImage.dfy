/** Lazily rewritten images (pkg/v1/mutate/image.go and the constructors in mutate.go).

    An image is a stack of wrappers over a base.  `Eval` says what the stack means; the class
    computes it on demand, remembers it, and may fail while a streaming layer is unread. */
module MutateImage {
  import opened Common
  import S = Streams

  type Hash = S.Hash

  const DOCKER_LAYER := "application/vnd.docker.image.rootfs.diff.tar.gzip"
  const OCI_VENDOR_PREFIX := "vnd.oci"
  const DOCKER_VENDOR_PREFIX := "vnd.docker"

  datatype History = History(emptyLayer: bool, text: string)

  /** The parts of a config file that Rebase picks from different images. */
  datatype Settings = Settings(config: string, architecture: string, os: string, osVersion: string, other: string)

  datatype Config = Config(diffIDs: seq<Hash>, history: seq<History>, settings: Settings)

  datatype Descriptor = Descriptor(mediaType: string, digest: Hash, size: nat,
                                   urls: seq<string>, annotations: map<string, string>)

  datatype Manifest = Manifest(mediaType: string, configDigest: Hash, configSize: nat, layers: seq<Descriptor>)

  /** What json.Marshal and SHA-256 make of a config. */
  datatype Codec = Codec(hash: Config -> Hash, size: Config -> nat)

  /** A layer whose facts are known from the start, or a streaming one. */
  datatype Layer = Static(diffID: Hash, desc: Descriptor) | Streamed(stream: S.Layer)

  /** A nil layer stands for a history entry without a layer. */
  datatype Addendum = Addendum(layer: Option<Layer>, history: History, urls: seq<string>,
                               annotations: map<string, string>, mediaType: string)

  /** One wrapper: exactly one of the three constructors below fills it. */
  datatype Op = Op(adds: seq<Addendum>, config: Option<Config>, mediaType: Option<string>)

  datatype View = View(config: Config, manifest: Manifest)

  /** A base image as its user sees it. */
  datatype Leaf = Leaf(view: View, layers: seq<Layer>)

  // ---------------------------------------------------------------- what a stack means

  /** The facts of the streams that have been read. */
  type Env = map<S.Layer, S.Facts>

  /** `env` is what the accessors of these streams answer now. */
  ghost predicate Answers(env: Env, streams: set<S.Layer>)
    reads streams
  {
    forall s :: s in streams ==> s.Consistent() && s.Known() == if s in env then Some(env[s]) else None
  }

  ghost predicate Known(l: Layer, env: Env) { l.Static? || l.stream in env }

  ghost function DiffIDOf(l: Layer, env: Env): Hash
    requires Known(l, env)
  {
    if l.Static? then l.diffID else env[l.stream].diffID
  }

  ghost function DescriptorOf(l: Layer, env: Env): Descriptor
    requires Known(l, env)
  {
    if l.Static? then l.desc
    else Descriptor(DOCKER_LAYER, env[l.stream].digest, env[l.stream].size, [], map[])
  }

  ghost predicate AllKnown(adds: seq<Addendum>, env: Env) {
    forall a :: a in adds && a.layer.Some? ==> Known(a.layer.value, env)
  }

  /** Fields of the addendum override the layer's own descriptor. */
  function Override(desc: Descriptor, a: Addendum): Descriptor {
    Descriptor(if a.mediaType != "" then a.mediaType else desc.mediaType, desc.digest, desc.size,
               if a.urls != [] then a.urls else desc.urls,
               if a.annotations != map[] then a.annotations else desc.annotations)
  }

  function AddedLayers(adds: seq<Addendum>): seq<Layer> {
    if adds == [] then []
    else
      var a := adds[|adds| - 1];
      AddedLayers(adds[..|adds| - 1]) + if a.layer.Some? then [a.layer.value] else []
  }

  function AddedHistory(adds: seq<Addendum>): seq<History> {
    seq(|adds|, i requires 0 <= i < |adds| => adds[i].history)
  }

  ghost function AddedDiffIDs(adds: seq<Addendum>, env: Env): seq<Hash>
    requires AllKnown(adds, env)
  {
    if adds == [] then []
    else
      var a := adds[|adds| - 1];
      AddedDiffIDs(adds[..|adds| - 1], env) + if a.layer.Some? then [DiffIDOf(a.layer.value, env)] else []
  }

  ghost function AddedDescriptors(adds: seq<Addendum>, env: Env): seq<Descriptor>
    requires AllKnown(adds, env)
  {
    if adds == [] then []
    else
      var a := adds[|adds| - 1];
      AddedDescriptors(adds[..|adds| - 1], env)
      + if a.layer.Some? then [Override(DescriptorOf(a.layer.value, env), a)] else []
  }

  predicate Mentions(s: string, part: string) {
    |s| >= |part| && (part <= s || (s != [] && Mentions(s[1..], part)))
  }

  function Retype(mediaType: Option<string>, current: string): string {
    match mediaType
    case None => current
    case Some(mt) =>
      if Mentions(mt, OCI_VENDOR_PREFIX) then ""
      else if Mentions(mt, DOCKER_VENDOR_PREFIX) then mt
      else current
  }

  /** The view built from the extended config and descriptor list. */
  function Assemble(c: Codec, op: Op, v: View, config: Config, layers: seq<Descriptor>): View {
    View(config, Manifest(Retype(op.mediaType, v.manifest.mediaType), c.hash(config), c.size(config), layers))
  }

  ghost function Apply(c: Codec, op: Op, v: View, env: Env): Option<View> {
    if !AllKnown(op.adds, env) then None
    else Some(Assemble(c, op, v, Extended(op, v, env), v.manifest.layers + AddedDescriptors(op.adds, env)))
  }

  /** The wrapper's config, or its base's, with the added layers and history. */
  ghost function Extended(op: Op, v: View, env: Env): Config
    requires AllKnown(op.adds, env)
  {
    var before := if op.config.Some? then op.config.value else v.config;
    before.(diffIDs := before.diffIDs + AddedDiffIDs(op.adds, env),
            history := before.history + AddedHistory(op.adds))
  }

  /** The whole stack, bottom wrapper first; None while some stream is unread. */
  ghost function Eval(c: Codec, leaf: Leaf, ops: seq<Op>, env: Env): Option<View> {
    if ops == [] then Some(leaf.view)
    else
      match Eval(c, leaf, ops[..|ops| - 1], env)
      case None => None
      case Some(v) => Apply(c, ops[|ops| - 1], v, env)
  }

  /** The layer list a stack is meant to have. */
  function Expected(leaf: Leaf, ops: seq<Op>): seq<Layer> {
    if ops == [] then leaf.layers
    else Expected(leaf, ops[..|ops| - 1]) + AddedLayers(ops[|ops| - 1].adds)
  }

  ghost function StreamsOf(adds: seq<Addendum>): set<S.Layer> {
    set a | a in adds && a.layer.Some? && a.layer.value.Streamed? :: a.layer.value.stream
  }

  ghost function StreamsIn(ops: seq<Op>): set<S.Layer> {
    if ops == [] then {} else StreamsIn(ops[..|ops| - 1]) + StreamsOf(ops[|ops| - 1].adds)
  }

  ghost predicate Extends(env: Env, env': Env) {
    forall s :: s in env ==> s in env' && env'[s] == env[s]
  }

  lemma ExtendsItself(env: Env)
    ensures Extends(env, env)
  {
  }

  lemma {:induction false} AddedStays(adds: seq<Addendum>, env: Env, env': Env)
    requires AllKnown(adds, env) && Extends(env, env')
    ensures AllKnown(adds, env')
    ensures AddedDiffIDs(adds, env) == AddedDiffIDs(adds, env')
    ensures AddedDescriptors(adds, env) == AddedDescriptors(adds, env')
    ensures ByDiffID(adds, env) == ByDiffID(adds, env') && ByDigest(adds, env) == ByDigest(adds, env')
  {
    if adds != [] {
      AddedStays(adds[..|adds| - 1], env, env');
      assert adds[|adds| - 1] in adds;
    }
  }

  /** Facts never change, so once a stack has a meaning it keeps it. */
  lemma {:induction false} EvalStays(c: Codec, leaf: Leaf, ops: seq<Op>, env: Env, env': Env)
    requires Eval(c, leaf, ops, env).Some? && Extends(env, env')
    ensures Eval(c, leaf, ops, env') == Eval(c, leaf, ops, env)
  {
    if ops != [] {
      EvalStays(c, leaf, ops[..|ops| - 1], env, env');
      AddedStays(ops[|ops| - 1].adds, env, env');
    }
  }

  /** A stack can be computed exactly when all its streams have been read. */
  lemma {:induction false} EvalNeedsAllStreams(c: Codec, leaf: Leaf, ops: seq<Op>, env: Env)
    ensures Eval(c, leaf, ops, env).Some? <==> StreamsIn(ops) <= env.Keys
  {
    if ops != [] {
      EvalNeedsAllStreams(c, leaf, ops[..|ops| - 1], env);
      var adds := ops[|ops| - 1].adds;
      if StreamsOf(adds) <= env.Keys {
        forall a | a in adds && a.layer.Some?
          ensures Known(a.layer.value, env)
        {
          assert a.layer.value.Streamed? ==> a.layer.value.stream in StreamsOf(adds);
        }
      }
    }
  }

  ghost predicate Contains(s: string, part: string) {
    exists i {:trigger s[i..]} :: 0 <= i <= |s| && part <= s[i..]
  }

  lemma {:induction false} MentionsIsContains(s: string, part: string)
    ensures Mentions(s, part) <==> Contains(s, part)
  {
    assert s[0..] == s;
    if s != [] {
      MentionsIsContains(s[1..], part);
      if i :| 0 <= i <= |s[1..]| && part <= s[1..][i..] {
        assert s[1..][i..] == s[i + 1..];
      }
      if i :| 0 < i <= |s| && part <= s[i..] {
        assert s[1..][i - 1..] == s[i..];
      }
    }
  }

  /** The manifest's media type: an OCI type is not written, a Docker type replaces what was there, and
      anything else leaves it. */
  lemma MediaTypeIsSet(c: Codec, leaf: Leaf, ops: seq<Op>, env: Env)
    requires ops != [] && Eval(c, leaf, ops, env).Some?
    ensures var op, before := ops[|ops| - 1], Eval(c, leaf, ops[..|ops| - 1], env);
            && before.Some?
            && Eval(c, leaf, ops, env).value.manifest.mediaType ==
               match op.mediaType
               case None => before.value.manifest.mediaType
               case Some(mt) =>
                 if Contains(mt, "vnd.oci") then ""
                 else if Contains(mt, "vnd.docker") then mt
                 else before.value.manifest.mediaType
  {
    hide Mentions, Contains, AllKnown, Extended, AddedDescriptors;
    if ops[|ops| - 1].mediaType.Some? {
      MentionsIsContains(ops[|ops| - 1].mediaType.value, "vnd.oci");
      MentionsIsContains(ops[|ops| - 1].mediaType.value, "vnd.docker");
    }
  }

  /** A streamed layer stands in the manifest as a gzipped Docker layer of its digest and size. */
  lemma StreamedDescriptor(s: S.Layer, env: Env)
    requires s in env
    ensures DescriptorOf(Streamed(s), env) ==
            Descriptor("application/vnd.docker.image.rootfs.diff.tar.gzip", env[s].digest, env[s].size, [], map[])
  {
  }

  /** The manifest of a rewritten image names the config file that the image has. */
  lemma ManifestNamesConfig(c: Codec, leaf: Leaf, ops: seq<Op>, env: Env)
    requires ops != [] && Eval(c, leaf, ops, env).Some?
    ensures var v := Eval(c, leaf, ops, env).value;
            v.manifest.configDigest == c.hash(v.config) && v.manifest.configSize == c.size(v.config)
  {
    hide AllKnown, Extended, AddedDescriptors, Retype;
  }

  // ---------------------------------------------------------------- lookups

  ghost function ByDiffID(adds: seq<Addendum>, env: Env): map<Hash, Layer>
    requires AllKnown(adds, env)
  {
    if adds == [] then map[]
    else
      var m := ByDiffID(adds[..|adds| - 1], env);
      var a := adds[|adds| - 1];
      if a.layer.Some? then m[DiffIDOf(a.layer.value, env) := a.layer.value] else m
  }

  ghost function ByDigest(adds: seq<Addendum>, env: Env): map<Hash, Layer>
    requires AllKnown(adds, env)
  {
    if adds == [] then map[]
    else
      var m := ByDigest(adds[..|adds| - 1], env);
      var a := adds[|adds| - 1];
      if a.layer.Some? then m[DescriptorOf(a.layer.value, env).digest := a.layer.value] else m
  }

  /** A base image finds a layer by position: the first with that diff ID. */
  function FindInLeaf(diffIDs: seq<Hash>, layers: seq<Layer>, h: Hash): Option<Layer> {
    if diffIDs == [] || layers == [] then None
    else if diffIDs[0] == h then Some(layers[0])
    else FindInLeaf(diffIDs[1..], layers[1..], h)
  }

  ghost function Find(leaf: Leaf, ops: seq<Op>, env: Env, h: Hash): Option<Layer>
    requires forall op :: op in ops ==> AllKnown(op.adds, env)
  {
    if ops == [] then FindInLeaf(leaf.view.config.diffIDs, leaf.layers, h)
    else
      var m := ByDiffID(ops[|ops| - 1].adds, env);
      if h in m then Some(m[h]) else Find(leaf, ops[..|ops| - 1], env, h)
  }

  /** What a digest can name: the config file or a layer. */
  datatype Blob = ConfigBlob(config: Config) | LayerBlob(layer: Layer)

  /** A base image finds a blob by position: the config or the first layer with that digest. */
  function FindBlobInLayers(descs: seq<Descriptor>, layers: seq<Layer>, h: Hash): Option<Blob> {
    if descs == [] || layers == [] then None
    else if descs[0].digest == h then Some(LayerBlob(layers[0]))
    else FindBlobInLayers(descs[1..], layers[1..], h)
  }

  /** The lookup in one image of the stack, given what the images below it answer. */
  function BlobOf(v: View, below: Option<Blob>, h: Hash): Option<Blob> {
    if h == v.manifest.configDigest then Some(ConfigBlob(v.config)) else below
  }

  /** The config file of a rewritten image is found by its own digest. */
  lemma ConfigIsFound(c: Codec, leaf: Leaf, ops: seq<Op>, env: Env)
    requires ops != [] && Eval(c, leaf, ops, env).Some?
    ensures var config := Eval(c, leaf, ops, env).value.config;
            FindBlob(c, leaf, ops, env, c.hash(config)) == Some(ConfigBlob(config))
  {
    ManifestNamesConfig(c, leaf, ops, env);
    hide Eval, ByDigest;
  }

  ghost function FindBlob(c: Codec, leaf: Leaf, ops: seq<Op>, env: Env, h: Hash): Option<Blob>
    requires Eval(c, leaf, ops, env).Some?
  {
    var v := Eval(c, leaf, ops, env).value;
    BlobOf(v,
           if ops == [] then FindBlobInLayers(v.manifest.layers, leaf.layers, h)
           else
             var m := ByDigest(ops[|ops| - 1].adds, env);
             if h in m then Some(LayerBlob(m[h])) else FindBlob(c, leaf, ops[..|ops| - 1], env, h), h)
  }

  // ---------------------------------------------------------------- the class

  class Image {
    const codec: Codec
    const base: Image?
    const leaf: Leaf
    const op: Op

    var computed: bool
    var configFile: Option<Config>
    var manifest: Option<Manifest>
    var diffIDMap: map<Hash, Layer>
    var digestMap: map<Hash, Layer>

    /** This wrapper and all below it, and their meaning as values. */
    ghost const stack: set<Image>
    ghost const ops: seq<Op>
    /** What the streams answered when this wrapper was computed. */
    ghost var seen: Env

    ghost predicate Shape() {
      && this in stack
      && if base == null then stack == {this} && ops == []
         else && |ops| == |base.ops| + 1 && base in base.stack && this !in base.stack
              && stack == {this} + base.stack && ops == base.ops + [op]
              && codec == base.codec && leaf == base.leaf
    }

    ghost predicate Remembers()
      reads this
    {
      && configFile.Some? && manifest.Some?
      && Eval(codec, leaf, ops, seen) == Some(View(configFile.value, manifest.value))
      && AllKnown(op.adds, seen)
      && diffIDMap == ByDiffID(op.adds, seen) && digestMap == ByDigest(op.adds, seen)
    }

    /** `env` is what the streams answer now. */
    ghost predicate Valid(env: Env)
      reads this, stack
      decreases |ops|
    {
      && Shape()
      && if base == null then computed && Remembers() && Extends(seen, env)
         else
           && base.Valid(env)
           && if computed then base.computed && Remembers() && Extends(seen, env)
              else configFile == op.config
    }

    constructor Base(c: Codec, l: Leaf)
      ensures stack == {this} && leaf == l && ops == [] && codec == c
      ensures forall env :: Valid(env)
    {
      codec, base, leaf, op := c, null, l, Op([], None, None);
      computed, configFile, manifest := true, Some(l.view.config), Some(l.view.manifest);
      diffIDMap, digestMap := map[], map[];
      stack, ops, seen := {this}, [], map[];
    }

    /** The constructor behind Append, ConfigFile and MediaType: nothing is computed yet. */
    constructor Wrap(b: Image, o: Op, ghost env: Env)
      requires b.Valid(env)
      ensures Valid(env) && stack == {this} + b.stack && !computed
      ensures base == b && op == o && leaf == b.leaf && codec == b.codec && ops == b.ops + [o]
    {
      codec, base, leaf, op := b.codec, b, b.leaf, o;
      computed, configFile, manifest := false, o.config, None;
      diffIDMap, digestMap := map[], map[];
      stack, ops, seen := {this} + b.stack, b.ops + [o], map[];
    }

    /** Reading more streams does not disturb what has been computed. */
    lemma ValidStays(env: Env, env': Env)
      requires Valid(env) && Extends(env, env')
      ensures Valid(env')
      decreases |ops|
    {
      if base != null {
        base.ValidStays(env, env');
      }
    }

    lemma ComputedBelow(env: Env)
      requires Valid(env) && computed
      ensures forall i :: i in stack ==> i.computed
      ensures base != null ==>
        && configFile.Some? && manifest.Some?
        && manifest.value.configDigest == codec.hash(configFile.value)
        && manifest.value.configSize == codec.size(configFile.value)
      decreases |ops|
    {
      if base != null {
        base.ComputedBelow(env);
        ManifestNamesConfig(codec, leaf, ops, seen);
      }
    }

    /** What was remembered is still what the stack means now. */
    lemma StillRemembers(env: Env)
      requires Valid(env) && computed
      ensures configFile.Some? && manifest.Some?
      ensures Eval(codec, leaf, ops, env) == Some(View(configFile.value, manifest.value))
    {
      EvalStays(codec, leaf, ops, seen, env);
    }

    /** The wrapper applied to what its base means. */
    lemma BaseMeans(env: Env)
      requires Shape() && base != null
      ensures var below := Eval(codec, leaf, base.ops, env);
              Eval(codec, leaf, ops, env) == if below.None? then None else Apply(codec, op, below.value, env)
    {
      assert ops[..|ops| - 1] == base.ops && ops[|ops| - 1] == op;
    }

    /** The last lines of compute: all fields are set together. */
    method Remember(v: View, byDiffID: map<Hash, Layer>, byDigest: map<Hash, Layer>, ghost env: Env)
      requires Shape() && base != null && base.Valid(env) && base.computed
      requires Eval(codec, leaf, ops, env) == Some(v) && AllKnown(op.adds, env)
      requires byDiffID == ByDiffID(op.adds, env) && byDigest == ByDigest(op.adds, env)
      modifies this
      ensures base.Valid(env) && Valid(env) && computed
      ensures configFile == Some(v.config) && manifest == Some(v.manifest)
    {
      hide Eval, ByDiffID, ByDigest, AllKnown, Extends;
      ExtendsItself(env);
      configFile, manifest := Some(v.config), Some(v.manifest);
      diffIDMap, digestMap := byDiffID, byDigest;
      computed, seen := true, env;
    }

    /** image.compute.  It succeeds exactly when the stack has a meaning, that is when every
        stream in it has been read, and then the whole stack is computed.  When it fails this
        wrapper's fields are as before.  What was computed before is never touched. */
    method Compute(ghost env: Env, ghost streams: set<S.Layer>) returns (ok: bool)
      requires Valid(env) && Answers(env, streams) && StreamsIn(ops) <= streams
      modifies stack
      ensures Valid(env)
      ensures ok <==> Eval(codec, leaf, ops, env).Some?
      ensures ok == computed
      ensures ok ==> forall i :: i in stack ==> i.computed
      ensures ok ==> configFile.Some? && manifest.Some?
                     && Eval(codec, leaf, ops, env) == Some(View(configFile.value, manifest.value))
      ensures ok && base != null ==>
        && manifest.value.configDigest == codec.hash(configFile.value)
        && manifest.value.configSize == codec.size(configFile.value)
      ensures !ok ==> unchanged(this)
      ensures forall i :: i in stack && old(i.computed) ==> unchanged(i)
      decreases |ops|
    {
      hide Eval, AllKnown, AddedHistory, AddedDiffIDs, AddedDescriptors, ByDiffID, ByDigest, Assemble, Extends, Answers, Remembers, StreamsOf;
      if computed {
        ComputedBelow(env);
        StillRemembers(env);
        return true;
      }
      BaseMeans(env);
      var before: Config;
      if configFile.Some? {
        before := configFile.value;
      } else {
        var got := base.Compute(env, streams);
        if !got {
          return false;
        }
        before := base.configFile.value;
      }
      var known, diffIDs, history, byDiffID := CollectDiffIDs(op.adds, before.diffIDs, before.history, env, streams);
      if !known {
        return false;
      }
      var got := base.Compute(env, streams);
      if !got {
        return false;
      }
      var below := View(base.configFile.value, base.manifest.value);
      var layers, byDigest := CollectDescriptors(op.adds, below.manifest.layers, env, streams);
      Remember(Assemble(codec, op, below, before.(diffIDs := diffIDs, history := history), layers),
               byDiffID, byDigest, env);
      ComputedBelow(env);
      return true;
    }

    /** image.LayerByDiffID, on a computed image. */
    method LayerByDiffID(h: Hash, ghost env: Env) returns (layer: Option<Layer>)
      requires Valid(env) && computed
      ensures AllOpsKnown(ops, env) && layer == Find(leaf, ops, env, h)
      decreases |ops|
    {
      OpsKnown(codec, leaf, ops, seen);
      FindStays(leaf, ops, seen, env, h);
      if base == null {
        return FindInLeaf(leaf.view.config.diffIDs, leaf.layers, h);
      }
      AddedStays(op.adds, seen, env);
      assert ops[..|ops| - 1] == base.ops && ops[|ops| - 1] == op;
      if h in diffIDMap {
        return Some(diffIDMap[h]);
      }
      layer := base.LayerByDiffID(h, env);
    }

    /** image.LayerByDigest: computes first, and knows the config file too. */
    method LayerByDigest(h: Hash, ghost env: Env, ghost streams: set<S.Layer>) returns (ok: bool, blob: Option<Blob>)
      requires Valid(env) && Answers(env, streams) && StreamsIn(ops) <= streams
      modifies stack
      ensures Valid(env)
      ensures ok <==> Eval(codec, leaf, ops, env).Some?
      ensures ok ==> blob == FindBlob(codec, leaf, ops, env, h)
      ensures forall i :: i in stack && old(i.computed) ==> unchanged(i)
      decreases |ops|
    {
      ListingOf(env);
      hide Answers, Listing, Slots, Looked, AllKnown, StreamsIn;
      ok := Compute(env, streams);
      if !ok {
        return false, None;
      }
      RemembersDigests(env, h);
      hide Eval, ByDigest, ByDiffID, FindBlob, BlobOf;
      if h == manifest.value.configDigest {
        return true, Some(ConfigBlob(configFile.value));
      }
      if base == null {
        return true, FindBlobInLayers(manifest.value.layers, leaf.layers, h);
      }
      if h in digestMap {
        return true, Some(LayerBlob(digestMap[h]));
      }
      ok, blob := base.LayerByDigest(h, env, streams);
    }

    lemma RemembersDigests(env: Env, h: Hash)
      requires Valid(env) && computed
      ensures configFile.Some? && manifest.Some? && Eval(codec, leaf, ops, env).Some?
      ensures FindBlob(codec, leaf, ops, env, h) ==
              if h == manifest.value.configDigest then Some(ConfigBlob(configFile.value))
              else if base == null then FindBlobInLayers(manifest.value.layers, leaf.layers, h)
              else if h in digestMap then Some(LayerBlob(digestMap[h]))
              else if Eval(codec, leaf, base.ops, env).Some? then FindBlob(codec, leaf, base.ops, env, h) else None
      ensures base != null ==> Eval(codec, leaf, base.ops, env).Some?
    {
      StillRemembers(env);
      if base != null {
        AddedStays(op.adds, seen, env);
        assert ops[..|ops| - 1] == base.ops && ops[|ops| - 1] == op;
      }
    }

    lemma ListingOf(env: Env)
      requires Shape()
      ensures base == null ==> Listing(codec, leaf, ops, env) == (true, Present(leaf.layers))
      ensures base != null && Eval(codec, leaf, ops, env).None? ==>
        var (found, below) := Listing(codec, leaf, base.ops, env);
        Listing(codec, leaf, ops, env) == if found then (true, below + Slots(op.adds)) else (false, [])
      ensures base != null && Eval(codec, leaf, ops, env).Some? ==>
        && AllOpsKnown(ops, env)
        && Listing(codec, leaf, ops, env) == Looked(leaf, ops, env, Eval(codec, leaf, ops, env).value.config.diffIDs)
      ensures StreamsIn(ops) >= if base != null then StreamsIn(base.ops) else {}
    {
      if base != null {
        assert ops[..|ops| - 1] == base.ops && ops[|ops| - 1] == op;
        if Eval(codec, leaf, ops, env).Some? {
          OpsKnown(codec, leaf, ops, env);
        }
      }
    }

    /** image.Layers.  A computed image looks its diff IDs up; one that cannot be computed yet
        lists its base's layers and the added ones, nil layers included. */
    method Layers(ghost env: Env, ghost streams: set<S.Layer>) returns (found: bool, layers: seq<Option<Layer>>)
      requires Valid(env) && Answers(env, streams) && StreamsIn(ops) <= streams
      modifies stack
      ensures Valid(env)
      ensures Eval(codec, leaf, ops, env).Some? <==> computed
      ensures (found, layers) == Listing(codec, leaf, ops, env)
      ensures forall i :: i in stack && old(i.computed) ==> unchanged(i)
      decreases |ops|, 1
    {
      ListingOf(env);
      hide Listing, Eval, AllKnown, ByDiffID, ByDigest, Looked, Present, Slots, Answers, Remembers, StreamsIn, Extends;
      if base == null {
        return true, Present(leaf.layers);
      }
      var ok := Compute(env, streams);
      if !ok {
        found, layers := UncomputedLayers(env, streams);
        return;
      }
      found, layers := LookUpAll(configFile.value.diffIDs, env);
    }

    /** The base's layers and the added ones. */
    method UncomputedLayers(ghost env: Env, ghost streams: set<S.Layer>) returns (found: bool, layers: seq<Option<Layer>>)
      requires Valid(env) && Answers(env, streams) && StreamsIn(ops) <= streams
      requires base != null && !computed && Eval(codec, leaf, ops, env).None?
      modifies stack
      ensures Valid(env) && !computed
      ensures (found, layers) == Listing(codec, leaf, ops, env)
      ensures forall i :: i in stack && old(i.computed) ==> unchanged(i)
      decreases |ops|, 0
    {
      ListingOf(env);
      hide Listing, Eval, AllKnown, ByDiffID, ByDigest, Looked, Present, Slots, Answers, Remembers, StreamsIn, Extends;
      found, layers := base.Layers(env, streams);
      return found, if found then layers + Slots(op.adds) else [];
    }

    method LookUpAll(diffIDs: seq<Hash>, ghost env: Env) returns (found: bool, layers: seq<Option<Layer>>)
      requires Valid(env) && computed
      ensures AllOpsKnown(ops, env)
      ensures (found, layers) == Looked(leaf, ops, env, diffIDs)
    {
      OpsKnown(codec, leaf, ops, seen);
      FindStays(leaf, ops, seen, env, "");
      hide Valid, Find;
      layers := [];
      var n := 0;
      while n < |diffIDs|
        invariant 0 <= n <= |diffIDs|
        invariant layers == FindAll(leaf, ops, env, diffIDs[..n])
        invariant None !in layers
      {
        var layer := LayerByDiffID(diffIDs[n], env);
        assert diffIDs[..n + 1] == diffIDs[..n] + [diffIDs[n]];
        if layer.None? {
          FoundAt(leaf, ops, env, diffIDs, n);
          return false, [];
        }
        layers := layers + [layer];
        n := n + 1;
      }
      assert diffIDs[..n] == diffIDs;
      return true, layers;
    }
  }

  /** DiffID of any layer. */
  method AskDiffID(l: Layer, ghost env: Env, ghost streams: set<S.Layer>) returns (r: Result<Hash, S.Error>)
    requires Answers(env, streams) && (l.Streamed? ==> l.stream in streams)
    ensures r.Success? <==> Known(l, env)
    ensures r.Success? ==> r.value == DiffIDOf(l, env)
  {
    match l
    case Static(diffID, _) => return Success(diffID);
    case Streamed(s) => r := s.DiffID();
  }

  /** partial.Descriptor of any layer. */
  method AskDescriptor(l: Layer, ghost env: Env, ghost streams: set<S.Layer>) returns (r: Result<Descriptor, S.Error>)
    requires Answers(env, streams) && (l.Streamed? ==> l.stream in streams)
    ensures r.Success? <==> Known(l, env)
    ensures r.Success? ==> r.value == DescriptorOf(l, env)
  {
    match l
    case Static(_, desc) => return Success(desc);
    case Streamed(s) =>
      var digest :- s.Digest();
      var size := s.Size();
      return Success(Descriptor(DOCKER_LAYER, digest, size.value, [], map[]));
  }

  lemma NoAdds(env: Env)
    ensures AllKnown([], env) && AddedDiffIDs([], env) == [] && AddedHistory([]) == [] && ByDiffID([], env) == map[]
    ensures AddedDescriptors([], env) == [] && ByDigest([], env) == map[]
  {
  }

  lemma OneMoreAdd(adds: seq<Addendum>, n: nat, env: Env)
    requires n < |adds| && AllKnown(adds[..n], env)
    ensures var a := adds[n];
      && AddedHistory(adds[..n + 1]) == AddedHistory(adds[..n]) + [a.history]
      && (AllKnown(adds[..n + 1], env) <==> a.layer.None? || Known(a.layer.value, env))
      && (AllKnown(adds[..n + 1], env) ==>
            && AddedDiffIDs(adds[..n + 1], env) ==
               AddedDiffIDs(adds[..n], env) + (if a.layer.Some? then [DiffIDOf(a.layer.value, env)] else [])
            && AddedDescriptors(adds[..n + 1], env) ==
               AddedDescriptors(adds[..n], env) + (if a.layer.Some? then [Override(DescriptorOf(a.layer.value, env), a)] else [])
            && ByDiffID(adds[..n + 1], env) ==
               (if a.layer.Some? then ByDiffID(adds[..n], env)[DiffIDOf(a.layer.value, env) := a.layer.value] else ByDiffID(adds[..n], env))
            && ByDigest(adds[..n + 1], env) ==
               (if a.layer.Some? then ByDigest(adds[..n], env)[DescriptorOf(a.layer.value, env).digest := a.layer.value]
                else ByDigest(adds[..n], env)))
  {
    assert adds[..n + 1] == adds[..n] + [adds[n]];
    assert adds[..n + 1][..n] == adds[..n];
    hide Override, Known, DiffIDOf, DescriptorOf;
  }

  lemma SomeKnown(adds: seq<Addendum>, n: nat, env: Env)
    requires n <= |adds| && AllKnown(adds, env)
    ensures AllKnown(adds[..n], env)
  {
  }

  /** The first loop of compute: stops at the first layer without a diff ID. */
  method CollectDiffIDs(adds: seq<Addendum>, diffIDs0: seq<Hash>, history0: seq<History>,
                        ghost env: Env, ghost streams: set<S.Layer>)
    returns (known: bool, diffIDs: seq<Hash>, history: seq<History>, byDiffID: map<Hash, Layer>)
    requires Answers(env, streams) && StreamsOf(adds) <= streams
    ensures known <==> AllKnown(adds, env)
    ensures known ==> && diffIDs == diffIDs0 + AddedDiffIDs(adds, env)
                      && history == history0 + AddedHistory(adds)
                      && byDiffID == ByDiffID(adds, env)
  {
    hide AllKnown, AddedDiffIDs, AddedHistory, ByDiffID, AddedDescriptors, ByDigest, Override, DiffIDOf, Known;
    NoAdds(env);
    diffIDs, history, byDiffID := diffIDs0, history0, map[];
    var n := 0;
    while n < |adds|
      invariant 0 <= n <= |adds|
      invariant AllKnown(adds[..n], env)
      invariant diffIDs == diffIDs0 + AddedDiffIDs(adds[..n], env)
      invariant history == history0 + AddedHistory(adds[..n])
      invariant byDiffID == ByDiffID(adds[..n], env)
    {
      var add := adds[n];
      OneMoreAdd(adds, n, env);
      history := history + [add.history];
      if add.layer.Some? {
        var layer := add.layer.value;
        assert add in adds;
        var diffID := AskDiffID(layer, env, streams);
        if diffID.Failure? {
          if AllKnown(adds, env) {
            SomeKnown(adds, n + 1, env);
          }
          return false, [], [], map[];
        }
        diffIDs := diffIDs + [diffID.value];
        byDiffID := byDiffID[diffID.value := layer];
      }
      n := n + 1;
    }
    assert adds[..n] == adds;
    return true, diffIDs, history, byDiffID;
  }

  /** The second loop of compute: the manifest's descriptors. */
  method CollectDescriptors(adds: seq<Addendum>, layers0: seq<Descriptor>, ghost env: Env, ghost streams: set<S.Layer>)
    returns (layers: seq<Descriptor>, byDigest: map<Hash, Layer>)
    requires Answers(env, streams) && StreamsOf(adds) <= streams && AllKnown(adds, env)
    ensures layers == layers0 + AddedDescriptors(adds, env)
    ensures byDigest == ByDigest(adds, env)
  {
    hide AllKnown, AddedDiffIDs, AddedHistory, ByDiffID, AddedDescriptors, ByDigest, DiffIDOf, DescriptorOf, Known;
    NoAdds(env);
    layers, byDigest := layers0, map[];
    var n := 0;
    while n < |adds|
      invariant 0 <= n <= |adds|
      invariant AllKnown(adds[..n], env)
      invariant layers == layers0 + AddedDescriptors(adds[..n], env)
      invariant byDigest == ByDigest(adds[..n], env)
    {
      var add := adds[n];
      SomeKnown(adds, n, env);
      SomeKnown(adds, n + 1, env);
      OneMoreAdd(adds, n, env);
      n := n + 1;
      if add.layer.None? {
        continue;
      }
      var layer := add.layer.value;
      assert add in adds;
      var asked := AskDescriptor(layer, env, streams);
      var desc := asked.value;
      if add.annotations != map[] {
        desc := desc.(annotations := add.annotations);
      }
      if add.urls != [] {
        desc := desc.(urls := add.urls);
      }
      if add.mediaType != "" {
        desc := desc.(mediaType := add.mediaType);
      }
      layers := layers + [desc];
      byDigest := byDigest[desc.digest := layer];
    }
    assert adds[..n] == adds;
  }

  ghost predicate AllOpsKnown(ops: seq<Op>, env: Env) {
    forall op :: op in ops ==> AllKnown(op.adds, env)
  }

  lemma {:induction false} OpsKnown(c: Codec, leaf: Leaf, ops: seq<Op>, env: Env)
    requires Eval(c, leaf, ops, env).Some?
    ensures AllOpsKnown(ops, env)
  {
    if ops != [] {
      OpsKnown(c, leaf, ops[..|ops| - 1], env);
      assert ops == ops[..|ops| - 1] + [ops[|ops| - 1]];
    }
  }

  lemma {:induction false} FindStays(leaf: Leaf, ops: seq<Op>, env: Env, env': Env, h: Hash)
    requires AllOpsKnown(ops, env) && Extends(env, env')
    ensures AllOpsKnown(ops, env') && Find(leaf, ops, env, h) == Find(leaf, ops, env', h)
  {
    if ops != [] {
      FindStays(leaf, ops[..|ops| - 1], env, env', h);
      AddedStays(ops[|ops| - 1].adds, env, env');
      assert ops == ops[..|ops| - 1] + [ops[|ops| - 1]];
    }
  }

  ghost function FindAll(leaf: Leaf, ops: seq<Op>, env: Env, diffIDs: seq<Hash>): seq<Option<Layer>>
    requires AllOpsKnown(ops, env)
  {
    if diffIDs == [] then []
    else FindAll(leaf, ops, env, diffIDs[..|diffIDs| - 1]) + [Find(leaf, ops, env, diffIDs[|diffIDs| - 1])]
  }

  lemma {:induction false} FoundAt(leaf: Leaf, ops: seq<Op>, env: Env, diffIDs: seq<Hash>, i: nat)
    requires AllOpsKnown(ops, env) && i < |diffIDs|
    ensures var all := FindAll(leaf, ops, env, diffIDs);
            |all| == |diffIDs| && all[i] == Find(leaf, ops, env, diffIDs[i])
  {
    hide Find;
    var rest := diffIDs[..|diffIDs| - 1];
    if i < |rest| {
      FoundAt(leaf, ops, env, rest, i);
    } else if rest != [] {
      FoundAt(leaf, ops, env, rest, 0);
    }
  }

  /** All lookups, or nothing when one of them fails. */
  ghost function Looked(leaf: Leaf, ops: seq<Op>, env: Env, diffIDs: seq<Hash>): (bool, seq<Option<Layer>>)
    requires AllOpsKnown(ops, env)
  {
    var all := FindAll(leaf, ops, env, diffIDs);
    if None in all then (false, []) else (true, all)
  }

  function Present(layers: seq<Layer>): seq<Option<Layer>> {
    seq(|layers|, i requires 0 <= i < |layers| => Some(layers[i]))
  }

  function Slots(adds: seq<Addendum>): seq<Option<Layer>> {
    seq(|adds|, i requires 0 <= i < |adds| => adds[i].layer)
  }

  /** What Layers returns for a stack. */
  ghost function Listing(c: Codec, leaf: Leaf, ops: seq<Op>, env: Env): (bool, seq<Option<Layer>>) {
    if ops == [] then (true, Present(leaf.layers))
    else
      match Eval(c, leaf, ops, env)
      case Some(v) =>
        OpsKnown(c, leaf, ops, env);
        Looked(leaf, ops, env, v.config.diffIDs)
      case None =>
        var (found, below) := Listing(c, leaf, ops[..|ops| - 1], env);
        if !found then (false, []) else (true, below + Slots(ops[|ops| - 1].adds))
  }

  /** A base lists its layers; a wrapper that cannot be computed yet adds the layers of its addenda. */
  lemma ListedByParts(c: Codec, leaf: Leaf, ops: seq<Op>, env: Env)
    ensures ops == [] ==>
      && Listing(c, leaf, ops, env).0 && |Listing(c, leaf, ops, env).1| == |leaf.layers|
      && forall i :: 0 <= i < |leaf.layers| ==> Listing(c, leaf, ops, env).1[i] == Some(leaf.layers[i])
    ensures ops != [] && Eval(c, leaf, ops, env).None? ==>
      var (found, below) := Listing(c, leaf, ops[..|ops| - 1], env);
      var adds := ops[|ops| - 1].adds;
      && Listing(c, leaf, ops, env).0 == found
      && (found ==>
            && |Listing(c, leaf, ops, env).1| == |below| + |adds|
            && (forall i :: 0 <= i < |below| ==> Listing(c, leaf, ops, env).1[i] == below[i])
            && forall i :: 0 <= i < |adds| ==> Listing(c, leaf, ops, env).1[|below| + i] == adds[i].layer)
  {
    hide Eval, Looked;
  }

  // ---------------------------------------------------------------- alignment

  /** Position by position, config and manifest describe the listed layers. */
  ghost predicate Aligned(v: View, layers: seq<Layer>, env: Env) {
    && |v.config.diffIDs| == |layers| == |v.manifest.layers|
    && forall i :: 0 <= i < |layers| ==>
         && Known(layers[i], env)
         && v.config.diffIDs[i] == DiffIDOf(layers[i], env)
         && v.manifest.layers[i].digest == DescriptorOf(layers[i], env).digest
         && v.manifest.layers[i].size == DescriptorOf(layers[i], env).size
  }

  /** A new config may change anything but the diff IDs. */
  ghost predicate KeepsDiffIDs(leaf: Leaf, ops: seq<Op>, env: Env) {
    ops != [] ==>
      && KeepsDiffIDs(leaf, ops[..|ops| - 1], env)
      && var op, below := ops[|ops| - 1], Expected(leaf, ops[..|ops| - 1]);
         op.config.Some? ==>
           && |op.config.value.diffIDs| == |below|
           && forall i :: 0 <= i < |below| ==>
                Known(below[i], env) && op.config.value.diffIDs[i] == DiffIDOf(below[i], env)
  }

  lemma {:induction false} AddsAlign(adds: seq<Addendum>, env: Env)
    requires AllKnown(adds, env)
    ensures var layers := AddedLayers(adds);
            && |AddedDiffIDs(adds, env)| == |layers| == |AddedDescriptors(adds, env)|
            && forall i :: 0 <= i < |layers| ==>
                 && Known(layers[i], env)
                 && AddedDiffIDs(adds, env)[i] == DiffIDOf(layers[i], env)
                 && AddedDescriptors(adds, env)[i].digest == DescriptorOf(layers[i], env).digest
                 && AddedDescriptors(adds, env)[i].size == DescriptorOf(layers[i], env).size
  {
    if adds != [] {
      AddsAlign(adds[..|adds| - 1], env);
      assert adds[|adds| - 1] in adds;
    }
  }

  /** Through any stack of wrappers, manifest digests and config diff IDs describe the base's
      layers followed by the added ones, in order. */
  lemma {:induction false} StackIsAligned(c: Codec, leaf: Leaf, ops: seq<Op>, env: Env)
    requires Aligned(leaf.view, leaf.layers, env) && KeepsDiffIDs(leaf, ops, env)
    requires Eval(c, leaf, ops, env).Some?
    ensures Aligned(Eval(c, leaf, ops, env).value, Expected(leaf, ops), env)
  {
    if ops != [] {
      StackIsAligned(c, leaf, ops[..|ops| - 1], env);
      AddsAlign(ops[|ops| - 1].adds, env);
      hide Assemble, AddedHistory, AddedDiffIDs, AddedDescriptors, AddedLayers, DiffIDOf, DescriptorOf, Known;
      var v := Eval(c, leaf, ops[..|ops| - 1], env).value;
      AssembleParts(c, ops[|ops| - 1], v, env);
    }
  }

  lemma AssembleParts(c: Codec, op: Op, v: View, env: Env)
    requires AllKnown(op.adds, env)
    ensures var w := Apply(c, op, v, env).value;
            && w.config.diffIDs == (if op.config.Some? then op.config.value else v.config).diffIDs
                                   + AddedDiffIDs(op.adds, env)
            && w.manifest.layers == v.manifest.layers + AddedDescriptors(op.adds, env)
  {
  }

  lemma {:induction false} ByDiffIDFinds(adds: seq<Addendum>, env: Env, h: Hash)
    requires AllKnown(adds, env)
    ensures h in ByDiffID(adds, env) ==>
              ByDiffID(adds, env)[h] in AddedLayers(adds) && Known(ByDiffID(adds, env)[h], env)
              && DiffIDOf(ByDiffID(adds, env)[h], env) == h
    ensures forall l :: l in AddedLayers(adds) ==>
              Known(l, env) && (DiffIDOf(l, env) == h ==> h in ByDiffID(adds, env))
  {
    if adds != [] {
      ByDiffIDFinds(adds[..|adds| - 1], env, h);
      assert adds[|adds| - 1] in adds;
    }
  }

  lemma {:induction false} FindInLeafFinds(diffIDs: seq<Hash>, layers: seq<Layer>, h: Hash)
    requires |diffIDs| == |layers|
    ensures FindInLeaf(diffIDs, layers, h).Some? <==> h in diffIDs
    ensures FindInLeaf(diffIDs, layers, h).Some? ==>
              exists i :: 0 <= i < |layers| && layers[i] == FindInLeaf(diffIDs, layers, h).value && diffIDs[i] == h
  {
    if diffIDs != [] {
      FindInLeafFinds(diffIDs[1..], layers[1..], h);
      assert diffIDs == [diffIDs[0]] + diffIDs[1..];
      if diffIDs[0] == h {
        assert layers[0] == FindInLeaf(diffIDs, layers, h).value && diffIDs[0] == h;
      } else if h in diffIDs[1..] {
        var i :| 0 <= i < |layers[1..]| && layers[1..][i] == FindInLeaf(diffIDs[1..], layers[1..], h).value
                 && diffIDs[1..][i] == h;
        assert layers[i + 1] == FindInLeaf(diffIDs, layers, h).value && diffIDs[i + 1] == h;
      }
    }
  }

  /** A lookup by diff ID finds a layer of the list with that diff ID if there is one. */
  lemma {:induction false} FindFinds(leaf: Leaf, ops: seq<Op>, env: Env, h: Hash)
    requires Aligned(leaf.view, leaf.layers, env) && AllOpsKnown(ops, env)
    ensures var layers, found := Expected(leaf, ops), Find(leaf, ops, env, h);
            && (forall l :: l in layers ==> Known(l, env))
            && (found.Some? <==> exists l :: l in layers && DiffIDOf(l, env) == h)
            && (found.Some? ==> found.value in layers && DiffIDOf(found.value, env) == h)
  {
    if ops == [] {
      FindInLeafFinds(leaf.view.config.diffIDs, leaf.layers, h);
      if l :| l in leaf.layers && DiffIDOf(l, env) == h {
        var i :| 0 <= i < |leaf.layers| && leaf.layers[i] == l;
        assert leaf.view.config.diffIDs[i] == h;
      }
    } else {
      FindFinds(leaf, ops[..|ops| - 1], env, h);
      ByDiffIDFinds(ops[|ops| - 1].adds, env, h);
    }
  }

  /** The digests of the config files of all images of a stack. */
  ghost function ConfigDigests(c: Codec, leaf: Leaf, ops: seq<Op>, env: Env): set<Hash> {
    match Eval(c, leaf, ops, env)
    case None => {}
    case Some(v) =>
      {v.manifest.configDigest} + if ops == [] then {} else ConfigDigests(c, leaf, ops[..|ops| - 1], env)
  }

  lemma {:induction false} ByDigestFinds(adds: seq<Addendum>, env: Env, h: Hash)
    requires AllKnown(adds, env)
    ensures h in ByDigest(adds, env) ==>
              ByDigest(adds, env)[h] in AddedLayers(adds) && Known(ByDigest(adds, env)[h], env)
              && DescriptorOf(ByDigest(adds, env)[h], env).digest == h
    ensures forall l :: l in AddedLayers(adds) ==>
              Known(l, env) && (DescriptorOf(l, env).digest == h ==> h in ByDigest(adds, env))
  {
    if adds != [] {
      ByDigestFinds(adds[..|adds| - 1], env, h);
      assert adds[|adds| - 1] in adds;
    }
  }

  lemma {:induction false} FindBlobInLayersFinds(descs: seq<Descriptor>, layers: seq<Layer>, h: Hash)
    requires |descs| == |layers|
    ensures var found := FindBlobInLayers(descs, layers, h);
      && (found.Some? ==> found.value.LayerBlob? && exists i :: 0 <= i < |layers| && layers[i] == found.value.layer && descs[i].digest == h)
      && ((exists i :: 0 <= i < |descs| && descs[i].digest == h) ==> found.Some?)
  {
    if descs != [] {
      FindBlobInLayersFinds(descs[1..], layers[1..], h);
      assert descs == [descs[0]] + descs[1..] && layers == [layers[0]] + layers[1..];
    }
  }

  /** A lookup by digest finds a layer of the list with that digest if there is one, unless the
      digest is also that of a config file of the stack. */
  lemma {:induction false} FindBlobFinds(c: Codec, leaf: Leaf, ops: seq<Op>, env: Env, h: Hash)
    requires Aligned(leaf.view, leaf.layers, env) && Eval(c, leaf, ops, env).Some?
    ensures var layers, found := Expected(leaf, ops), FindBlob(c, leaf, ops, env, h);
      && (forall l :: l in layers ==> Known(l, env))
      && (found.Some? && found.value.LayerBlob? ==>
            found.value.layer in layers && DescriptorOf(found.value.layer, env).digest == h)
      && (h !in ConfigDigests(c, leaf, ops, env) ==>
            && (found.Some? <==> exists l :: l in layers && DescriptorOf(l, env).digest == h)
            && (found.Some? ==> found.value.LayerBlob?))
  {
    if ops == [] {
      FindBlobInLayersFinds(leaf.view.manifest.layers, leaf.layers, h);
    } else {
      FindBlobFinds(c, leaf, ops[..|ops| - 1], env, h);
      ByDigestFinds(ops[|ops| - 1].adds, env, h);
      hide Aligned, Known, DescriptorOf, Apply, ByDigest, AddedLayers, AllKnown;
      BelowIsKnown(c, leaf, ops, env);
    }
  }

  /** Every digest of a computed manifest finds a layer with that digest. */
  lemma ManifestDigestsAreFound(c: Codec, leaf: Leaf, ops: seq<Op>, env: Env, i: nat)
    requires Aligned(leaf.view, leaf.layers, env) && KeepsDiffIDs(leaf, ops, env)
    requires Eval(c, leaf, ops, env).Some? && i < |Eval(c, leaf, ops, env).value.manifest.layers|
    ensures var h := Eval(c, leaf, ops, env).value.manifest.layers[i].digest;
            h !in ConfigDigests(c, leaf, ops, env) ==>
              var found := FindBlob(c, leaf, ops, env, h);
              found.Some? && found.value.LayerBlob? && found.value.layer in Expected(leaf, ops)
              && Known(found.value.layer, env) && DescriptorOf(found.value.layer, env).digest == h
  {
    StackIsAligned(c, leaf, ops, env);
    FindBlobFinds(c, leaf, ops, env, Eval(c, leaf, ops, env).value.manifest.layers[i].digest);
    hide Eval, Expected, FindBlob, ConfigDigests, KeepsDiffIDs;
    assert Expected(leaf, ops)[i] in Expected(leaf, ops);
  }

  lemma BelowIsKnown(c: Codec, leaf: Leaf, ops: seq<Op>, env: Env)
    requires ops != [] && Eval(c, leaf, ops, env).Some?
    ensures Eval(c, leaf, ops[..|ops| - 1], env).Some? && AllKnown(ops[|ops| - 1].adds, env)
  {
  }

  ghost predicate DiffIDDeterminesDigest(layers: seq<Layer>, env: Env)
    requires forall l :: l in layers ==> Known(l, env)
  {
    forall i, j :: 0 <= i < |layers| && 0 <= j < |layers| && DiffIDOf(layers[i], env) == DiffIDOf(layers[j], env) ==>
      DescriptorOf(layers[i], env).digest == DescriptorOf(layers[j], env).digest
  }

  /** The listed layers, position by position, are the ones the manifest names. */
  ghost predicate ListsManifestLayers(v: View, found: (bool, seq<Option<Layer>>), env: Env) {
    && found.0 && |found.1| == |v.manifest.layers|
    && forall i :: 0 <= i < |found.1| ==>
         && found.1[i].Some? && Known(found.1[i].value, env)
         && DescriptorOf(found.1[i].value, env).digest == v.manifest.layers[i].digest
  }

  /** Layer i of the list has the diff ID of position i, and is found by it. */
  ghost predicate LooksUp(leaf: Leaf, ops: seq<Op>, env: Env, v: View, layers: seq<Option<Layer>>, i: nat)
    requires AllOpsKnown(ops, env)
  {
    var expected := Expected(leaf, ops);
    && i < |layers| == |expected| == |v.config.diffIDs|
    && layers[i] == Find(leaf, ops, env, v.config.diffIDs[i])
    && layers[i].Some? && layers[i].value in expected
    && Known(layers[i].value, env) && Known(expected[i], env)
    && DiffIDOf(layers[i].value, env) == v.config.diffIDs[i] == DiffIDOf(expected[i], env)
  }

  lemma ListingLooksUp(c: Codec, leaf: Leaf, ops: seq<Op>, env: Env)
    requires Aligned(leaf.view, leaf.layers, env) && KeepsDiffIDs(leaf, ops, env) && ops != []
    requires Eval(c, leaf, ops, env).Some?
    ensures AllOpsKnown(ops, env)
    ensures var v, found := Eval(c, leaf, ops, env).value, Listing(c, leaf, ops, env);
            && found.0 && |found.1| == |Expected(leaf, ops)|
            && forall i :: 0 <= i < |found.1| ==> LooksUp(leaf, ops, env, v, found.1, i)
  {
    OpsKnown(c, leaf, ops, env);
    StackIsAligned(c, leaf, ops, env);
    ListingIsLooked(c, leaf, ops, env);
    var v, expected := Eval(c, leaf, ops, env).value, Expected(leaf, ops);
    hide Eval, Expected, Find, KeepsDiffIDs, Listing;
    var all := FindAll(leaf, ops, env, v.config.diffIDs);
    FoundLength(leaf, ops, env, v.config.diffIDs);
    forall i | 0 <= i < |expected|
      ensures LooksUp(leaf, ops, env, v, all, i)
    {
      FindFinds(leaf, ops, env, v.config.diffIDs[i]);
      FoundAt(leaf, ops, env, v.config.diffIDs, i);
      assert expected[i] in expected;
    }
    forall i | 0 <= i < |all|
      ensures all[i] != None
    {
      assert LooksUp(leaf, ops, env, v, all, i);
    }
  }

  lemma {:induction false} FoundLength(leaf: Leaf, ops: seq<Op>, env: Env, diffIDs: seq<Hash>)
    requires AllOpsKnown(ops, env)
    ensures |FindAll(leaf, ops, env, diffIDs)| == |diffIDs|
  {
    if diffIDs != [] {
      FoundAt(leaf, ops, env, diffIDs, 0);
    }
  }

  lemma ListingIsLooked(c: Codec, leaf: Leaf, ops: seq<Op>, env: Env)
    requires ops != [] && Eval(c, leaf, ops, env).Some? && AllOpsKnown(ops, env)
    ensures Listing(c, leaf, ops, env) == Looked(leaf, ops, env, Eval(c, leaf, ops, env).value.config.diffIDs)
  {
  }

  /** At every position the manifest's digest, the config's diff ID and the listed layer are
      of one layer, exactly when equal diff IDs in the stack come with equal digests. */
  lemma ListedLayersMatch(c: Codec, leaf: Leaf, ops: seq<Op>, env: Env)
    requires Aligned(leaf.view, leaf.layers, env) && KeepsDiffIDs(leaf, ops, env) && ops != []
    requires Eval(c, leaf, ops, env).Some?
    ensures forall l :: l in Expected(leaf, ops) ==> Known(l, env)
    ensures ListsManifestLayers(Eval(c, leaf, ops, env).value, Listing(c, leaf, ops, env), env) <==>
            DiffIDDeterminesDigest(Expected(leaf, ops), env)
  {
    var v, found, expected := Eval(c, leaf, ops, env).value, Listing(c, leaf, ops, env), Expected(leaf, ops);
    ListingLooksUp(c, leaf, ops, env);
    StackIsAligned(c, leaf, ops, env);
    hide Eval, Expected, Find, Listing, KeepsDiffIDs, DiffIDOf, DescriptorOf, Known;
    var layers := found.1;
    if DiffIDDeterminesDigest(expected, env) {
      forall i | 0 <= i < |layers|
        ensures layers[i].Some? && Known(layers[i].value, env)
        ensures DescriptorOf(layers[i].value, env).digest == v.manifest.layers[i].digest
      {
        assert LooksUp(leaf, ops, env, v, layers, i);
        var j :| 0 <= j < |expected| && expected[j] == layers[i].value;
      }
    }
    if ListsManifestLayers(v, found, env) {
      forall i, j | 0 <= i < |expected| && 0 <= j < |expected| && DiffIDOf(expected[i], env) == DiffIDOf(expected[j], env)
        ensures DescriptorOf(expected[i], env).digest == DescriptorOf(expected[j], env).digest
      {
        assert LooksUp(leaf, ops, env, v, layers, i) && LooksUp(leaf, ops, env, v, layers, j);
      }
    }
  }

  // ---------------------------------------------------------------- streams

  /** The already computed layer a read stream is worth. */
  ghost function Frozen(l: Layer, env: Env): Layer {
    if l.Streamed? && l.stream in env then Static(env[l.stream].diffID, DescriptorOf(l, env)) else l
  }

  ghost function FrozenAdds(adds: seq<Addendum>, env: Env): seq<Addendum> {
    if adds == [] then []
    else
      var a := adds[|adds| - 1];
      FrozenAdds(adds[..|adds| - 1], env)
      + [a.(layer := if a.layer.Some? then Some(Frozen(a.layer.value, env)) else None)]
  }

  ghost function FrozenOps(ops: seq<Op>, env: Env): seq<Op> {
    if ops == [] then []
    else FrozenOps(ops[..|ops| - 1], env) + [ops[|ops| - 1].(adds := FrozenAdds(ops[|ops| - 1].adds, env))]
  }

  lemma {:induction false} FrozenHistory(adds: seq<Addendum>, env: Env)
    ensures AddedHistory(FrozenAdds(adds, env)) == AddedHistory(adds)
  {
    if adds != [] {
      FrozenHistory(adds[..|adds| - 1], env);
      assert AddedHistory(adds) == AddedHistory(adds[..|adds| - 1]) + [adds[|adds| - 1].history];
      var frozen := FrozenAdds(adds, env);
      assert AddedHistory(frozen) == AddedHistory(frozen[..|frozen| - 1]) + [frozen[|frozen| - 1].history];
      assert frozen[..|frozen| - 1] == FrozenAdds(adds[..|adds| - 1], env);
    }
  }

  lemma {:induction false} FrozenAddsSame(adds: seq<Addendum>, env: Env)
    requires AllKnown(adds, env)
    ensures var frozen := FrozenAdds(adds, env);
            && AllKnown(frozen, map[])
            && AddedDiffIDs(frozen, map[]) == AddedDiffIDs(adds, env)
            && AddedDescriptors(frozen, map[]) == AddedDescriptors(adds, env)
  {
    if adds != [] {
      var rest := adds[..|adds| - 1];
      FrozenAddsSame(rest, env);
      assert adds[|adds| - 1] in adds;
      var frozen := FrozenAdds(adds, env);
      assert frozen == FrozenAdds(rest, env) + [frozen[|frozen| - 1]];
      assert frozen[..|frozen| - 1] == FrozenAdds(rest, env);
    }
  }

  /** Once all streams have been read, in whatever order, the image is the one built from
      layers that were computed beforehand. */
  lemma {:induction false} ReadStreamsAreLikeLayers(c: Codec, leaf: Leaf, ops: seq<Op>, env: Env)
    requires StreamsIn(ops) <= env.Keys
    ensures Eval(c, leaf, ops, env).Some?
    ensures Eval(c, leaf, FrozenOps(ops, env), map[]) == Eval(c, leaf, ops, env)
  {
    EvalNeedsAllStreams(c, leaf, ops, env);
    if ops != [] {
      ReadStreamsAreLikeLayers(c, leaf, ops[..|ops| - 1], env);
      var frozen := FrozenOps(ops, env);
      assert frozen[..|frozen| - 1] == FrozenOps(ops[..|ops| - 1], env);
      FrozenAddsSame(ops[|ops| - 1].adds, env);
      FrozenHistory(ops[|ops| - 1].adds, env);
    }
  }

  ghost function FrozenSlot(slot: Option<Layer>, env: Env): Option<Layer> {
    if slot.Some? then Some(Frozen(slot.value, env)) else None
  }

  ghost function FrozenSlots(slots: seq<Option<Layer>>, env: Env): seq<Option<Layer>> {
    seq(|slots|, i requires 0 <= i < |slots| => FrozenSlot(slots[i], env))
  }

  ghost function FrozenLeaf(leaf: Leaf, env: Env): Leaf {
    Leaf(leaf.view, seq(|leaf.layers|, i requires 0 <= i < |leaf.layers| => Frozen(leaf.layers[i], env)))
  }

  lemma {:induction false} FrozenLookup(adds: seq<Addendum>, env: Env, h: Hash)
    requires AllKnown(adds, env)
    ensures AllKnown(FrozenAdds(adds, env), map[])
    ensures var m, frozen := ByDiffID(adds, env), ByDiffID(FrozenAdds(adds, env), map[]);
            (h in m <==> h in frozen) && (h in m ==> frozen[h] == Frozen(m[h], env))
  {
    if adds != [] {
      var rest, a := adds[..|adds| - 1], adds[|adds| - 1];
      FrozenLookup(rest, env, h);
      FrozenAddsSame(adds, env);
      assert a in adds;
      var frozen := FrozenAdds(adds, env);
      assert frozen[..|frozen| - 1] == FrozenAdds(rest, env);
    }
  }

  lemma {:induction false} FrozenInLeaf(diffIDs: seq<Hash>, layers: seq<Layer>, frozen: seq<Layer>, env: Env, h: Hash)
    requires |frozen| == |layers| && forall i :: 0 <= i < |layers| ==> frozen[i] == Frozen(layers[i], env)
    ensures FindInLeaf(diffIDs, frozen, h) == FrozenSlot(FindInLeaf(diffIDs, layers, h), env)
  {
    if diffIDs != [] && layers != [] {
      FrozenInLeaf(diffIDs[1..], layers[1..], frozen[1..], env, h);
    }
  }

  lemma {:induction false} FrozenFind(leaf: Leaf, ops: seq<Op>, env: Env, h: Hash)
    requires AllOpsKnown(ops, env)
    ensures AllOpsKnown(FrozenOps(ops, env), map[])
    ensures Find(FrozenLeaf(leaf, env), FrozenOps(ops, env), map[], h) == FrozenSlot(Find(leaf, ops, env, h), env)
  {
    if ops == [] {
      FrozenInLeaf(leaf.view.config.diffIDs, leaf.layers, FrozenLeaf(leaf, env).layers, env, h);
    } else {
      var rest, op := ops[..|ops| - 1], ops[|ops| - 1];
      assert ops == rest + [op];
      FrozenFind(leaf, rest, env, h);
      FrozenLookup(op.adds, env, h);
      var frozen := FrozenOps(ops, env);
      assert frozen[..|frozen| - 1] == FrozenOps(rest, env);
      assert frozen == FrozenOps(rest, env) + [op.(adds := FrozenAdds(op.adds, env))];
      hide ByDiffID, FrozenAdds, Frozen, FrozenLeaf;
    }
  }

  lemma {:induction false} FrozenFindAll(leaf: Leaf, ops: seq<Op>, env: Env, diffIDs: seq<Hash>)
    requires AllOpsKnown(ops, env)
    ensures AllOpsKnown(FrozenOps(ops, env), map[])
    ensures FindAll(FrozenLeaf(leaf, env), FrozenOps(ops, env), map[], diffIDs)
            == FrozenSlots(FindAll(leaf, ops, env, diffIDs), env)
  {
    FrozenFind(leaf, ops, env, "");
    hide Find, FrozenLeaf, FrozenOps, AllOpsKnown, FrozenSlot;
    if diffIDs != [] {
      var rest := diffIDs[..|diffIDs| - 1];
      FrozenFindAll(leaf, ops, env, rest);
      FrozenFind(leaf, ops, env, diffIDs[|diffIDs| - 1]);
      FrozenMore(FindAll(leaf, ops, env, rest), Find(leaf, ops, env, diffIDs[|diffIDs| - 1]), env);
    } else {
      assert FrozenSlots([], env) == [];
    }
    hide FrozenSlots;
  }

  lemma FrozenMore(slots: seq<Option<Layer>>, slot: Option<Layer>, env: Env)
    ensures FrozenSlots(slots + [slot], env) == FrozenSlots(slots, env) + [FrozenSlot(slot, env)]
  {
  }

  lemma FrozenLooked(leaf: Leaf, ops: seq<Op>, env: Env, diffIDs: seq<Hash>)
    requires AllOpsKnown(ops, env)
    ensures AllOpsKnown(FrozenOps(ops, env), map[])
    ensures var looked := Looked(leaf, ops, env, diffIDs);
            Looked(FrozenLeaf(leaf, env), FrozenOps(ops, env), map[], diffIDs) == (looked.0, FrozenSlots(looked.1, env))
  {
    FrozenFindAll(leaf, ops, env, diffIDs);
    NoneFrozen(FindAll(leaf, ops, env, diffIDs), env);
    hide FindAll, FrozenOps, FrozenLeaf, AllOpsKnown, FrozenSlots;
  }

  lemma NoneFrozen(slots: seq<Option<Layer>>, env: Env)
    ensures None in FrozenSlots(slots, env) <==> None in slots
    ensures FrozenSlots([], env) == []
  {
    forall i | 0 <= i < |slots|
      ensures FrozenSlots(slots, env)[i] == None <==> slots[i] == None
    {
    }
    if None in slots {
      var i :| 0 <= i < |slots| && slots[i] == None;
      assert FrozenSlots(slots, env)[i] == None;
    }
  }

  lemma {:induction false} EvalSeesTheView(c: Codec, leaf: Leaf, other: Leaf, ops: seq<Op>, env: Env)
    requires leaf.view == other.view
    ensures Eval(c, leaf, ops, env) == Eval(c, other, ops, env)
  {
    if ops != [] {
      EvalSeesTheView(c, leaf, other, ops[..|ops| - 1], env);
    }
  }

  lemma {:induction false} FrozenLength(ops: seq<Op>, env: Env)
    ensures |FrozenOps(ops, env)| == |ops|
  {
    if ops != [] {
      FrozenLength(ops[..|ops| - 1], env);
    }
  }

  /** The listed layers, too, are those of the image built from layers computed beforehand. */
  lemma ReadStreamsListLikeLayers(c: Codec, leaf: Leaf, ops: seq<Op>, env: Env)
    requires StreamsIn(ops) <= env.Keys
    ensures Listing(c, FrozenLeaf(leaf, env), FrozenOps(ops, env), map[])
            == (Listing(c, leaf, ops, env).0, FrozenSlots(Listing(c, leaf, ops, env).1, env))
  {
    var frozenLeaf, frozenOps := FrozenLeaf(leaf, env), FrozenOps(ops, env);
    FrozenLength(ops, env);
    if ops == [] {
      assert Present(frozenLeaf.layers) == FrozenSlots(Present(leaf.layers), env);
    } else {
      ReadStreamsAreLikeLayers(c, leaf, ops, env);
      EvalSeesTheView(c, leaf, frozenLeaf, frozenOps, map[]);
      OpsKnown(c, leaf, ops, env);
      FrozenLooked(leaf, ops, env, Eval(c, leaf, ops, env).value.config.diffIDs);
      ListingIsLooked(c, leaf, ops, env);
      ListingIsLooked(c, frozenLeaf, frozenOps, map[]);
      hide Listing, Eval, Looked, FrozenOps, FrozenLeaf, FrozenSlots, StreamsIn, AllOpsKnown;
    }
  }

  // ---------------------------------------------------------------- streams over time

  /** What happens to any number of streams, in the order in which it happens. */
  type World = seq<(S.Layer, S.Event)>

  /** What happens to one of them. */
  function Own(world: World, l: S.Layer): seq<S.Event> {
    if world == [] then []
    else Own(world[..|world| - 1], l) + if world[|world| - 1].0 == l then [world[|world| - 1].1] else []
  }

  function Touched(world: World): set<S.Layer> { set e | e in world :: e.0 }

  /** What the streams answer then. */
  ghost function EnvAfter(c: S.Codec, world: World): Env {
    map l | l in Touched(world) && S.After(c, Own(world, l)).facts.Some? :: S.After(c, Own(world, l)).facts.value
  }

  ghost predicate AllSafe(c: S.Codec, world: World) {
    forall l :: l in Touched(world) ==> S.Safe(c, Own(world, l))
  }

  lemma {:induction false} OwnPrefix(world: World, n: nat, l: S.Layer)
    requires n <= |world|
    ensures Own(world[..n], l) <= Own(world, l)
  {
    if n == |world| {
      assert world[..n] == world;
    } else {
      OwnPrefix(world[..|world| - 1], n, l);
      assert world[..|world| - 1][..n] == world[..n];
    }
  }

  lemma {:induction false} TouchedHasOwn(world: World, l: S.Layer)
    ensures l in Touched(world) <==> Own(world, l) != []
  {
    if world != [] {
      var rest, last := world[..|world| - 1], world[|world| - 1];
      TouchedHasOwn(rest, l);
      assert world == rest + [last];
      if l in Touched(rest) {
        var e :| e in rest && e.0 == l;
        assert e in world;
      }
      if last.0 == l {
        assert last in world;
      }
    }
  }

  /** As long as every stream is read safely, the answers only get more: what was computed at
      some time is what would be computed at any later time. */
  lemma SafeStreamsOnlyExtend(c: Codec, sc: S.Codec, leaf: Leaf, ops: seq<Op>, world: World, n: nat)
    requires AllSafe(sc, world) && n <= |world|
    ensures Extends(EnvAfter(sc, world[..n]), EnvAfter(sc, world))
    ensures Eval(c, leaf, ops, EnvAfter(sc, world[..n])).Some? ==>
      Eval(c, leaf, ops, EnvAfter(sc, world)) == Eval(c, leaf, ops, EnvAfter(sc, world[..n]))
  {
    hide Eval, S.After, S.Safe;
    var early, late := EnvAfter(sc, world[..n]), EnvAfter(sc, world);
    forall l | l in early
      ensures l in late && late[l] == early[l]
    {
      OwnPrefix(world, n, l);
      TouchedHasOwn(world[..n], l);
      TouchedHasOwn(world, l);
      var own, first := Own(world, l), Own(world[..n], l);
      S.SafeFactsStay(sc, own);
      assert own[..|first|] == first && own[..|own|] == own;
      assert S.At(sc, own, |own|).facts == S.At(sc, own, |first|).facts;
    }
    if Eval(c, leaf, ops, early).Some? {
      EvalStays(c, leaf, ops, early, late);
    }
  }

  /** An image object stays valid while its streams are read safely, in any interleaving, and what
      it has computed is what its wrappers would mean if they were applied at the end. */
  lemma ImageOutlivesReading(sc: S.Codec, world: World, n: nat, image: Image)
    requires AllSafe(sc, world) && n <= |world| && image.Valid(EnvAfter(sc, world[..n]))
    ensures image.Valid(EnvAfter(sc, world))
    ensures image.computed ==>
      && image.configFile.Some? && image.manifest.Some?
      && Eval(image.codec, image.leaf, image.ops, EnvAfter(sc, world)) == Some(View(image.configFile.value, image.manifest.value))
  {
    var early, late := EnvAfter(sc, world[..n]), EnvAfter(sc, world);
    SafeStreamsOnlyExtend(image.codec, sc, image.leaf, image.ops, world, n);
    hide EnvAfter, AllSafe, Eval, Extends;
    image.ValidStays(early, late);
    if image.computed {
      image.StillRemembers(late);
    }
  }

  /** The streams may be read in any order and interleaved in any way. */
  lemma ReadingOrderIsIrrelevant(c: Codec, sc: S.Codec, leaf: Leaf, ops: seq<Op>, a: World, b: World)
    requires forall l :: l in Touched(a) + Touched(b) ==> Own(a, l) == Own(b, l)
    ensures EnvAfter(sc, a) == EnvAfter(sc, b)
    ensures Eval(c, leaf, ops, EnvAfter(sc, a)) == Eval(c, leaf, ops, EnvAfter(sc, b))
    ensures Listing(c, leaf, ops, EnvAfter(sc, a)) == Listing(c, leaf, ops, EnvAfter(sc, b))
  {
    hide Eval, Listing, S.After, Own, Touched;
    forall l | l in Touched(a) + Touched(b)
      ensures l in Touched(a) && l in Touched(b)
    {
      TouchedHasOwn(a, l);
      TouchedHasOwn(b, l);
    }
    assert Touched(a) == Touched(b);
    SameAnswers(sc, a, b);
  }

  lemma SameAnswers(sc: S.Codec, a: World, b: World)
    requires Touched(a) == Touched(b) && forall l :: l in Touched(a) ==> Own(a, l) == Own(b, l)
    ensures EnvAfter(sc, a) == EnvAfter(sc, b)
  {
    hide Touched, Own, S.After;
  }

  /** The layers themselves answer like that, when each has been through its own events. */
  lemma SessionsAnswer(sc: S.Codec, world: World, sessions: set<S.Session>)
    requires forall s :: s in sessions ==> s.Valid() && s.State() == S.After(sc, Own(world, s.layer))
    ensures Answers(EnvAfter(sc, world), set s | s in sessions :: s.layer)
  {
    var env := EnvAfter(sc, world);
    forall s | s in sessions
      ensures s.layer.Consistent() && s.layer.Known() == if s.layer in env then Some(env[s.layer]) else None
    {
      assert s.State().facts == s.layer.Known();
      TouchedHasOwn(world, s.layer);
    }
  }

  /** Two layers with one diff ID and different digests: both positions list the later one. */
  lemma SameContentsTwiceListWrongly(c: Codec, leaf: Leaf, a: Addendum, b: Addendum)
    requires Aligned(leaf.view, leaf.layers, map[])
    requires a.layer.Some? && a.layer.value.Static? && b.layer.Some? && b.layer.value.Static?
    requires a.layer.value.diffID == b.layer.value.diffID
    requires a.layer.value.desc.digest != b.layer.value.desc.digest
    ensures var ops := [Op([a, b], None, None)];
            && Eval(c, leaf, ops, map[]).Some?
            && !ListsManifestLayers(Eval(c, leaf, ops, map[]).value, Listing(c, leaf, ops, map[]), map[])
  {
    var ops := [Op([a, b], None, None)];
    assert ops[..0] == [] && [a, b][..1] == [a] && [a][..0] == [];
    var adds := [a, b];
    assert adds[..|adds| - 1] == [a];
    assert AddedLayers([a]) == [a.layer.value];
    assert AddedLayers(adds) == AddedLayers([a]) + [b.layer.value];
    assert Expected(leaf, ops[..0]) == leaf.layers;
    var n := |leaf.layers|;
    ListedLayersMatch(c, leaf, ops, map[]);
    var expected := Expected(leaf, ops);
    assert expected[n] == a.layer.value && expected[n + 1] == b.layer.value;
    assert DiffIDOf(expected[n], map[]) == DiffIDOf(expected[n + 1], map[]);
  }
}
