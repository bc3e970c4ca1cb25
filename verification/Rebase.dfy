/** Rebasing an image onto a new base (pkg/v1/mutate/rebase.go): the layers and the history
    above the old base are cut off and put on top of the new base. */
module Rebase {
  import opened Common
  import opened MutateImage
  import S = Streams

  /** An image as Rebase sees it. */
  datatype Source = Source(layers: seq<Layer>, config: Config)

  datatype Error = TooFewLayers | LayerMismatch(index: nat) | NoDigest | IndexOutOfRange

  const NO_HISTORY := History(false, "")

  // ---------------------------------------------------------------- createAddendums

  /** The number of history entries that come with a layer. */
  function NonEmpty(history: seq<History>): nat {
    if history == [] then 0
    else NonEmpty(history[..|history| - 1]) + if history[|history| - 1].emptyLayer then 0 else 1
  }

  lemma {:induction false} NonEmptyGrows(history: seq<History>, i: nat, j: nat)
    requires i <= j <= |history|
    ensures NonEmpty(history[..i]) <= NonEmpty(history[..j]) <= NonEmpty(history[..i]) + (j - i)
  {
    if i < j {
      NonEmptyGrows(history, i, j - 1);
      assert history[..j][..j - 1] == history[..j - 1];
    }
  }

  function Plain(layer: Option<Layer>, history: History): Addendum {
    Addendum(layer, history, [], map[], "")
  }

  /** History entry n with its layer: empty entries have none, the others take the layers in order. */
  function Pair(history: seq<History>, layers: seq<Layer>, n: nat): Addendum
    requires n < |history| && NonEmpty(history) <= |layers|
  {
    NonEmptyGrows(history, n + 1, |history|);
    assert history[..|history|] == history;
    assert history[..n + 1][..n] == history[..n];
    Plain(if history[n].emptyLayer then None else Some(layers[NonEmpty(history[..n])]), history[n])
  }

  /** All history entries, each with its own layer. */
  function Paired(history: seq<History>, layers: seq<Layer>): seq<Addendum>
    requires NonEmpty(history) <= |layers|
  {
    seq(|history|, n requires 0 <= n < |history| => Pair(history, layers, n))
  }

  predicate Included(startHistory: nat, startLayer: nat, history: seq<History>, n: nat)
    requires n < |history|
  {
    n >= startHistory || NonEmpty(history[..n + 1]) >= startLayer
  }

  /** The pairs that createAddendums keeps. */
  function Kept(startHistory: nat, startLayer: nat, history: seq<History>, layers: seq<Layer>, n: nat): seq<Addendum>
    requires n <= |history| && NonEmpty(history) <= |layers|
  {
    if n == 0 then []
    else Kept(startHistory, startLayer, history, layers, n - 1)
         + if Included(startHistory, startLayer, history, n - 1) then [Pair(history, layers, n - 1)] else []
  }

  /** What follows when the history has too few entries: the code appends the same layer
      for every missing entry. */
  function Leftover(startLayer: nat, layers: seq<Layer>, layerIndex: nat, i: nat): seq<Addendum>
    requires layerIndex <= i <= |layers|
  {
    if i == layerIndex then []
    else Leftover(startLayer, layers, layerIndex, i - 1)
         + if i - 1 >= startLayer then [Plain(Some(layers[layerIndex]), NO_HISTORY)] else []
  }

  /** createAddendums.  A history with more non-empty entries than layers indexes out of range. */
  method CreateAddendums(startHistory: nat, startLayer: nat, history: seq<History>, layers: seq<Layer>)
    returns (inRange: bool, adds: seq<Addendum>)
    ensures inRange <==> NonEmpty(history) <= |layers|
    ensures inRange ==> adds == Kept(startHistory, startLayer, history, layers, |history|)
                                + Leftover(startLayer, layers, NonEmpty(history), |layers|)
  {
    adds := [];
    var layerIndex, historyIndex := 0, 0;
    assert history[..|history|] == history;
    while historyIndex < |history|
      invariant 0 <= historyIndex <= |history|
      invariant layerIndex == NonEmpty(history[..historyIndex]) <= |layers|
      invariant NonEmpty(history) <= |layers| ==> adds == Kept(startHistory, startLayer, history, layers, historyIndex)
    {
      var layer := None;
      var entry := history[historyIndex];
      assert history[..historyIndex + 1][..historyIndex] == history[..historyIndex];
      NonEmptyGrows(history, historyIndex + 1, |history|);
      if !entry.emptyLayer {
        if layerIndex >= |layers| {
          return false, [];
        }
        layer := Some(layers[layerIndex]);
        layerIndex := layerIndex + 1;
      }
      if historyIndex >= startHistory || layerIndex >= startLayer {
        adds := adds + [Plain(layer, entry)];
      }
      historyIndex := historyIndex + 1;
    }
    ghost var kept := adds;
    var i := layerIndex;
    while i < |layers|
      invariant layerIndex <= i <= |layers|
      invariant adds == kept + Leftover(startLayer, layers, layerIndex, i)
    {
      if i >= startLayer {
        adds := adds + [Plain(Some(layers[layerIndex]), NO_HISTORY)];
      }
      i := i + 1;
    }
    return true, adds;
  }

  // ---------------------------------------------------------------- the cut

  /** Where the original's first `startHistory` entries end, counted in layers. */
  function Cut(startHistory: nat, history: seq<History>): nat {
    NonEmpty(if startHistory <= |history| then history[..startHistory] else history)
  }

  function Min(a: nat, b: nat): nat { if a <= b then a else b }

  lemma CutBounds(startHistory: nat, history: seq<History>, n: nat)
    requires n <= |history|
    ensures n <= startHistory ==> NonEmpty(history[..n]) <= Cut(startHistory, history)
    ensures n >= startHistory ==> NonEmpty(history[..n]) >= Cut(startHistory, history)
    ensures NonEmpty(history[..n]) <= NonEmpty(history)
  {
    assert history[..|history|] == history;
    NonEmptyGrows(history, n, |history|);
    if startHistory <= |history| {
      if n <= startHistory {
        NonEmptyGrows(history, n, startHistory);
      } else {
        NonEmptyGrows(history, startHistory, n);
      }
    }
  }

  lemma PairLayer(history: seq<History>, layers: seq<Layer>, n: nat)
    requires n < |history| && NonEmpty(history) <= |layers|
    ensures var k := NonEmpty(history[..n]);
            && NonEmpty(history[..n + 1]) == k + (if history[n].emptyLayer then 0 else 1)
            && Pair(history, layers, n).history == history[n]
            && (history[n].emptyLayer ==> Pair(history, layers, n).layer == None)
            && (!history[n].emptyLayer ==> k < |layers| && Pair(history, layers, n).layer == Some(layers[k]))
  {
    assert history[..n + 1][..n] == history[..n];
    CutBounds(n, history, n + 1);
  }

  lemma AddedLayersLast(adds: seq<Addendum>, a: Addendum)
    ensures AddedLayers(adds + [a]) == AddedLayers(adds) + if a.layer.Some? then [a.layer.value] else []
  {
    assert (adds + [a])[..|adds|] == adds;
  }

  function Slice<T>(s: seq<T>, from: nat, to: nat): seq<T>
    requires to <= |s|
  {
    if to <= from then [] else s[from..to]
  }

  lemma SliceGrows<T>(s: seq<T>, from: nat, to: nat)
    requires to < |s|
    ensures Slice(s, from, to + 1) == Slice(s, from, to) + if to >= from then [s[to]] else []
  {
  }

  /** An entry with a layer is kept exactly when its layer lies above the smaller cut. */
  lemma KeptWhen(startHistory: nat, cut: nat, history: seq<History>, n: nat)
    requires n < |history| && !history[n].emptyLayer
    ensures Included(startHistory, cut + 1, history, n) <==>
            NonEmpty(history[..n]) >= Min(Cut(startHistory, history), cut)
  {
    CutBounds(startHistory, history, n);
    CutBounds(startHistory, history, n + 1);
    assert history[..n + 1][..n] == history[..n];
  }

  lemma KeptOneMore(startHistory: nat, cut: nat, history: seq<History>, layers: seq<Layer>, n: nat)
    requires n < |history| && NonEmpty(history) <= |layers|
    ensures var k, from := NonEmpty(history[..n]), Min(Cut(startHistory, history), cut);
            var before := AddedLayers(Kept(startHistory, cut + 1, history, layers, n));
            var after := AddedLayers(Kept(startHistory, cut + 1, history, layers, n + 1));
            if history[n].emptyLayer then after == before
            else k < |layers| && after == before + if k >= from then [layers[k]] else []
  {
    PairLayer(history, layers, n);
    var before := Kept(startHistory, cut + 1, history, layers, n);
    AddedLayersLast(before, Pair(history, layers, n));
    assert before + [] == before;
    if !history[n].emptyLayer {
      KeptWhen(startHistory, cut, history, n);
    }
    hide Pair, NonEmpty, AddedLayers, Cut, Min, Included;
  }

  /** The layers that are kept are those from the smaller of the two cuts on. */
  lemma {:induction false} KeptLayers(startHistory: nat, cut: nat, history: seq<History>, layers: seq<Layer>, n: nat)
    requires n <= |history| && NonEmpty(history) <= |layers|
    ensures NonEmpty(history[..n]) <= |layers|
    ensures AddedLayers(Kept(startHistory, cut + 1, history, layers, n)) ==
            Slice(layers, Min(Cut(startHistory, history), cut), NonEmpty(history[..n]))
  {
    if n == 0 {
    } else {
      KeptLayers(startHistory, cut, history, layers, n - 1);
      KeptLayersStep(startHistory, cut, history, layers, n - 1);
    }
  }

  lemma KeptLayersStep(startHistory: nat, cut: nat, history: seq<History>, layers: seq<Layer>, n: nat)
    requires n < |history| && NonEmpty(history) <= |layers|
    requires NonEmpty(history[..n]) <= |layers|
    requires AddedLayers(Kept(startHistory, cut + 1, history, layers, n)) ==
             Slice(layers, Min(Cut(startHistory, history), cut), NonEmpty(history[..n]))
    ensures NonEmpty(history[..n + 1]) <= |layers|
    ensures AddedLayers(Kept(startHistory, cut + 1, history, layers, n + 1)) ==
            Slice(layers, Min(Cut(startHistory, history), cut), NonEmpty(history[..n + 1]))
  {
    hide *;
    PairLayer(history, layers, n);
    KeptOneMore(startHistory, cut, history, layers, n);
    if !history[n].emptyLayer {
      SliceGrows(layers, Min(Cut(startHistory, history), cut), NonEmpty(history[..n]));
    }
  }

  /** The history entries that are kept, when the history is not cut above the layers. */
  lemma {:induction false} KeptHistory(startHistory: nat, cut: nat, history: seq<History>, layers: seq<Layer>, n: nat)
    requires n <= |history| && NonEmpty(history) <= |layers|
    requires Cut(startHistory, history) <= cut
    ensures Kept(startHistory, cut + 1, history, layers, n) ==
            if n <= startHistory then [] else Paired(history, layers)[startHistory..n]
  {
    hide Pair, NonEmpty, Cut;
    if n > 0 {
      KeptHistory(startHistory, cut, history, layers, n - 1);
      CutBounds(startHistory, history, n);
    }
  }

  /** Otherwise at least one entry too many is kept. */
  lemma {:induction false} KeptTooMuch(startHistory: nat, cut: nat, history: seq<History>, layers: seq<Layer>, n: nat)
    requires n <= |history| && NonEmpty(history) <= |layers|
    requires Cut(startHistory, history) > cut
    ensures |Kept(startHistory, cut + 1, history, layers, n)| >= n - Min(startHistory, n)
    ensures n >= Min(startHistory, |history|) ==>
              |Kept(startHistory, cut + 1, history, layers, n)| > n - Min(startHistory, n)
  {
    if n > 0 {
      KeptTooMuch(startHistory, cut, history, layers, n - 1);
      assert history[..|history|] == history;
      hide Pair, NonEmpty;
    }
  }

  lemma KeptHistories(history: seq<History>, layers: seq<Layer>)
    requires NonEmpty(history) <= |layers|
    ensures |Paired(history, layers)| == |history|
    ensures forall i :: 0 <= i < |history| ==> Paired(history, layers)[i].history == history[i]
  {
    forall i | 0 <= i < |history|
      ensures Paired(history, layers)[i].history == history[i]
    {
      PairLayer(history, layers, i);
    }
  }

  lemma LayersCut(startHistory: nat, cut: nat, history: seq<History>, layers: seq<Layer>)
    requires NonEmpty(history) == |layers| && cut <= |layers|
    ensures AddedLayers(Kept(startHistory, cut + 1, history, layers, |history|)) == layers[cut..] <==>
            Cut(startHistory, history) >= cut
  {
    assert history[..|history|] == history;
    CutBounds(startHistory, history, |history|);
    KeptLayers(startHistory, cut, history, layers, |history|);
    hide Pair, NonEmpty, AddedLayers, Cut, Kept;
    var from := Min(Cut(startHistory, history), cut);
    if from < |layers| {
      assert |layers[from..]| == |layers| - from;
      assert layers[from..] == layers[from..|layers|];
    }
  }

  lemma HistoryCut(startHistory: nat, cut: nat, history: seq<History>, layers: seq<Layer>)
    requires NonEmpty(history) == |layers|
    ensures AddedHistory(Kept(startHistory, cut + 1, history, layers, |history|))
            == (if startHistory <= |history| then history[startHistory..] else []) <==>
            Cut(startHistory, history) <= cut
  {
    hide Pair, NonEmpty, Cut;
    if Cut(startHistory, history) <= cut {
      KeptHistory(startHistory, cut, history, layers, |history|);
      KeptHistories(history, layers);
    } else {
      KeptTooMuch(startHistory, cut, history, layers, |history|);
    }
  }

  /** With a history that matches the layers, the pieces above the old base are right exactly
      when the old base's history cuts the original's history at the old base's layers: the
      layers need the cut not below, the history needs it not above.  Then each layer above
      the old base is still paired with its own history entry. */
  lemma CutIsExact(startHistory: nat, cut: nat, history: seq<History>, layers: seq<Layer>)
    requires NonEmpty(history) == |layers| && cut <= |layers|
    ensures var adds := Kept(startHistory, cut + 1, history, layers, |history|);
            var above := if startHistory <= |history| then history[startHistory..] else [];
            && (AddedLayers(adds) == layers[cut..] <==> Cut(startHistory, history) >= cut)
            && (AddedHistory(adds) == above <==> Cut(startHistory, history) <= cut)
    ensures Cut(startHistory, history) <= cut && startHistory <= |history| ==>
              Kept(startHistory, cut + 1, history, layers, |history|) == Paired(history, layers)[startHistory..]
  {
    assert |Paired(history, layers)| == |history|;
    hide Pair, NonEmpty, AddedLayers, AddedHistory, Cut, Kept, Paired;
    LayersCut(startHistory, cut, history, layers);
    HistoryCut(startHistory, cut, history, layers);
    if Cut(startHistory, history) <= cut && startHistory <= |history| {
      KeptHistory(startHistory, cut, history, layers, |history|);
    }
  }

  // ---------------------------------------------------------------- Rebase

  const EMPTY_SETTINGS := Settings("", "", "", "", "")

  const DOCKER_MANIFEST := "application/vnd.docker.distribution.manifest.v2+json"

  /** empty.Image. */
  function EmptyLeaf(c: Codec): Leaf {
    var config := MutateImage.Config([], [], EMPTY_SETTINGS);
    Leaf(View(config, Manifest(DOCKER_MANIFEST, c.hash(config), c.size(config), [])), [])
  }

  function ConfigOp(settings: Settings): Op { Op([], Some(MutateImage.Config([], [], settings)), None) }

  /** mutate.Append: no wrapper for nothing to add. */
  function AppendOps(adds: seq<Addendum>): seq<Op> {
    if adds == [] then [] else [Op(adds, None, None)]
  }

  function WithConfigOf(orig: Source): Settings { EMPTY_SETTINGS.(config := orig.config.settings.config) }

  function WithPlatformOf(orig: Source, newBase: Source): Settings {
    WithConfigOf(orig).(architecture := newBase.config.settings.architecture,
                        os := newBase.config.settings.os,
                        osVersion := newBase.config.settings.osVersion)
  }

  /** The wrappers that Rebase puts around the empty image. */
  function Wrappers(orig: Source, newBase: Source, below: seq<Addendum>, above: seq<Addendum>): seq<Op> {
    [ConfigOp(WithConfigOf(orig)), ConfigOp(WithPlatformOf(orig, newBase))] + AppendOps(below) + AppendOps(above)
  }

  /** mutate.validate: only an empty history entry may come without a layer. */
  predicate Valid(adds: seq<Addendum>) {
    forall a :: a in adds ==> a.layer.Some? || a.history.emptyLayer
  }

  /** Both digests at position i can be had. */
  ghost predicate BothKnown(orig: Source, oldBase: Source, env: Env, i: nat)
    requires i < |oldBase.layers| <= |orig.layers|
  {
    Known(oldBase.layers[i], env) && Known(orig.layers[i], env)
  }

  ghost predicate SameAt(orig: Source, oldBase: Source, env: Env, i: nat)
    requires i < |oldBase.layers| <= |orig.layers|
  {
    && BothKnown(orig, oldBase, env, i)
    && DescriptorOf(oldBase.layers[i], env).digest == DescriptorOf(orig.layers[i], env).digest
  }

  /** The original's first n layers are known to be the old base's. */
  ghost predicate SameUpTo(orig: Source, oldBase: Source, env: Env, n: nat)
    requires n <= |oldBase.layers| <= |orig.layers|
  {
    forall i :: 0 <= i < n ==> SameAt(orig, oldBase, env, i)
  }

  /** The original starts with the old base's layers. */
  ghost predicate BasedOn(orig: Source, oldBase: Source, env: Env) {
    && |oldBase.layers| <= |orig.layers|
    && SameUpTo(orig, oldBase, env, |oldBase.layers|)
  }

  predicate HistoriesInRange(orig: Source, newBase: Source) {
    && NonEmpty(newBase.config.history) <= |newBase.layers|
    && NonEmpty(orig.config.history) <= |orig.layers|
  }

  /** Position n is the first at which the digests are not known to be the same. */
  ghost predicate StopsAt(orig: Source, oldBase: Source, env: Env, n: nat)
    requires n < |oldBase.layers| <= |orig.layers|
  {
    SameUpTo(orig, oldBase, env, n) && !SameAt(orig, oldBase, env, n)
  }

  /** When Rebase reports which error: digests and then histories are looked at in order, and
      the first that is wrong decides. */
  ghost predicate Refused(orig: Source, oldBase: Source, newBase: Source, env: Env, e: Error) {
    match e
    case TooFewLayers => |oldBase.layers| > |orig.layers|
    case NoDigest =>
      && |oldBase.layers| <= |orig.layers|
      && exists n: nat :: n < |oldBase.layers| && StopsAt(orig, oldBase, env, n) && !BothKnown(orig, oldBase, env, n)
    case LayerMismatch(n) =>
      && n < |oldBase.layers| <= |orig.layers|
      && StopsAt(orig, oldBase, env, n) && BothKnown(orig, oldBase, env, n)
    case IndexOutOfRange => BasedOn(orig, oldBase, env) && !HistoriesInRange(orig, newBase)
  }

  /** No two of them at once, and none when the rebase can be done. */
  lemma RefusedOnce(orig: Source, oldBase: Source, newBase: Source, env: Env, e: Error, e': Error)
    requires Refused(orig, oldBase, newBase, env, e)
    ensures !(BasedOn(orig, oldBase, env) && HistoriesInRange(orig, newBase))
    ensures Refused(orig, oldBase, newBase, env, e') ==> e' == e
  {
    if |oldBase.layers| <= |orig.layers| && !BasedOn(orig, oldBase, env) {
      var n: nat :| n < |oldBase.layers| && StopsAt(orig, oldBase, env, n)
                    && e == if BothKnown(orig, oldBase, env, n) then LayerMismatch(n) else NoDigest;
      if Refused(orig, oldBase, newBase, env, e') {
        var n': nat :| n' < |oldBase.layers| && StopsAt(orig, oldBase, env, n')
                       && e' == if BothKnown(orig, oldBase, env, n') then LayerMismatch(n') else NoDigest;
        assert n' == n;
      }
    }
  }

  ghost function StreamsAmong(layers: seq<Layer>): set<S.Layer> {
    set l | l in layers && l.Streamed? :: l.stream
  }

  /** Digest of any layer. */
  method AskDigest(l: Layer, ghost env: Env, ghost streams: set<S.Layer>) returns (r: Result<Hash, S.Error>)
    requires Answers(env, streams) && (l.Streamed? ==> l.stream in streams)
    ensures r.Success? <==> Known(l, env)
    ensures r.Success? ==> r.value == DescriptorOf(l, env).digest
  {
    match l
    case Static(_, desc) => return Success(desc.digest);
    case Streamed(s) => r := s.Digest();
  }

  method Rebase(orig: Source, oldBase: Source, newBase: Source, ghost env: Env, ghost streams: set<S.Layer>)
    returns (r: Result<seq<Op>, Error>)
    requires Answers(env, streams) && StreamsAmong(orig.layers) + StreamsAmong(oldBase.layers) <= streams
    ensures r.Success? <==> BasedOn(orig, oldBase, env) && HistoriesInRange(orig, newBase)
    ensures r.Failure? ==> Refused(orig, oldBase, newBase, env, r.error)
    ensures r.Success? ==>
              var newHistory, history := newBase.config.history, orig.config.history;
              r.value == Wrappers(orig, newBase,
                Kept(0, 0, newHistory, newBase.layers, |newHistory|)
                + Leftover(0, newBase.layers, NonEmpty(newHistory), |newBase.layers|),
                Kept(|oldBase.config.history|, |oldBase.layers| + 1, history, orig.layers, |history|)
                + Leftover(|oldBase.layers| + 1, orig.layers, NonEmpty(history), |orig.layers|))
  {
    hide NonEmpty, Kept, Leftover;
    if |oldBase.layers| > |orig.layers| {
      return Failure(TooFewLayers);
    }
    var i := 0;
    while i < |oldBase.layers|
      invariant 0 <= i <= |oldBase.layers|
      invariant SameUpTo(orig, oldBase, env, i)
    {
      assert oldBase.layers[i] in oldBase.layers && orig.layers[i] in orig.layers;
      var oldDigest := AskDigest(oldBase.layers[i], env, streams);
      if oldDigest.Failure? {
        assert StopsAt(orig, oldBase, env, i);
        return Failure(NoDigest);
      }
      var origDigest := AskDigest(orig.layers[i], env, streams);
      if origDigest.Failure? {
        assert StopsAt(orig, oldBase, env, i);
        return Failure(NoDigest);
      }
      if oldDigest.value != origDigest.value {
        assert StopsAt(orig, oldBase, env, i);
        return Failure(LayerMismatch(i));
      }
      i := i + 1;
    }
    var inRange, below := CreateAddendums(0, 0, newBase.config.history, newBase.layers);
    if !inRange {
      return Failure(IndexOutOfRange);
    }
    var above;
    inRange, above := CreateAddendums(|oldBase.config.history|, |oldBase.layers| + 1, orig.config.history, orig.layers);
    if !inRange {
      return Failure(IndexOutOfRange);
    }
    return Success(Wrappers(orig, newBase, below, above));
  }

  // ---------------------------------------------------------------- what the rebased image is

  /** Every addendum carries a layer exactly when its history entry is not empty. */
  predicate WellPaired(adds: seq<Addendum>) {
    forall a :: a in adds ==> a == Plain(a.layer, a.history) && (a.layer.None? <==> a.history.emptyLayer)
  }

  /** Adding an entry to a matching history leaves the earlier pairs alone. */
  lemma PairExtends(history: seq<History>, layers: seq<Layer>, a: Addendum, n: nat)
    requires NonEmpty(history) == |layers| && n <= |history|
    requires a == Plain(a.layer, a.history) && (a.layer.None? <==> a.history.emptyLayer)
    ensures var history', layers' := history + [a.history], layers + if a.layer.Some? then [a.layer.value] else [];
            && NonEmpty(history') == |layers'|
            && Pair(history', layers', n) == if n < |history| then Pair(history, layers, n) else a
  {
    var history', layers' := history + [a.history], layers + if a.layer.Some? then [a.layer.value] else [];
    assert history'[..|history|] == history;
    assert history'[..n] == history[..n];
    PairLayer(history', layers', n);
    if n < |history| {
      PairLayer(history, layers, n);
    } else {
      assert history[..n] == history;
    }
  }

  /** Layers and history of such addenda pair up again into the same addenda. */
  lemma {:induction false} PairsAgain(adds: seq<Addendum>)
    requires WellPaired(adds)
    ensures NonEmpty(AddedHistory(adds)) == |AddedLayers(adds)|
    ensures Paired(AddedHistory(adds), AddedLayers(adds)) == adds
  {
    if adds == [] {
    } else {
      var rest, a := adds[..|adds| - 1], adds[|adds| - 1];
      assert adds == rest + [a];
      PairsAgain(rest);
      AddedLayersLast(rest, a);
      assert AddedHistory(adds) == AddedHistory(rest) + [a.history];
      PairExtends(AddedHistory(rest), AddedLayers(rest), a, 0);
      hide NonEmpty, Pair, AddedLayers, AddedHistory, Paired;
      forall n | 0 <= n < |adds|
        ensures Pair(AddedHistory(adds), AddedLayers(adds), n) == adds[n]
      {
        PairExtends(AddedHistory(rest), AddedLayers(rest), a, n);
        if n < |rest| {
          PairedAt(AddedHistory(rest), AddedLayers(rest), n);
        }
      }
      PairedIs(AddedHistory(adds), AddedLayers(adds), adds);
    }
  }

  lemma PairedAt(history: seq<History>, layers: seq<Layer>, n: nat)
    requires NonEmpty(history) <= |layers| && n < |history|
    ensures |Paired(history, layers)| == |history| && Paired(history, layers)[n] == Pair(history, layers, n)
  {
  }

  lemma PairedIs(history: seq<History>, layers: seq<Layer>, adds: seq<Addendum>)
    requires NonEmpty(history) <= |layers| && |history| == |adds|
    requires forall n :: 0 <= n < |adds| ==> Pair(history, layers, n) == adds[n]
    ensures Paired(history, layers) == adds
  {
  }

  lemma KeptIsWellPaired(startHistory: nat, startLayer: nat, history: seq<History>, layers: seq<Layer>, n: nat)
    requires n <= |history| && NonEmpty(history) <= |layers|
    ensures WellPaired(Kept(startHistory, startLayer, history, layers, n))
    ensures Valid(Kept(startHistory, startLayer, history, layers, n))
  {
    if n > 0 {
      PairLayer(history, layers, n - 1);
      KeptIsWellPaired(startHistory, startLayer, history, layers, n - 1);
    }
  }

  lemma EvalAppend(c: Codec, leaf: Leaf, ops: seq<Op>, adds: seq<Addendum>, env: Env)
    requires Eval(c, leaf, ops, env).Some? && AllKnown(adds, env)
    ensures Eval(c, leaf, ops + AppendOps(adds), env).Some?
    ensures var v, w := Eval(c, leaf, ops, env).value, Eval(c, leaf, ops + AppendOps(adds), env).value;
            w.config == v.config.(diffIDs := v.config.diffIDs + AddedDiffIDs(adds, env),
                                  history := v.config.history + AddedHistory(adds))
            && w.manifest.mediaType == v.manifest.mediaType
            && w.manifest.layers == v.manifest.layers + AddedDescriptors(adds, env)
    ensures Expected(leaf, ops + AppendOps(adds)) == Expected(leaf, ops) + AddedLayers(adds)
    ensures KeepsDiffIDs(leaf, ops, env) ==> KeepsDiffIDs(leaf, ops + AppendOps(adds), env)
  {
    hide AddedDiffIDs, AddedHistory, AddedLayers, AllKnown, AddedDescriptors;
    if adds == [] {
      assert ops + AppendOps(adds) == ops;
      NothingAdded(env);
    } else {
      assert (ops + AppendOps(adds))[..|ops|] == ops;
    }
  }

  lemma NothingAdded(env: Env)
    ensures AllKnown([], env) && AddedDiffIDs([], env) == [] && AddedHistory([]) == [] && AddedLayers([]) == []
    ensures AddedDescriptors([], env) == []
  {
  }

  /** The settings come from both images, and the rest from the empty image. */
  ghost predicate SettingsOf(s: Settings, orig: Source, newBase: Source) {
    && s.config == orig.config.settings.config
    && s.architecture == newBase.config.settings.architecture
    && s.os == newBase.config.settings.os
    && s.osVersion == newBase.config.settings.osVersion
    && s.other == ""
  }

  lemma EvalStart(c: Codec, orig: Source, newBase: Source, env: Env)
    ensures var ops := [ConfigOp(WithConfigOf(orig)), ConfigOp(WithPlatformOf(orig, newBase))];
            && Eval(c, EmptyLeaf(c), ops, env).Some?
            && Eval(c, EmptyLeaf(c), ops, env).value.config.diffIDs == []
            && Eval(c, EmptyLeaf(c), ops, env).value.config.history == []
            && SettingsOf(Eval(c, EmptyLeaf(c), ops, env).value.config.settings, orig, newBase)
            && Eval(c, EmptyLeaf(c), ops, env).value.manifest.mediaType == DOCKER_MANIFEST
            && Eval(c, EmptyLeaf(c), ops, env).value.manifest.layers == []
            && Expected(EmptyLeaf(c), ops) == []
            && KeepsDiffIDs(EmptyLeaf(c), ops, env)
    ensures Aligned(EmptyLeaf(c).view, EmptyLeaf(c).layers, env)
  {
    var first := [ConfigOp(WithConfigOf(orig))];
    EvalConfigOp(c, [], WithConfigOf(orig), env);
    assert [] + first == first;
    EvalConfigOp(c, first, WithPlatformOf(orig, newBase), env);
    assert first + [ConfigOp(WithPlatformOf(orig, newBase))] == [first[0], ConfigOp(WithPlatformOf(orig, newBase))];
  }

  lemma EvalConfigOp(c: Codec, ops: seq<Op>, settings: Settings, env: Env)
    requires Eval(c, EmptyLeaf(c), ops, env).Some? && Expected(EmptyLeaf(c), ops) == []
    requires KeepsDiffIDs(EmptyLeaf(c), ops, env)
    ensures var more := ops + [ConfigOp(settings)];
            && Eval(c, EmptyLeaf(c), more, env).Some?
            && Eval(c, EmptyLeaf(c), more, env).value.config == MutateImage.Config([], [], settings)
            && Eval(c, EmptyLeaf(c), more, env).value.manifest.mediaType == Eval(c, EmptyLeaf(c), ops, env).value.manifest.mediaType
            && Eval(c, EmptyLeaf(c), more, env).value.manifest.layers == Eval(c, EmptyLeaf(c), ops, env).value.manifest.layers
            && Expected(EmptyLeaf(c), more) == []
            && KeepsDiffIDs(EmptyLeaf(c), more, env)
  {
    NothingAdded(env);
    hide AddedDiffIDs, AddedHistory, AddedLayers, AllKnown, AddedDescriptors, EmptyLeaf;
    assert (ops + [ConfigOp(settings)])[..|ops|] == ops;
  }

  /** The meaning of the wrappers: settings from both images, and the two lists of addenda
      one after the other, in config, manifest and layer list alike. */
  lemma WrappersMean(c: Codec, orig: Source, newBase: Source, below: seq<Addendum>, above: seq<Addendum>, env: Env)
    requires AllKnown(below, env) && AllKnown(above, env)
    ensures var ops, leaf := Wrappers(orig, newBase, below, above), EmptyLeaf(c);
            && Eval(c, leaf, ops, env).Some?
            && KeepsDiffIDs(leaf, ops, env)
            && var v := Eval(c, leaf, ops, env).value;
               && SettingsOf(v.config.settings, orig, newBase)
               && v.config.history == AddedHistory(below) + AddedHistory(above)
               && v.manifest.mediaType == DOCKER_MANIFEST
               && v.manifest.layers == AddedDescriptors(below, env) + AddedDescriptors(above, env)
               && Expected(leaf, ops) == AddedLayers(below) + AddedLayers(above)
               && Aligned(v, Expected(leaf, ops), env)
  {
    hide Eval, Expected, KeepsDiffIDs, Aligned, AddedDiffIDs, AddedHistory, AddedLayers, AllKnown, EmptyLeaf, AppendOps, ConfigOp;
    var leaf := EmptyLeaf(c);
    var start := [ConfigOp(WithConfigOf(orig)), ConfigOp(WithPlatformOf(orig, newBase))];
    EvalStart(c, orig, newBase, env);
    EvalAppend(c, leaf, start, below, env);
    EvalAppend(c, leaf, start + AppendOps(below), above, env);
    StackIsAligned(c, leaf, Wrappers(orig, newBase, below, above), env);
  }

  /** Images that Rebase is meant for: histories that match the layers, all of them known. */
  ghost predicate Matched(s: Source, env: Env) {
    NonEmpty(s.config.history) == |s.layers| && forall l :: l in s.layers ==> Known(l, env)
  }

  lemma KeptKnown(startHistory: nat, startLayer: nat, s: Source, env: Env, n: nat)
    requires Matched(s, env) && n <= |s.config.history|
    ensures AllKnown(Kept(startHistory, startLayer, s.config.history, s.layers, n), env)
  {
    if n > 0 {
      PairLayer(s.config.history, s.layers, n - 1);
      KeptKnown(startHistory, startLayer, s, env, n - 1);
    }
  }

  /** All of the new base is taken, each layer with its own history entry. */
  lemma {:induction false} KeepsAll(history: seq<History>, layers: seq<Layer>, n: nat)
    requires n <= |history| && NonEmpty(history) <= |layers|
    ensures |Kept(0, 0, history, layers, n)| == n
    ensures forall i :: 0 <= i < n ==> Kept(0, 0, history, layers, n)[i] == Pair(history, layers, i)
  {
    hide Pair, NonEmpty;
    if n > 0 {
      KeepsAll(history, layers, n - 1);
    }
  }

  lemma {:induction false} PairedLayers(history: seq<History>, layers: seq<Layer>)
    requires NonEmpty(history) == |layers|
    ensures Kept(0, 0, history, layers, |history|) == Paired(history, layers)
    ensures AddedLayers(Paired(history, layers)) == layers
    ensures AddedHistory(Paired(history, layers)) == history
  {
    KeepsAll(history, layers, |history|);
    KeptHistories(history, layers);
    LayersCut(0, 0, history, layers);
    SameFromZero(history, layers, |history|);
    assert layers[0..] == layers;
  }

  lemma {:induction false} SameFromZero(history: seq<History>, layers: seq<Layer>, n: nat)
    requires n <= |history| && NonEmpty(history) <= |layers|
    ensures Kept(0, 1, history, layers, n) == Kept(0, 0, history, layers, n)
  {
    hide Pair, NonEmpty;
    if n > 0 {
      SameFromZero(history, layers, n - 1);
    }
  }

  /** The wrappers Rebase makes of matched images. */
  function RebasedOps(orig: Source, oldBase: Source, newBase: Source): seq<Op>
    requires NonEmpty(orig.config.history) == |orig.layers|
    requires NonEmpty(newBase.config.history) == |newBase.layers|
  {
    Wrappers(orig, newBase, Paired(newBase.config.history, newBase.layers),
             Kept(|oldBase.config.history|, |oldBase.layers| + 1, orig.config.history, orig.layers, |orig.config.history|))
  }

  /** The result's history and layers against what the rebase is meant to give. */
  ghost predicate Spliced(history: seq<History>, layers: seq<Layer>, orig: Source, oldBase: Source, newBase: Source)
    requires NonEmpty(orig.config.history) == |orig.layers| && |oldBase.layers| <= |orig.layers|
    requires NonEmpty(newBase.config.history) == |newBase.layers|
  {
    var start, cut := |oldBase.config.history|, Cut(|oldBase.config.history|, orig.config.history);
    var above := if start <= |orig.config.history| then orig.config.history[start..] else [];
    && (layers == newBase.layers + orig.layers[|oldBase.layers|..] <==> cut >= |oldBase.layers|)
    && (history == newBase.config.history + above <==> cut <= |oldBase.layers|)
    && (cut == |oldBase.layers| && start <= |orig.config.history| ==>
          && NonEmpty(history) == |layers|
          && Paired(history, layers) ==
             Paired(newBase.config.history, newBase.layers) + Paired(orig.config.history, orig.layers)[start..])
  }

  /** The manifest describes every layer as the layer describes itself. */
  ghost predicate DescribesLayers(descs: seq<Descriptor>, layers: seq<Layer>, env: Env) {
    |descs| == |layers| && forall i :: 0 <= i < |layers| ==> Known(layers[i], env) && descs[i] == DescriptorOf(layers[i], env)
  }

  /** Plain addenda override nothing. */
  lemma {:induction false} PlainDescriptors(adds: seq<Addendum>, env: Env)
    requires WellPaired(adds) && AllKnown(adds, env)
    ensures DescribesLayers(AddedDescriptors(adds, env), AddedLayers(adds), env)
  {
    if adds != [] {
      PlainDescriptors(adds[..|adds| - 1], env);
      var a := adds[|adds| - 1];
      assert a in adds && a == Plain(a.layer, a.history);
    }
  }

  lemma DescribesBoth(descs: seq<Descriptor>, layers: seq<Layer>, more: seq<Descriptor>, others: seq<Layer>, env: Env)
    requires DescribesLayers(descs, layers, env) && DescribesLayers(more, others, env)
    ensures DescribesLayers(descs + more, layers + others, env)
  {
  }

  /** All that is added is known and described by itself. */
  lemma SplicedAdds(orig: Source, oldBase: Source, newBase: Source, env: Env)
    requires BasedOn(orig, oldBase, env) && Matched(orig, env) && Matched(newBase, env)
    ensures var below := Paired(newBase.config.history, newBase.layers);
            && AllKnown(below, env) && DescribesLayers(AddedDescriptors(below, env), AddedLayers(below), env)
            && AddedLayers(below) == newBase.layers && AddedHistory(below) == newBase.config.history
    ensures var above := Kept(|oldBase.config.history|, |oldBase.layers| + 1, orig.config.history, orig.layers, |orig.config.history|);
            AllKnown(above, env) && DescribesLayers(AddedDescriptors(above, env), AddedLayers(above), env)
  {
    var history, start, cut := orig.config.history, |oldBase.config.history|, |oldBase.layers|;
    assert NonEmpty(newBase.config.history) == |newBase.layers| && NonEmpty(history) == |orig.layers|;
    hide Pair, Paired, Kept, AddedLayers, AddedHistory, AllKnown, NonEmpty, BasedOn, Matched, WellPaired, AddedDescriptors, DescribesLayers;
    PairedLayers(newBase.config.history, newBase.layers);
    KeptKnown(0, 0, newBase, env, |newBase.config.history|);
    KeptKnown(start, cut + 1, orig, env, |history|);
    KeptIsWellPaired(0, 0, newBase.config.history, newBase.layers, |newBase.config.history|);
    KeptIsWellPaired(start, cut + 1, history, orig.layers, |history|);
    PlainDescriptors(Paired(newBase.config.history, newBase.layers), env);
    PlainDescriptors(Kept(start, cut + 1, history, orig.layers, |history|), env);
  }

  /** Rebasing gives the new base's layers and history with the original's on top: the layers
      are right exactly when the old base's history does not end below the old base's layers
      in the original, the history exactly when it does not end above them.  When it ends
      right there, every layer of the result has the history entry it had before. */
  lemma RebaseSplices(c: Codec, orig: Source, oldBase: Source, newBase: Source, env: Env)
    requires BasedOn(orig, oldBase, env) && Matched(orig, env) && Matched(newBase, env)
    ensures var ops, leaf := RebasedOps(orig, oldBase, newBase), EmptyLeaf(c);
            && Eval(c, leaf, ops, env).Some?
            && var v, layers := Eval(c, leaf, ops, env).value, Expected(leaf, ops);
               && Aligned(v, layers, env)
               && SettingsOf(v.config.settings, orig, newBase)
               && Spliced(v.config.history, layers, orig, oldBase, newBase)
               && v.manifest.mediaType == DOCKER_MANIFEST && DescribesLayers(v.manifest.layers, layers, env)
  {
    var below := Paired(newBase.config.history, newBase.layers);
    var above := Kept(|oldBase.config.history|, |oldBase.layers| + 1, orig.config.history, orig.layers, |orig.config.history|);
    hide Eval, Paired, Kept, AddedLayers, AddedHistory, AllKnown, NonEmpty, Cut, BasedOn, Aligned, Wrappers,
         Expected, SettingsOf, Spliced, EmptyLeaf, AddedDescriptors;
    hide DescribesLayers, DescriptorOf;
    SplicedAdds(orig, oldBase, newBase, env);
    DescribesBoth(AddedDescriptors(below, env), AddedLayers(below), AddedDescriptors(above, env), AddedLayers(above), env);
    WrappersMean(c, orig, newBase, below, above, env);
    SplicedWhenAdded(orig, oldBase, newBase, env);
  }

  lemma SplicedWhenAdded(orig: Source, oldBase: Source, newBase: Source, env: Env)
    requires BasedOn(orig, oldBase, env) && Matched(orig, env) && Matched(newBase, env)
    ensures var above := Kept(|oldBase.config.history|, |oldBase.layers| + 1, orig.config.history, orig.layers,
                              |orig.config.history|);
            Spliced(newBase.config.history + AddedHistory(above), newBase.layers + AddedLayers(above),
                    orig, oldBase, newBase)
  {
    var history, start, cut := orig.config.history, |oldBase.config.history|, |oldBase.layers|;
    var below := Paired(newBase.config.history, newBase.layers);
    var above := Kept(start, cut + 1, history, orig.layers, |history|);
    PairedLayers(newBase.config.history, newBase.layers);
    KeptIsWellPaired(0, 0, newBase.config.history, newBase.layers, |newBase.config.history|);
    KeptIsWellPaired(start, cut + 1, history, orig.layers, |history|);
    hide Paired, Kept, AddedLayers, AddedHistory, AllKnown, NonEmpty, Cut;
    CutIsExact(start, cut, history, orig.layers);
    SpliceIff(newBase.layers, AddedLayers(above), orig.layers[cut..]);
    SpliceIff(newBase.config.history, AddedHistory(above), if start <= |history| then history[start..] else []);
    BothAdded(below, above);
    PairsAgain(below + above);
  }

  lemma SpliceIff<T>(first: seq<T>, a: seq<T>, b: seq<T>)
    ensures first + a == first + b <==> a == b
  {
    assert (first + a)[|first|..] == a && (first + b)[|first|..] == b;
  }

  lemma {:induction false} BothAdded(a: seq<Addendum>, b: seq<Addendum>)
    ensures AddedLayers(a + b) == AddedLayers(a) + AddedLayers(b)
    ensures AddedHistory(a + b) == AddedHistory(a) + AddedHistory(b)
  {
    if b == [] {
      assert a + b == a;
    } else {
      assert (a + b)[..|a + b| - 1] == a + b[..|b| - 1];
      BothAdded(a, b[..|b| - 1]);
    }
  }

  /** On matched images the method builds exactly these wrappers: nothing is left over, and
      mutate.Append refuses none of the addenda. */
  lemma MatchedRebaseIsClean(orig: Source, oldBase: Source, newBase: Source, env: Env)
    requires Matched(orig, env) && Matched(newBase, env)
    ensures var newHistory, history := newBase.config.history, orig.config.history;
            var below := Kept(0, 0, newHistory, newBase.layers, |newHistory|)
                         + Leftover(0, newBase.layers, NonEmpty(newHistory), |newBase.layers|);
            var above := Kept(|oldBase.config.history|, |oldBase.layers| + 1, history, orig.layers, |history|)
                         + Leftover(|oldBase.layers| + 1, orig.layers, NonEmpty(history), |orig.layers|);
            && Valid(below) && Valid(above)
            && Wrappers(orig, newBase, below, above) == RebasedOps(orig, oldBase, newBase)
  {
    PairedLayers(newBase.config.history, newBase.layers);
    CleanAddendums(0, 0, newBase, env);
    CleanAddendums(|oldBase.config.history|, |oldBase.layers| + 1, orig, env);
    hide Paired, Kept, Leftover, NonEmpty, AddedLayers, AddedHistory, Wrappers, Valid;
  }

  lemma CleanAddendums(startHistory: nat, startLayer: nat, s: Source, env: Env)
    requires Matched(s, env)
    ensures var kept := Kept(startHistory, startLayer, s.config.history, s.layers, |s.config.history|);
            kept + Leftover(startLayer, s.layers, NonEmpty(s.config.history), |s.layers|) == kept && Valid(kept)
  {
    KeptIsWellPaired(startHistory, startLayer, s.config.history, s.layers, |s.config.history|);
    assert Leftover(startLayer, s.layers, |s.layers|, |s.layers|) == [];
  }

  /** An old base without any history stays in: the result has all of the original's layers. */
  lemma OldBaseWithoutHistoryStays(c: Codec, orig: Source, oldBase: Source, newBase: Source, env: Env)
    requires BasedOn(orig, oldBase, env) && Matched(orig, env) && Matched(newBase, env)
    requires oldBase.config.history == []
    ensures Expected(EmptyLeaf(c), RebasedOps(orig, oldBase, newBase)) == newBase.layers + orig.layers
  {
    var below := Paired(newBase.config.history, newBase.layers);
    var above := Kept(0, |oldBase.layers| + 1, orig.config.history, orig.layers, |orig.config.history|);
    NewBaseIsTaken(newBase, env);
    NothingIsCut(orig, |oldBase.layers|, env);
    hide *;
    UncutOps(orig, oldBase, newBase, env);
    WrappersMean(c, orig, newBase, below, above, env);
  }

  lemma UncutOps(orig: Source, oldBase: Source, newBase: Source, env: Env)
    requires oldBase.config.history == [] && Matched(orig, env) && Matched(newBase, env)
    ensures RebasedOps(orig, oldBase, newBase) ==
            Wrappers(orig, newBase, Paired(newBase.config.history, newBase.layers),
                     Kept(0, |oldBase.layers| + 1, orig.config.history, orig.layers, |orig.config.history|))
  {
  }

  lemma NewBaseIsTaken(newBase: Source, env: Env)
    requires Matched(newBase, env)
    ensures var below := Paired(newBase.config.history, newBase.layers);
            AddedLayers(below) == newBase.layers && AllKnown(below, env)
  {
    PairedLayers(newBase.config.history, newBase.layers);
    KeptKnown(0, 0, newBase, env, |newBase.config.history|);
    hide Kept, Paired, AddedLayers, AllKnown, NonEmpty;
  }

  /** With no history to start from, nothing of the original is cut. */
  lemma NothingIsCut(orig: Source, cut: nat, env: Env)
    requires Matched(orig, env)
    ensures var above := Kept(0, cut + 1, orig.config.history, orig.layers, |orig.config.history|);
            AddedLayers(above) == orig.layers && AllKnown(above, env)
  {
    var history := orig.config.history;
    KeptKnown(0, cut + 1, orig, env, |history|);
    assert history[..0] == [] && history[..|history|] == history;
    assert Cut(0, history) == 0 && NonEmpty(history) == |orig.layers|;
    assert Slice(orig.layers, 0, |orig.layers|) == orig.layers;
    hide Kept, AddedLayers, AllKnown, Cut, NonEmpty, Matched;
    KeptLayers(0, cut, history, orig.layers, |history|);
  }

  /** What Layers() of the rebased image returns: at each position a layer with that position's
      diff ID, and the layers that RebaseSplices speaks of exactly when equal diff IDs come with
      equal digests. */
  lemma RebasedLayersAreListed(c: Codec, orig: Source, oldBase: Source, newBase: Source, env: Env)
    requires BasedOn(orig, oldBase, env) && Matched(orig, env) && Matched(newBase, env)
    ensures var ops, leaf := RebasedOps(orig, oldBase, newBase), EmptyLeaf(c);
            && Eval(c, leaf, ops, env).Some? && AllOpsKnown(ops, env)
            && var v, found := Eval(c, leaf, ops, env).value, Listing(c, leaf, ops, env);
               && found.0 && |found.1| == |Expected(leaf, ops)|
               && (forall i :: 0 <= i < |found.1| ==> LooksUp(leaf, ops, env, v, found.1, i))
               && (forall l :: l in Expected(leaf, ops) ==> Known(l, env))
               && (ListsManifestLayers(v, found, env) <==> DiffIDDeterminesDigest(Expected(leaf, ops), env))
  {
    var below := Paired(newBase.config.history, newBase.layers);
    var above := Kept(|oldBase.config.history|, |oldBase.layers| + 1, orig.config.history, orig.layers, |orig.config.history|);
    PairedLayers(newBase.config.history, newBase.layers);
    KeptKnown(0, 0, newBase, env, |newBase.config.history|);
    KeptKnown(|oldBase.config.history|, |oldBase.layers| + 1, orig, env, |orig.config.history|);
    assert Aligned(EmptyLeaf(c).view, EmptyLeaf(c).layers, env);
    assert RebasedOps(orig, oldBase, newBase) == Wrappers(orig, newBase, below, above);
    assert Wrappers(orig, newBase, below, above) != [];
    hide *;
    WrappersMean(c, orig, newBase, below, above, env);
    ListingLooksUp(c, EmptyLeaf(c), Wrappers(orig, newBase, below, above), env);
    ListedLayersMatch(c, EmptyLeaf(c), Wrappers(orig, newBase, below, above), env);
  }

}
