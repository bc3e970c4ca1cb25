/** Streaming layers (pkg/v1/stream/layer.go): digest, diff ID and size are unknown until a
    reader of the stream has been closed, by its copying goroutine or by its consumer. */
module Streams {
  import opened Common

  type Hash = string

  /** `hash` is SHA-256.  `zip` gives what comes out of gzip for the bytes written to it before
      and after it was closed.  `refuses` says whether gzip refuses a write after it was closed;
      if it does, it also reports that error from every later Close. */
  datatype Codec = Codec(hash: Bytes -> Hash, zip: (Bytes, Bytes) -> Bytes, refuses: bool)

  datatype Error = NotComputed | Consumed | CloseFailed

  datatype Facts = Facts(digest: Hash, diffID: Hash, size: nat)

  // ---------------------------------------------------------------- one reader

  /** `fed` went into the hash of the uncompressed bytes, `zipped` into gzip before it was closed
      and `late` after that; `failed` says that gzip can no longer be closed without an error,
      `ended` that the copying goroutine is over. */
  datatype ReaderState = ReaderState(fed: Bytes, zipped: Bytes, late: Bytes, closed: bool, failed: bool, ended: bool)

  const OPENED := ReaderState([], [], [], false, false, false)

  /** The goroutine copies a chunk, fails to read, or reaches the end and closes; the consumer
      closes.  `ok` says that the underlying stream can be closed. */
  datatype Act = Copy(chunk: Bytes) | Break | Eof(ok: bool) | Close(ok: bool)

  function FactsOf(c: Codec, x: ReaderState): Facts {
    var z := c.zip(x.zipped, x.late);
    Facts(c.hash(z), c.hash(x.fed), |z|)
  }

  /** The reader after a Close, and the facts if it succeeds. */
  function Closing(c: Codec, x: ReaderState, ok: bool): (ReaderState, Option<Facts>) {
    if x.failed then (x, None)
    else (x.(closed := true), if ok then Some(FactsOf(c, x)) else None)
  }

  /** A chunk goes to the hash first and then to gzip.  A failed copy breaks the pipe that gzip
      writes to, so that closing gzip for the first time fails. */
  function ActOn(c: Codec, x: ReaderState, a: Act): (ReaderState, Option<Facts>) {
    match a
    case Copy(chunk) =>
      if x.ended then (x, None)
      else if !x.closed then (x.(fed := x.fed + chunk, zipped := x.zipped + chunk), None)
      else if c.refuses then (x.(fed := x.fed + chunk, failed := true, ended := true), None)
      else (x.(fed := x.fed + chunk, late := x.late + chunk), None)
    case Break => if x.ended then (x, None) else (x.(ended := true, failed := x.failed || !x.closed), None)
    case Eof(ok) =>
      if x.ended then (x, None)
      else
        var (y, facts) := Closing(c, x, ok);
        (y.(ended := true), facts)
    case Close(ok) => Closing(c, x, ok)
  }

  // ---------------------------------------------------------------- a layer and all its readers

  datatype Event = Open | On(reader: nat, act: Act)

  datatype Stream = Stream(consumed: bool, facts: Option<Facts>, readers: seq<ReaderState>)

  const UNREAD := Stream(false, None, [])

  function Next(c: Codec, s: Stream, e: Event): Stream {
    match e
    case Open => if s.consumed then s else s.(readers := s.readers + [OPENED])
    case On(r, a) =>
      if r >= |s.readers| then s
      else
        var (x, facts) := ActOn(c, s.readers[r], a);
        Stream(s.consumed || facts.Some?, if facts.Some? then facts else s.facts, s.readers[r := x])
  }

  function After(c: Codec, run: seq<Event>): Stream {
    if run == [] then UNREAD else Next(c, After(c, run[..|run| - 1]), run[|run| - 1])
  }

  class Layer {
    var consumed: bool
    var digest: Option<Hash>
    var diffID: Option<Hash>
    var size: nat

    /** Digest, diff ID and size appear together; a gzip stream is never empty. */
    predicate Consistent()
      reads this
    {
      (digest.Some? <==> diffID.Some?) && (digest.Some? <==> size != 0)
    }

    /** What the three accessors answer, if they do. */
    function Known(): Option<Facts>
      reads this
    {
      if digest.Some? && diffID.Some? then Some(Facts(digest.value, diffID.value, size)) else None
    }

    constructor ()
      ensures !consumed && Known() == None && Consistent()
    {
      consumed, digest, diffID, size := false, None, None, 0;
    }

    method Digest() returns (r: Result<Hash, Error>)
      ensures r == if digest.Some? then Success(digest.value) else Failure(NotComputed)
    {
      return if digest.None? then Failure(NotComputed) else Success(digest.value);
    }

    method DiffID() returns (r: Result<Hash, Error>)
      ensures r == if diffID.Some? then Success(diffID.value) else Failure(NotComputed)
    {
      return if diffID.None? then Failure(NotComputed) else Success(diffID.value);
    }

    method Size() returns (r: Result<nat, Error>)
      ensures r == if size != 0 then Success(size) else Failure(NotComputed)
    {
      return if size == 0 then Failure(NotComputed) else Success(size);
    }

    /** Opens the compressed stream, which works until it has been consumed. */
    method Compressed() returns (r: Result<Reader, Error>)
      ensures r.Failure? <==> consumed
      ensures r.Failure? ==> r.error == Consumed
      ensures r.Success? ==> fresh(r.value) && r.value.layer == this && r.value.State() == OPENED
    {
      if consumed {
        return Failure(Consumed);
      }
      var reader := new Reader(this);
      return Success(reader);
    }
  }

  class Reader {
    const layer: Layer
    var fed: Bytes
    var zipped: Bytes
    var late: Bytes
    var closed: bool
    var failed: bool
    var ended: bool

    function State(): ReaderState
      reads this
    {
      ReaderState(fed, zipped, late, closed, failed, ended)
    }

    constructor (l: Layer)
      ensures layer == l && State() == OPENED
    {
      layer := l;
      fed, zipped, late := [], [], [];
      closed, failed, ended := false, false, false;
    }

    /** compressedReader.Close: on an error the layer is left alone. */
    method CloseReader(c: Codec, ok: bool) returns (r: Result<(), Error>)
      modifies this`closed, layer
      ensures State() == Closing(c, old(State()), ok).0
      ensures r.Success? <==> Closing(c, old(State()), ok).1.Some?
      ensures r.Failure? ==> unchanged(layer)
      ensures r.Success? ==> layer.consumed && layer.Known() == Closing(c, old(State()), ok).1
                             && layer.size == |c.zip(zipped, late)|
    {
      if failed {
        return Failure(CloseFailed);
      }
      closed := true;
      if !ok {
        return Failure(CloseFailed);
      }
      layer.diffID := Some(c.hash(fed));
      var z := c.zip(zipped, late);
      layer.digest := Some(c.hash(z));
      layer.size := |z|;
      layer.consumed := true;
      return Success(());
    }

    /** One act of the copying goroutine or of the consumer, whatever other readers have done. */
    method Handle(c: Codec, a: Act)
      modifies this, layer
      ensures State() == ActOn(c, old(State()), a).0
      ensures var facts := ActOn(c, old(State()), a).1;
              if facts.Some? then layer.consumed && layer.Known() == facts && layer.size == facts.value.size
              else unchanged(layer)
    {
      match a
      case Copy(chunk) =>
        if !ended {
          fed := fed + chunk;
          if !closed {
            zipped := zipped + chunk;
          } else if c.refuses {
            failed, ended := true, true;
          } else {
            late := late + chunk;
          }
        }
      case Break =>
        if !ended {
          ended, failed := true, failed || !closed;
        }
      case Eof(ok) =>
        if !ended {
          var _ := CloseReader(c, ok);
          ended := true;
        }
      case Close(ok) =>
        var _ := CloseReader(c, ok);
    }
  }

  /** A layer with all the readers it has handed out. */
  class Session {
    const layer: Layer
    var readers: seq<Reader>

    ghost predicate Valid()
      reads this, layer, readers
    {
      && (forall i :: 0 <= i < |readers| ==> readers[i].layer == layer)
      && (forall i, j :: 0 <= i < j < |readers| ==> readers[i] != readers[j])
      && layer.Consistent()
    }

    function State(): Stream
      reads this, layer, readers
    {
      Stream(layer.consumed, layer.Known(), seq(|readers|, i requires 0 <= i < |readers| reads this, readers => readers[i].State()))
    }

    constructor ()
      ensures Valid() && State() == UNREAD && fresh(layer)
    {
      layer := new Layer();
      readers := [];
    }

    method Do(c: Codec, e: Event)
      requires Valid()
      requires forall x, y :: |c.zip(x, y)| > 0
      modifies this, layer, readers
      ensures Valid() && State() == Next(c, old(State()), e)
      ensures fresh(set r | r in readers && r !in old(readers))
    {
      match e
      case Open =>
        var r := layer.Compressed();
        if r.Success? {
          readers := readers + [r.value];
        }
      case On(k, a) =>
        if k < |readers| {
          readers[k].Handle(c, a);
        }
    }
  }

  // ---------------------------------------------------------------- when the facts stay

  function At(c: Codec, run: seq<Event>, n: nat): Stream
    requires n <= |run|
  {
    After(c, run[..n])
  }

  lemma AtNext(c: Codec, run: seq<Event>, n: nat)
    requires n < |run|
    ensures At(c, run, n + 1) == Next(c, At(c, run, n), run[n])
  {
    assert run[..n + 1][..n] == run[..n];
  }

  /** What reader `r` has been fed, if it has been opened. */
  function ReaderAt(c: Codec, run: seq<Event>, n: nat, r: nat): ReaderState
    requires n <= |run|
  {
    if r < |At(c, run, n).readers| then At(c, run, n).readers[r] else OPENED
  }

  /** Event `n` is an act of reader `r`. */
  predicate ActsAt(c: Codec, run: seq<Event>, n: nat, r: nat) {
    n < |run| && run[n].On? && run[n].reader == r && r < |At(c, run, n).readers|
  }

  /** At event `n` the goroutine of reader `r` copies a chunk. */
  predicate CopiesAt(c: Codec, run: seq<Event>, n: nat, r: nat) {
    ActsAt(c, run, n, r) && run[n].act.Copy? && !ReaderAt(c, run, n, r).ended
  }

  /** At event `n` reader `r` is closed and sets the layer's facts. */
  predicate ClosesAt(c: Codec, run: seq<Event>, n: nat, r: nat) {
    ActsAt(c, run, n, r) && ActOn(c, ReaderAt(c, run, n, r), run[n].act).1.Some?
  }

  lemma ReaderNext(c: Codec, run: seq<Event>, n: nat, r: nat)
    requires n < |run|
    ensures ReaderAt(c, run, n + 1, r) ==
            if ActsAt(c, run, n, r) then ActOn(c, ReaderAt(c, run, n, r), run[n].act).0 else ReaderAt(c, run, n, r)
    ensures ClosesAt(c, run, n, r) ==> At(c, run, n + 1).facts == Some(FactsOf(c, ReaderAt(c, run, n, r)))
    ensures (forall q :: !ClosesAt(c, run, n, q)) ==> At(c, run, n + 1).facts == At(c, run, n).facts
  {
    AtNext(c, run, n);
    if run[n].On? {
      assert ClosesAt(c, run, n, run[n].reader) || !ClosesAt(c, run, n, run[n].reader);
    }
    hide After;
  }

  /** Once available, the layer's facts never change. */
  ghost predicate FactsStay(c: Codec, run: seq<Event>) {
    forall m, n :: 0 <= m <= n <= |run| && At(c, run, m).facts.Some? ==> At(c, run, n).facts == At(c, run, m).facts
  }

  /** Two closes have the same copies behind them: they are of one reader whose goroutine has
      copied nothing in between, or of two readers neither of which has copied anything. */
  ghost predicate SameCopies(c: Codec, run: seq<Event>, i: nat, r: nat, j: nat, q: nat) {
    if r == q then forall k :: i < k < j ==> !CopiesAt(c, run, k, r)
    else && (forall k :: 0 <= k < i ==> !CopiesAt(c, run, k, r))
         && (forall k :: 0 <= k < j ==> !CopiesAt(c, run, k, q))
  }

  /** All closes of the run have the same copies behind them.  The contents of the chunks do not
      matter. */
  ghost predicate Safe(c: Codec, run: seq<Event>) {
    forall i, r, j, q :: 0 <= i < j && ClosesAt(c, run, i, r) && ClosesAt(c, run, j, q) ==> SameCopies(c, run, i, r, j, q)
  }

  predicate SameData(x: ReaderState, y: ReaderState) { x.fed == y.fed && x.zipped == y.zipped && x.late == y.late }

  lemma {:induction false} DataStays(c: Codec, run: seq<Event>, m: nat, n: nat, r: nat)
    requires m <= n <= |run|
    requires forall k :: m <= k < n ==> !CopiesAt(c, run, k, r)
    ensures SameData(ReaderAt(c, run, m, r), ReaderAt(c, run, n, r))
  {
    if m < n {
      DataStays(c, run, m, n - 1, r);
      ReaderNext(c, run, n - 1, r);
      assert !CopiesAt(c, run, n - 1, r);
      hide ReaderAt, At;
    }
  }

  lemma SameCopiesSameFacts(c: Codec, run: seq<Event>, i: nat, r: nat, j: nat, q: nat)
    requires i < j && ClosesAt(c, run, i, r) && ClosesAt(c, run, j, q) && SameCopies(c, run, i, r, j, q)
    ensures FactsOf(c, ReaderAt(c, run, i, r)) == FactsOf(c, ReaderAt(c, run, j, q))
  {
    if r == q {
      assert !CopiesAt(c, run, i, r);
      DataStays(c, run, i, j, r);
    } else {
      DataStays(c, run, 0, i, r);
      DataStays(c, run, 0, j, q);
    }
    hide At;
  }

  /** The facts are those of the last close. */
  lemma {:induction false} FactsHaveASource(c: Codec, run: seq<Event>, n: nat) returns (i: nat, r: nat)
    requires n <= |run| && At(c, run, n).facts.Some?
    ensures i < n && ClosesAt(c, run, i, r)
    ensures At(c, run, n).facts == Some(FactsOf(c, ReaderAt(c, run, i, r)))
  {
    NoFactsYet(c, run);
    hide FactsOf, After, ActOn, ReaderAt, ClosesAt, At;
    i := n - 1;
    if q: nat :| ClosesAt(c, run, i, q) {
      ReaderNext(c, run, i, q);
      r := q;
    } else {
      ReaderNext(c, run, i, 0);
      i, r := FactsHaveASource(c, run, i);
    }
  }

  lemma NoFactsYet(c: Codec, run: seq<Event>)
    ensures At(c, run, 0) == UNREAD
  {
  }

  lemma SafeFactsStay(c: Codec, run: seq<Event>)
    requires Safe(c, run)
    ensures FactsStay(c, run)
  {
    hide FactsOf, ClosesAt, SameCopies, ReaderAt, After, At;
    forall m, n | 0 <= m <= n <= |run| && At(c, run, m).facts.Some? && At(c, run, n).facts.Some?
      ensures At(c, run, n).facts == At(c, run, m).facts
    {
      var i, r := FactsHaveASource(c, run, m);
      var j, q := FactsHaveASource(c, run, n);
      if i < j {
        SameCopiesSameFacts(c, run, i, r, j, q);
      } else if j < i {
        SameCopiesSameFacts(c, run, j, q, i, r);
      } else {
        OneActor(c, run, i, r, q);
      }
    }
    forall m, n | 0 <= m <= n <= |run| && At(c, run, m).facts.Some?
      ensures At(c, run, n).facts.Some?
    {
      FactsRemain(c, run, m, n);
    }
  }

  lemma OneActor(c: Codec, run: seq<Event>, i: nat, r: nat, q: nat)
    requires ClosesAt(c, run, i, r) && ClosesAt(c, run, i, q)
    ensures r == q
  {
  }

  lemma {:induction false} FactsRemain(c: Codec, run: seq<Event>, m: nat, n: nat)
    requires m <= n <= |run| && At(c, run, m).facts.Some?
    ensures At(c, run, n).facts.Some?
  {
    if m < n {
      FactsRemain(c, run, m, n - 1);
      AtNext(c, run, n - 1);
    }
  }

  // Only then: other chunks in the same order of events tell two closes apart.

  /** The run with other chunks. */
  function Fill(run: seq<Event>, data: nat -> Bytes): (filled: seq<Event>)
    ensures |filled| == |run|
    ensures forall k :: 0 <= k < |run| ==>
      filled[k] == if run[k].On? && run[k].act.Copy? then On(run[k].reader, Copy(data(k))) else run[k]
  {
    seq(|run|, k requires 0 <= k < |run| =>
      if run[k].On? && run[k].act.Copy? then On(run[k].reader, Copy(data(k))) else run[k])
  }

  predicate SameFlags(x: ReaderState, y: ReaderState) {
    x.closed == y.closed && x.failed == y.failed && x.ended == y.ended
  }

  predicate SameShape(s: Stream, t: Stream) {
    && s.consumed == t.consumed && s.facts.Some? == t.facts.Some? && |s.readers| == |t.readers|
    && forall r :: 0 <= r < |s.readers| ==> SameFlags(s.readers[r], t.readers[r])
  }

  predicate SameForm(e: Event, f: Event) {
    match e
    case Open => f.Open?
    case On(r, a) => f.On? && f.reader == r && if a.Copy? then f.act.Copy? else f.act == a
  }

  lemma ShapeNext(c: Codec, s: Stream, t: Stream, e: Event, f: Event)
    requires SameShape(s, t) && SameForm(e, f)
    ensures SameShape(Next(c, s, e), Next(c, t, f))
  {
    if e.On? && e.reader < |s.readers| {
      ActForm(c, s.readers[e.reader], t.readers[e.reader], e.act, f.act);
    }
    hide ActOn, SameFlags;
  }

  lemma ActForm(c: Codec, x: ReaderState, y: ReaderState, a: Act, b: Act)
    requires SameFlags(x, y) && if a.Copy? then b.Copy? else a == b
    ensures SameFlags(ActOn(c, x, a).0, ActOn(c, y, b).0) && ActOn(c, x, a).1.Some? == ActOn(c, y, b).1.Some?
  {
    hide FactsOf;
  }

  /** What an act does to a reader, but for the bytes that went into gzip. */
  lemma ActEffect(c: Codec, x: ReaderState, a: Act)
    ensures var (y, facts) := ActOn(c, x, a);
      && y.fed == x.fed + (if a.Copy? && !x.ended then a.chunk else [])
      && (x.ended ==> y.ended) && (x.closed ==> y.closed) && (x.failed ==> y.failed)
      && (facts.Some? ==> y.closed && !x.failed && (a.Eof? ==> y.ended))
      && (c.refuses && x.closed && a.Copy? && !x.ended ==> y.failed)
  {
    hide FactsOf;
    assert x.fed + [] == x.fed;
  }

  lemma {:induction false} ShapeStays(c: Codec, run: seq<Event>, data: nat -> Bytes, n: nat)
    requires n <= |run|
    ensures SameShape(At(c, run, n), At(c, Fill(run, data), n))
  {
    if n > 0 {
      ShapeStays(c, run, data, n - 1);
      AtNext(c, run, n - 1);
      AtNext(c, Fill(run, data), n - 1);
      ShapeNext(c, At(c, run, n - 1), At(c, Fill(run, data), n - 1), run[n - 1], Fill(run, data)[n - 1]);
      hide At, Next, SameShape;
    }
  }

  lemma FillActs(c: Codec, run: seq<Event>, data: nat -> Bytes, n: nat, r: nat)
    ensures ClosesAt(c, run, n, r) <==> ClosesAt(c, Fill(run, data), n, r)
    ensures CopiesAt(c, run, n, r) <==> CopiesAt(c, Fill(run, data), n, r)
  {
    if n < |run| {
      ShapeStays(c, run, data, n);
    }
    hide At;
  }

  lemma FedNext(c: Codec, run: seq<Event>, n: nat, r: nat)
    requires n < |run|
    ensures CopiesAt(c, run, n, r) ==> run[n].On? && run[n].act.Copy?
    ensures ReaderAt(c, run, n + 1, r).fed ==
            if CopiesAt(c, run, n, r) then ReaderAt(c, run, n, r).fed + run[n].act.chunk else ReaderAt(c, run, n, r).fed
  {
    ReaderNext(c, run, n, r);
    if run[n].On? {
      ActEffect(c, ReaderAt(c, run, n, r), run[n].act);
    }
    hide At, ReaderAt, ActOn, FactsOf;
  }

  /** With a single byte in the whole run, a reader has been fed it or nothing. */
  lemma {:induction false} FedByte(c: Codec, run: seq<Event>, k: nat, n: nat, r: nat)
    requires k < |run| && n <= |run|
    requires forall i :: 0 <= i < |run| && run[i].On? && run[i].act.Copy? ==> run[i].act.chunk == if i == k then [0] else []
    ensures ReaderAt(c, run, n, r).fed == if k < n && CopiesAt(c, run, k, r) then [0] else []
  {
    if n > 0 {
      FedByte(c, run, k, n - 1, r);
      FedNext(c, run, n - 1, r);
      hide *;
    }
  }

  lemma UnsafeFactsChange(c: Codec, run: seq<Event>, i: nat, r: nat, j: nat, q: nat) returns (k: nat)
    requires Injective(c.hash)
    requires i < j && ClosesAt(c, run, i, r) && ClosesAt(c, run, j, q) && !SameCopies(c, run, i, r, j, q)
    ensures !FactsStay(c, Fill(run, p => if p == k then [0] else []))
  {
    k := if r == q then var k :| i < k < j && CopiesAt(c, run, k, r); k
         else if k :| 0 <= k < i && CopiesAt(c, run, k, r) then k
         else var k :| 0 <= k < j && CopiesAt(c, run, k, q); k;
    var filled := Fill(run, p => if p == k then [0] else []);
    FillActs(c, run, p => if p == k then [0] else [], i, r);
    FillActs(c, run, p => if p == k then [0] else [], j, q);
    FillActs(c, run, p => if p == k then [0] else [], k, r);
    FillActs(c, run, p => if p == k then [0] else [], k, q);
    hide At, ReaderAt, ClosesAt, FactsStay;
    FedByte(c, filled, k, i, r);
    FedByte(c, filled, k, j, q);
    assert run[k].reader == r || run[k].reader == q;
    DifferentFactsChange(c, filled, i, r, j, q);
  }

  lemma DifferentFactsChange(c: Codec, run: seq<Event>, i: nat, r: nat, j: nat, q: nat)
    requires Injective(c.hash)
    requires i < j && ClosesAt(c, run, i, r) && ClosesAt(c, run, j, q)
    requires ReaderAt(c, run, i, r).fed != ReaderAt(c, run, j, q).fed
    ensures !FactsStay(c, run)
  {
    ReaderNext(c, run, i, r);
    ReaderNext(c, run, j, q);
    hide At, ReaderAt, ClosesAt;
    assert At(c, run, i + 1).facts != At(c, run, j + 1).facts;
  }

  /** For any number of readers of one layer and any order of events: digest, diff ID and size
      never change once available, whatever the stream contains, exactly when all successful
      closes have the same copies behind them. */
  lemma FactsStayIffSafe(c: Codec, run: seq<Event>)
    requires Injective(c.hash)
    ensures Safe(c, run) <==> forall data: nat -> Bytes :: FactsStay(c, Fill(run, data))
  {
    if Safe(c, run) {
      forall data: nat -> Bytes
        ensures FactsStay(c, Fill(run, data))
      {
        FillIsSafe(c, run, data);
        SafeFactsStay(c, Fill(run, data));
      }
    } else {
      var i, r, j, q :| 0 <= i < j && ClosesAt(c, run, i, r) && ClosesAt(c, run, j, q) && !SameCopies(c, run, i, r, j, q);
      var k := UnsafeFactsChange(c, run, i, r, j, q);
      assert !FactsStay(c, Fill(run, p => if p == k then [0] else []));
    }
  }

  lemma FillIsSafe(c: Codec, run: seq<Event>, data: nat -> Bytes)
    requires Safe(c, run)
    ensures Safe(c, Fill(run, data))
  {
    hide ClosesAt, CopiesAt;
    forall n, r
      ensures ClosesAt(c, run, n, r) <==> ClosesAt(c, Fill(run, data), n, r)
      ensures CopiesAt(c, run, n, r) <==> CopiesAt(c, Fill(run, data), n, r)
    {
      FillActs(c, run, data, n, r);
    }
  }

  // ---------------------------------------------------------------- readers as they are used

  /** Reader `r` has been closed, the layer consumed, and no more readers are opened. */
  predicate Settled(s: Stream, r: nat, readers: nat) {
    s.consumed && |s.readers| == readers && r < readers && s.readers[r].closed
  }

  lemma CloseSettles(c: Codec, run: seq<Event>, i: nat, r: nat)
    requires ClosesAt(c, run, i, r)
    ensures Settled(At(c, run, i + 1), r, |At(c, run, i).readers|)
    ensures run[i].act.Eof? ==> At(c, run, i + 1).readers[r].ended
  {
    ReaderNext(c, run, i, r);
    ReadersSettle(c, run, i);
    ActEffect(c, ReaderAt(c, run, i, r), run[i].act);
    hide At, ActOn, FactsOf;
  }

  lemma SettledStays(c: Codec, run: seq<Event>, n: nat, r: nat, readers: nat)
    requires n < |run| && Settled(At(c, run, n), r, readers)
    ensures Settled(At(c, run, n + 1), r, readers)
    ensures var x, y := At(c, run, n).readers[r], At(c, run, n + 1).readers[r];
      && (x.ended ==> y.ended) && (x.failed ==> y.failed) && (c.refuses && CopiesAt(c, run, n, r) ==> y.failed)
  {
    ReaderNext(c, run, n, r);
    ReadersSettle(c, run, n);
    if run[n].On? {
      ActEffect(c, ReaderAt(c, run, n, r), run[n].act);
    }
    hide At, ActOn, FactsOf;
  }

  lemma {:induction false} AfterFirstClose(c: Codec, run: seq<Event>, i: nat, n: nat, r: nat)
    requires ClosesAt(c, run, i, r) && i < n <= |run|
    ensures Settled(At(c, run, n), r, |At(c, run, i).readers|)
    ensures run[i].act.Eof? ==> At(c, run, n).readers[r].ended
    ensures c.refuses && (exists k :: i < k < n && CopiesAt(c, run, k, r)) ==> At(c, run, n).readers[r].failed
  {
    if i == n - 1 {
      CloseSettles(c, run, i, r);
    } else {
      AfterFirstClose(c, run, i, n - 1, r);
      SettledStays(c, run, n - 1, r, |At(c, run, i).readers|);
    }
    hide At, CopiesAt, ClosesAt;
  }

  lemma ReadersSettle(c: Codec, run: seq<Event>, n: nat)
    requires n < |run|
    ensures At(c, run, n).consumed ==> At(c, run, n + 1).consumed && |At(c, run, n + 1).readers| == |At(c, run, n).readers|
    ensures |At(c, run, n + 1).readers| >= |At(c, run, n).readers|
    ensures (exists q :: ClosesAt(c, run, n, q)) ==>
      At(c, run, n + 1).consumed && |At(c, run, n + 1).readers| == |At(c, run, n).readers|
  {
    AtNext(c, run, n);
    hide After, ActOn;
  }

  /** When gzip refuses late writes, a single reader is safe however early it is closed. */
  lemma OneReaderIsSafe(c: Codec, run: seq<Event>)
    requires c.refuses && |After(c, run).readers| <= 1
    ensures Safe(c, run)
  {
    assert run[..|run|] == run;
    forall i, r, j, q | 0 <= i < j && ClosesAt(c, run, i, r) && ClosesAt(c, run, j, q)
      ensures SameCopies(c, run, i, r, j, q)
    {
      ReadersGrow(c, run, i, |run|);
      ReadersGrow(c, run, j, |run|);
      AfterFirstClose(c, run, i, j, r);
    }
  }

  lemma {:induction false} ReadersGrow(c: Codec, run: seq<Event>, m: nat, n: nat)
    requires m <= n <= |run|
    ensures |At(c, run, m).readers| <= |At(c, run, n).readers|
  {
    if m < n {
      ReadersGrow(c, run, m, n - 1);
      AtNext(c, run, n - 1);
      hide After;
    }
  }

  /** A run is safe if its first successful close is made by the goroutine of the only reader
      that has been opened. */
  lemma ReadingToTheEndIsSafe(c: Codec, run: seq<Event>, i: nat)
    requires ClosesAt(c, run, i, 0) && run[i].act.Eof? && |At(c, run, i).readers| == 1
    requires forall k, q :: 0 <= k < i ==> !ClosesAt(c, run, k, q)
    ensures Safe(c, run)
  {
    forall m, r, j, q | 0 <= m < j && ClosesAt(c, run, m, r) && ClosesAt(c, run, j, q)
      ensures SameCopies(c, run, m, r, j, q)
    {
      assert i <= m;
      AfterFirstClose(c, run, i, j, 0);
      if i < m {
        AfterFirstClose(c, run, i, m, 0);
      }
      forall k | m < k < j
        ensures !CopiesAt(c, run, k, 0)
      {
        AfterFirstClose(c, run, i, k, 0);
      }
    }
  }

  function Data(copies: seq<Bytes>): Bytes {
    if copies == [] then [] else Data(copies[..|copies| - 1]) + copies[|copies| - 1]
  }

  /** Opening a reader and copying some chunks. */
  function Reading(copies: seq<Bytes>): (run: seq<Event>)
    ensures |run| == |copies| + 1 && run[0] == Open
    ensures forall k :: 1 <= k < |run| ==> run[k] == On(0, Copy(copies[k - 1]))
  {
    [Open] + seq(|copies|, k requires 0 <= k < |copies| => On(0, Copy(copies[k])))
  }

  lemma {:induction false} CopiesAccumulate(c: Codec, copies: seq<Bytes>, run: seq<Event>, n: nat)
    requires Reading(copies) <= run && n <= |copies|
    ensures At(c, run, n + 1) ==
            Stream(false, None, [ReaderState(Data(copies[..n]), Data(copies[..n]), [], false, false, false)])
  {
    AtNext(c, run, n);
    if n == 0 {
      NoFactsYet(c, run);
    } else {
      CopiesAccumulate(c, copies, run, n - 1);
      assert copies[..n][..n - 1] == copies[..n - 1];
      assert run[n] == Reading(copies)[n];
    }
    hide After;
  }

  /** A stream read to its end by its only reader: the layer has the facts of all its bytes,
      and keeps them whatever happens later. */
  lemma ReadToTheEnd(c: Codec, copies: seq<Bytes>, later: seq<Event>)
    ensures var run := Reading(copies) + [On(0, Eof(true))] + later;
            && FactsStay(c, run)
            && var z := c.zip(Data(copies), []);
               After(c, run).facts == Some(Facts(c.hash(z), c.hash(Data(copies)), |z|))
  {
    var run, i := Reading(copies) + [On(0, Eof(true))] + later, |copies| + 1;
    CopiesAccumulate(c, copies, run, |copies|);
    assert copies[..|copies|] == copies;
    assert run[i] == On(0, Eof(true));
    assert ClosesAt(c, run, i, 0);
    forall k, q | 0 <= k < i
      ensures !ClosesAt(c, run, k, q)
    {
      assert run[k] == Reading(copies)[k];
    }
    ReadingToTheEndIsSafe(c, run, i);
    SafeFactsStay(c, run);
    ReaderNext(c, run, i, 0);
    assert run[..|run|] == run;
    assert At(c, run, |run|).facts == At(c, run, i + 1).facts;
  }

  // ---------------------------------------------------------------- readers as they should not be used

  /** Two readers of one layer, each to its end: the second overwrites the facts of the first. */
  lemma TwoReadersDisagree(c: Codec, chunk: Bytes)
    requires Injective(c.hash) && chunk != []
    ensures !FactsStay(c, [Open, Open, On(0, Copy(chunk)), On(0, Eof(true)), On(1, Eof(true))])
  {
    var run := [Open, Open, On(0, Copy(chunk)), On(0, Eof(true)), On(1, Eof(true))];
    NoFactsYet(c, run);
    AtNext(c, run, 0);
    AtNext(c, run, 1);
    AtNext(c, run, 2);
    AtNext(c, run, 3);
    AtNext(c, run, 4);
    hide At;
    assert At(c, run, 4).facts.value.diffID == c.hash([] + chunk) && [] + chunk == chunk;
    assert At(c, run, 5).facts.value.diffID == c.hash([]);
  }

  /** Closing before the first chunk and again after it is harmless only if gzip refuses the
      chunk, since then the second close fails. */
  lemma EarlyClose(c: Codec, chunk: Bytes)
    requires Injective(c.hash) && chunk != []
    ensures FactsStay(c, [Open, On(0, Close(true)), On(0, Copy(chunk)), On(0, Close(true))]) <==> c.refuses
  {
    var run := [Open, On(0, Close(true)), On(0, Copy(chunk)), On(0, Close(true))];
    NoFactsYet(c, run);
    AtNext(c, run, 0);
    AtNext(c, run, 1);
    AtNext(c, run, 2);
    AtNext(c, run, 3);
    if c.refuses {
      assert run[..|run|] == run;
      OneReaderIsSafe(c, run);
      SafeFactsStay(c, run);
    } else {
      hide At;
      assert At(c, run, 4).facts.value.diffID == c.hash([] + chunk) && [] + chunk == chunk;
      assert At(c, run, 2).facts.value.diffID == c.hash([]);
    }
  }
}
