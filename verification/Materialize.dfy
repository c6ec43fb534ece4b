/**
 Transactional streaming materialization: planning one change, driving a staged writer that may
 fail at any step, and the published output as a refinement of the source.
 */
module Materialize {
  import opened Wrappers
  import opened Int64
  import opened Locality
  import opened Impact
  import opened Frontier

  datatype Event = Event(t: I64, value: int)

  /** One record batch; an illegible one has no usable event-time column. */
  datatype Batch = Batch(rows: seq<Event>, legible: bool)

  datatype Publication =
    | NoOutput
    | AppendAfter(after: Option<I64>)
    | Replace(ranges: seq<TimeInterval>)

  datatype Output = Output(id: string, rows: nat, bounds: TimeInterval)

  datatype Metrics = Metrics(batches: nat, rows: nat, peak: nat)

  datatype Outcome = Outcome(output: Option<Output>, publication: Publication, metrics: Metrics)

  datatype Failure =
    | BadIdentity | BadPublication | BeginFailed | StreamFailed | Illegible | Outside
    | WriteFailed | CloseFailed | NonEmptyNoOutput | ProgressFailed | CommitFailed

  /** A failure also says whether discarding the stage failed on top of it. */
  datatype Run<+T> = Success(value: T) | Failure(why: Failure, abortFailed: bool)

  /** Which calls into the sink and the caller fail; a write is named by how many came before it. */
  datatype Faults = Faults(begin: bool, write: Option<nat>, close: bool, progress: bool, commit: bool, abort: bool)

  // ----- what a publication admits -----

  predicate Permitted(p: Publication, t: int) {
    match p
    case NoOutput => false
    case AppendAfter(after) => after.Some? ==> t > after.value
    case Replace(ranges) => Covers(ranges, t)
  }

  ghost predicate WellFormed(p: Publication) {
    p.Replace? ==> p.ranges != [] && Normalized(p.ranges)
  }

  /** Gaps between neighbours are gaps between any two. */
  lemma {:induction false} NeighboursEnough(ivs: seq<TimeInterval>, i: nat, j: nat)
    requires forall n :: 0 <= n < |ivs| - 1 ==> Gap(ivs[n], ivs[n + 1])
    requires i < j < |ivs|
    ensures Gap(ivs[i], ivs[j])
    decreases j - i
  {
    if i + 1 < j {
      NeighboursEnough(ivs, i + 1, j);
      assert Gap(ivs[i], ivs[i + 1]);
    }
  }

  /** Accepts exactly the non-empty normal forms. */
  method ValidatePublication(p: Publication) returns (ok: bool)
    ensures ok <==> WellFormed(p)
  {
    if !p.Replace? { return true; }
    if p.ranges == [] { return false; }
    for n := 0 to |p.ranges| - 1
      invariant forall i :: 0 <= i < n ==> Gap(p.ranges[i], p.ranges[i + 1])
    {
      var next := Checked(p.ranges[n].max + 1);
      if next.None? || p.ranges[n + 1].min <= next.value {
        assert !Gap(p.ranges[n], p.ranges[n + 1]);
        return false;
      }
    }
    forall i, j | 0 <= i < j < |p.ranges| ensures Gap(p.ranges[i], p.ranges[j]) {
      NeighboursEnough(p.ranges, i, j);
    }
    return true;
  }

  /** Whatever was normalized can be published. */
  method PublishNormalized(intervals: seq<TimeInterval>) returns (p: Publication, ok: bool)
    requires intervals != []
    ensures ok && p.Replace? && forall x :: Permitted(p, x) <==> Covers(intervals, x)
  {
    hide Normalized, Covers;
    var ranges := NormalizeIntervals(intervals);
    p := Replace(ranges);
    assert forall x :: Permitted(p, x) <==> Covers(ranges, x);
    NonEmptyCover(intervals, ranges);
    ok := ValidatePublication(p);
  }

  lemma NonEmptyCover(a: seq<TimeInterval>, b: seq<TimeInterval>)
    requires a != [] && forall x :: Covers(b, x) <==> Covers(a, x)
    ensures b != []
  {
    assert Has(a[0], a[0].min);
    assert Covers(a, a[0].min);
    assert Covers(b, a[0].min);
  }

  method ValidateBatch(rows: seq<Event>, p: Publication) returns (ok: bool)
    ensures ok <==> forall i :: 0 <= i < |rows| ==> Permitted(p, rows[i].t)
  {
    for n := 0 to |rows|
      invariant forall i :: 0 <= i < n ==> Permitted(p, rows[i].t)
    {
      var valid;
      match p {
        case NoOutput => valid := false;
        case AppendAfter(after) => valid := after.None? || rows[n].t > after.value;
        case Replace(ranges) => valid := exists i :: 0 <= i < |ranges| && Has(ranges[i], rows[n].t);
      }
      assert valid <==> Permitted(p, rows[n].t);
      if !valid { return false; }
    }
    return true;
  }

  // ----- exact bounds -----

  /** `iv` is the tight event-time range of `rows`. */
  ghost predicate IsBounds(rows: seq<Event>, iv: TimeInterval) {
    && (exists i :: 0 <= i < |rows| && rows[i].t == iv.min)
    && (exists i :: 0 <= i < |rows| && rows[i].t == iv.max)
    && (forall i :: 0 <= i < |rows| ==> Has(iv, rows[i].t))
  }

  ghost predicate BoundsSo(rows: seq<Event>, bounds: Option<TimeInterval>) {
    if bounds.Some? then rows != [] && IsBounds(rows, bounds.value) else rows == []
  }

  function Lower(a: I64, b: I64): I64 { if a <= b then a else b }

  function Upper(a: I64, b: I64): I64 { if a >= b then a else b }

  method EventTimeBounds(rows: seq<Event>) returns (iv: TimeInterval)
    requires rows != []
    ensures IsBounds(rows, iv)
  {
    var minimum: I64, maximum: I64 := I64_MAX, I64_MIN;
    for n := 0 to |rows|
      invariant forall i :: 0 <= i < n ==> minimum <= rows[i].t <= maximum
      invariant n == 0 ==> minimum == I64_MAX && maximum == I64_MIN
      invariant n > 0 ==> exists i :: 0 <= i < n && rows[i].t == minimum
      invariant n > 0 ==> exists i :: 0 <= i < n && rows[i].t == maximum
    {
      minimum, maximum := Lower(minimum, rows[n].t), Upper(maximum, rows[n].t);
    }
    iv := Span(minimum, maximum);
  }

  lemma UnionBounds(a: seq<Event>, b: seq<Event>, x: TimeInterval, y: TimeInterval)
    requires IsBounds(a, x) && IsBounds(b, y)
    ensures IsBounds(a + b, Span(Lower(x.min, y.min), Upper(x.max, y.max)))
  {
    var ab := a + b;
    var i0 :| 0 <= i0 < |a| && a[i0].t == x.min;
    var i1 :| 0 <= i1 < |a| && a[i1].t == x.max;
    var j0 :| 0 <= j0 < |b| && b[j0].t == y.min;
    var j1 :| 0 <= j1 < |b| && b[j1].t == y.max;
    assert ab[i0] == a[i0] && ab[i1] == a[i1] && ab[|a| + j0] == b[j0] && ab[|a| + j1] == b[j1];
    forall i | 0 <= i < |ab| ensures Has(Span(Lower(x.min, y.min), Upper(x.max, y.max)), ab[i].t) {
      if i < |a| { assert ab[i] == a[i]; } else { assert ab[i] == b[i - |a|]; }
    }
  }

  // ----- the stream -----

  type Stream = seq<Result<Batch>>

  function ItemRows(item: Result<Batch>): seq<Event> {
    if item.Ok? then item.value.rows else []
  }

  ghost function Rows(stream: Stream): seq<Event> {
    if stream == [] then [] else Rows(stream[..|stream| - 1]) + ItemRows(stream[|stream| - 1])
  }

  ghost function Writes(stream: Stream): nat {
    if stream == [] then 0 else Writes(stream[..|stream| - 1]) + if ItemRows(stream[|stream| - 1]) == [] then 0 else 1
  }

  ghost function Peak(stream: Stream): nat {
    if stream == [] then 0 else
      var before, here := Peak(stream[..|stream| - 1]), |ItemRows(stream[|stream| - 1])|;
      if before >= here then before else here
  }

  /** The item is a batch, and a non-empty one can be read and lies inside the publication. */
  ghost predicate Acceptable(item: Result<Batch>, p: Publication) {
    && item.Ok?
    && (item.value.rows != [] ==>
        item.value.legible && forall i :: 0 <= i < |item.value.rows| ==> Permitted(p, item.value.rows[i].t))
  }

  ghost predicate AllAcceptable(stream: Stream, p: Publication) {
    forall i :: 0 <= i < |stream| ==> Acceptable(stream[i], p)
  }

  lemma StreamSnoc(stream: Stream, n: nat)
    requires n < |stream|
    ensures Rows(stream[..n + 1]) == Rows(stream[..n]) + ItemRows(stream[n])
    ensures Writes(stream[..n + 1]) == Writes(stream[..n]) + if ItemRows(stream[n]) == [] then 0 else 1
    ensures Peak(stream[..n + 1]) ==
      if Peak(stream[..n]) >= |ItemRows(stream[n])| then Peak(stream[..n]) else |ItemRows(stream[n])|
  {
    assert stream[..n + 1][..n] == stream[..n];
  }

  lemma {:induction false} WritesGrow(stream: Stream, n: nat)
    requires n <= |stream|
    ensures Writes(stream[..n]) <= Writes(stream)
    decreases |stream|
  {
    if n < |stream| {
      var init := stream[..|stream| - 1];
      WritesGrow(init, n);
      assert init[..n] == stream[..n];
    } else {
      assert stream[..n] == stream;
    }
  }

  lemma {:induction false} RowsPermitted(stream: Stream, p: Publication)
    requires AllAcceptable(stream, p)
    ensures forall i :: 0 <= i < |Rows(stream)| ==> Permitted(p, Rows(stream)[i].t)
  {
    hide Permitted;
    if stream != [] {
      var init := stream[..|stream| - 1];
      assert AllAcceptable(init, p);
      RowsPermitted(init, p);
      assert Acceptable(stream[|stream| - 1], p);
    }
  }

  // ----- the sink -----

  function OutsideRanges(rows: seq<Event>, ranges: seq<TimeInterval>): seq<Event> {
    if rows == [] then []
    else (if Covers(ranges, rows[0].t) then [] else [rows[0]]) + OutsideRanges(rows[1..], ranges)
  }

  /** What a sink that honours append and replace shows after publishing `rows`. */
  function Applied(published: seq<Event>, p: Publication, rows: seq<Event>): seq<Event> {
    match p
    case NoOutput => published
    case AppendAfter(_) => published + rows
    case Replace(ranges) => OutsideRanges(published, ranges) + rows
  }

  /** An append that turned out to be empty publishes nothing. */
  function Effective(p: Publication, empty: bool): Publication {
    if empty && p.AppendAfter? then NoOutput else p
  }

  class Stage {
    var written: seq<Event>
    var writes: nat
    var closed: bool
    var commits: nat
    var aborts: nat

    constructor ()
      ensures written == [] && writes == 0 && !closed && commits == 0 && aborts == 0
    {
      written, writes, closed, commits, aborts := [], 0, false, 0, 0;
    }

    method Write(batch: Batch, faults: Faults) returns (ok: bool)
      modifies this
      ensures ok <==> faults.write != Some(old(writes))
      ensures ok ==> written == old(written) + batch.rows && writes == old(writes) + 1
      ensures !ok ==> written == old(written) && writes == old(writes)
      ensures closed == old(closed) && commits == old(commits) && aborts == old(aborts)
    {
      if faults.write == Some(writes) { return false; }
      written, writes := written + batch.rows, writes + 1;
      return true;
    }

    /** Discard the stage; a failing abort changes only the error reported. */
    method Abort(faults: Faults) returns (ok: bool)
      modifies this
      ensures written == old(written) && closed == old(closed) && commits == old(commits)
      ensures aborts == old(aborts) + 1 && ok == !faults.abort
    {
      aborts := aborts + 1;
      return !faults.abort;
    }
  }

  class Sink {
    var published: seq<Event>
    var progressed: nat

    /** Publish the stage and its progress together, or neither. */
    method Commit(stage: Stage, p: Publication, faults: Faults) returns (ok: bool)
      requires stage.closed
      modifies this, stage
      ensures ok <==> !faults.commit
      ensures ok ==> published == Applied(old(published), p, stage.written) && progressed == old(progressed) + 1
      ensures !ok ==> published == old(published) && progressed == old(progressed)
      ensures stage.commits == old(stage.commits) + 1 && stage.aborts == old(stage.aborts)
      ensures stage.written == old(stage.written) && stage.closed
    {
      stage.commits := stage.commits + 1;
      if faults.commit { return false; }
      published := Applied(published, p, stage.written);
      progressed := progressed + 1;
      return true;
    }
  }

  /** Nothing goes wrong anywhere. */
  ghost predicate Clean(id: string, p: Publication, stream: Stream, faults: Faults) {
    && id != "" && WellFormed(p) && !faults.begin && AllAcceptable(stream, p)
    && (faults.write.Some? ==> faults.write.value >= Writes(stream))
    && !faults.close && !faults.progress && !faults.commit
  }

  /** Consume one batch: check it against the publication, extend the bounds, write it. */
  method Consume(stage: Stage, batch: Batch, p: Publication, bounds: Option<TimeInterval>, faults: Faults)
    returns (r: Run<Option<TimeInterval>>)
    requires batch.rows != [] && BoundsSo(stage.written, bounds)
    modifies stage
    ensures r.Success? <==> Acceptable(Ok(batch), p) && faults.write != Some(old(stage.writes))
    ensures r.Success? ==> stage.written == old(stage.written) + batch.rows && stage.writes == old(stage.writes) + 1
    ensures r.Success? ==> r.value.Some? && BoundsSo(stage.written, r.value)
    ensures r.Failure? ==> r.why != NonEmptyNoOutput
    ensures stage.closed == old(stage.closed) && stage.commits == old(stage.commits)
    ensures stage.aborts == old(stage.aborts)
  {
    hide IsBounds, Permitted;
    if !batch.legible { return Failure(Illegible, false); }
    var here := EventTimeBounds(batch.rows);
    var inside := ValidateBatch(batch.rows, p);
    if !inside { return Failure(Outside, false); }
    var next := here;
    if bounds.Some? {
      next := Span(Lower(bounds.value.min, here.min), Upper(bounds.value.max, here.max));
      UnionBounds(stage.written, batch.rows, bounds.value, here);
    } else {
      assert stage.written + batch.rows == batch.rows;
    }
    var ok := stage.Write(batch, faults);
    if !ok { return Failure(WriteFailed, false); }
    return Success(Some(next));
  }

  /** Drain the stream into the stage, or stop at the first item that cannot be taken. */
  method Drain(stage: Stage, p: Publication, stream: Stream, faults: Faults)
    returns (r: Run<(Option<TimeInterval>, Metrics)>)
    requires stage.written == [] && stage.writes == 0
    modifies stage
    ensures r.Success? <==> AllAcceptable(stream, p) && (faults.write.Some? ==> faults.write.value >= Writes(stream))
    ensures r.Success? ==> stage.written == Rows(stream) && BoundsSo(stage.written, r.value.0)
    ensures r.Success? ==> r.value.1 == Metrics(Writes(stream), |Rows(stream)|, Peak(stream))
    ensures r.Failure? ==> r.why != NonEmptyNoOutput
    ensures stage.closed == old(stage.closed) && stage.commits == old(stage.commits)
    ensures stage.aborts == old(stage.aborts)
  {
    hide IsBounds, Permitted, Rows, Writes, Peak;
    var bounds: Option<TimeInterval>, m := None, Metrics(0, 0, 0);
    EmptyStream(stream[..0]);
    for n := 0 to |stream|
      invariant forall i :: 0 <= i < n ==> Acceptable(stream[i], p)
      invariant faults.write.Some? ==> faults.write.value >= Writes(stream[..n])
      invariant stage.written == Rows(stream[..n]) && stage.writes == Writes(stream[..n])
      invariant BoundsSo(stage.written, bounds)
      invariant m == Metrics(Writes(stream[..n]), |Rows(stream[..n])|, Peak(stream[..n]))
      invariant stage.closed == old(stage.closed) && stage.commits == old(stage.commits)
      invariant stage.aborts == old(stage.aborts)
    {
      StreamSnoc(stream, n);
      WritesGrow(stream, n + 1);
      if stream[n].Err? {
        assert !Acceptable(stream[n], p);
        return Failure(StreamFailed, false);
      }
      var batch := stream[n].value;
      if batch.rows == [] { continue; }
      var taken := Consume(stage, batch, p, bounds, faults);
      if taken.Failure? { return Failure(taken.why, false); }
      bounds := taken.value;
      m := Metrics(m.batches + 1, m.rows + |batch.rows|, if m.peak >= |batch.rows| then m.peak else |batch.rows|);
    }
    assert stream[..|stream|] == stream;
    return Success((bounds, m));
  }

  lemma EmptyStream(stream: Stream)
    requires stream == []
    ensures Rows(stream) == [] && Writes(stream) == 0 && Peak(stream) == 0
  {
  }

  /** Stream into a fresh stage and publish it atomically with its exact metadata. */
  method MaterializeStream(sink: Sink, id: string, p: Publication, stream: Stream, faults: Faults)
    returns (r: Run<Outcome>, stage: Stage?)
    modifies sink
    ensures r.Success? <==> Clean(id, p, stream, faults)
    ensures r.Failure? ==> sink.published == old(sink.published) && sink.progressed == old(sink.progressed)
    ensures r.Failure? ==> r.why != NonEmptyNoOutput
    ensures stage == null <==> id == "" || !WellFormed(p) || faults.begin
    ensures stage != null ==> fresh(stage) && stage.commits + stage.aborts == 1
    ensures r.Failure? ==> (r.abortFailed <==> stage != null && stage.aborts == 1 && faults.abort)
    ensures stage != null && stage.commits == 1 ==> stage.closed && stage.written == Rows(stream)
    ensures r.Success? ==>
      && stage != null && stage.commits == 1
      && sink.published == Applied(old(sink.published), Effective(p, Rows(stream) == []), Rows(stream))
      && sink.progressed == old(sink.progressed) + 1
      && r.value.publication == Effective(p, Rows(stream) == [])
      && (r.value.output.None? <==> Rows(stream) == [])
      && (r.value.output.Some? ==> r.value.output.value.id == id && r.value.output.value.rows == |Rows(stream)|
                                   && IsBounds(Rows(stream), r.value.output.value.bounds))
      && r.value.metrics == Metrics(Writes(stream), |Rows(stream)|, Peak(stream))
      && (forall i :: 0 <= i < |Rows(stream)| ==> Permitted(p, Rows(stream)[i].t))
  {
    hide IsBounds, Permitted, Rows, Writes, Peak, AllAcceptable, Applied, WellFormed;
    stage := null;
    if id == "" { return Failure(BadIdentity, false), null; }
    var wellFormed := ValidatePublication(p);
    if !wellFormed { return Failure(BadPublication, false), null; }
    if faults.begin { return Failure(BeginFailed, false), null; }
    stage := new Stage();
    var drained := Drain(stage, p, stream, faults);
    if drained.Failure? {
      var discarded := stage.Abort(faults);
      return Failure(drained.why, !discarded), stage;
    }
    RowsPermitted(stream, p);
    NoOutputIsEmpty(stream, p);
    var (bounds, metrics) := drained.value;
    stage.closed := !faults.close;
    var late :=
      if faults.close then Some(CloseFailed)
      else if bounds.Some? && p.NoOutput? then Some(NonEmptyNoOutput)
      else if faults.progress then Some(ProgressFailed)
      else None;
    if late.Some? {
      var discarded := stage.Abort(faults);
      return Failure(late.value, !discarded), stage;
    }
    var output := if bounds.Some? then Some(Output(id, metrics.rows, bounds.value)) else None;
    var effective := Effective(p, output.None?);
    var ok := sink.Commit(stage, effective, faults);
    if !ok { return Failure(CommitFailed, false), stage; }
    return Success(Outcome(output, effective, metrics)), stage;
  }

  /** Under `NoOutput` no row is ever admitted, so the late check never fires. */
  lemma {:induction false} NoOutputIsEmpty(stream: Stream, p: Publication)
    ensures p.NoOutput? && AllAcceptable(stream, p) ==> Rows(stream) == []
  {
    if stream != [] && p.NoOutput? && AllAcceptable(stream, p) {
      var init, last := stream[..|stream| - 1], stream[|stream| - 1];
      assert AllAcceptable(init, p) && Acceptable(last, p);
      NoOutputIsEmpty(init, p);
      assert last.value.rows != [] ==> Permitted(p, last.value.rows[0].t);
    }
  }
}
