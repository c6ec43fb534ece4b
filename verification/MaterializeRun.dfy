/**
 Runs of planned materializations: after every successful change the published output holds exactly
 the source rows.
 */
module MaterializeRun {
  import opened Wrappers
  import opened Int64
  import opened Locality
  import opened Impact
  import opened Frontier
  import opened Materialize

  /** The exact raw-input predicate of one execution. */
  datatype Input = Input(lower: I64, lowerInclusive: bool, upper: I64)

  datatype Plan = Plan(input: Option<Input>, publication: Publication)

  function PlanChange(s: SettledState, extent: Extent): Result<Plan> {
    match Classify(s, extent)
    case Refused(_) => Err
    case As(NoRows) => Ok(Plan(None, NoOutput))
    case As(Append(changed)) =>
      var lower := if s.observed.Some? then s.observed.value else changed.min;
      Ok(Plan(Some(Input(lower, s.observed.None?, changed.max)), AppendAfter(s.observed)))
    case As(UnsealedDisorder(changed)) => Ok(Plan(Some(Input(changed.min, true, changed.max)), Replace([changed])))
    case As(Repair(changed, _, _)) => Ok(Plan(Some(Input(changed.min, true, changed.max)), Replace([changed])))
  }

  /** What a plan reads and what its publication admits, told by the times of the extent: an extent past
      everything observed is appended, reading all that is newer up to its end and admitting all that is
      newer; any other is replaced, reading and admitting exactly its own times. */
  lemma PlanByTimes(s: SettledState, iv: TimeInterval, t: int)
    requires s.Valid() && PlanChange(s, Bounded(iv)).Ok?
    ensures var plan := PlanChange(s, Bounded(iv)).value;
      if forall x :: Has(iv, x) ==> Unseen(s, x) then
        && plan.publication.AppendAfter?
        && (Permitted(plan.publication, t) <==> Unseen(s, t))
        && (Selects(plan.input, t) <==> Unseen(s, t) && t <= iv.max && (s.observed.None? ==> iv.min <= t))
      else
        && plan.publication.Replace?
        && (Permitted(plan.publication, t) <==> Has(iv, t)) && (Selects(plan.input, t) <==> Has(iv, t))
  {
    ClassifyByTimes(s, iv);
    CoversOne(iv, t);
    assert Has(iv, iv.min);
  }

  /** An empty extent reads and admits nothing. */
  lemma PlanEmpty(s: SettledState, t: int)
    requires PlanChange(s, Empty).Ok?
    ensures var plan := PlanChange(s, Empty).value; !Selects(plan.input, t) && !Permitted(plan.publication, t)
  {
  }

  predicate Selects(input: Option<Input>, t: int) {
    && input.Some? && t <= input.value.upper
    && if input.value.lowerInclusive then t >= input.value.lower else t > input.value.lower
  }

  function Filter(input: Option<Input>, rows: seq<Event>): seq<Event> {
    if rows == [] then [] else (if Selects(input, rows[0].t) then [rows[0]] else []) + Filter(input, rows[1..])
  }

  /** The observed position is at or past every row. */
  ghost predicate Observes(s: SettledState, rows: seq<Event>) {
    forall e :: e in rows ==> s.observed.Some? && e.t <= s.observed.value
  }

  /** Every row whose multiplicity differs lies in the declared extent. */
  ghost predicate DiffersWithin(extent: Extent, a: seq<Event>, b: seq<Event>) {
    forall e: Event :: multiset(a)[e] != multiset(b)[e] ==> extent.Unknown? || (extent.Bounded? && Has(extent.iv, e.t))
  }

  lemma {:induction false} FilterCounts(input: Option<Input>, rows: seq<Event>, e: Event)
    ensures multiset(Filter(input, rows))[e] == if Selects(input, e.t) then multiset(rows)[e] else 0
  {
    hide Selects;
    if rows != [] {
      assert rows == [rows[0]] + rows[1..];
      FilterCounts(input, rows[1..], e);
    }
  }

  lemma {:induction false} OutsideCounts(rows: seq<Event>, ranges: seq<TimeInterval>, e: Event)
    ensures multiset(OutsideRanges(rows, ranges))[e] == if Covers(ranges, e.t) then 0 else multiset(rows)[e]
  {
    hide Covers;
    if rows != [] {
      assert rows == [rows[0]] + rows[1..];
      OutsideCounts(rows[1..], ranges, e);
    }
  }

  /** What the plan selects is what its publication admits. */
  lemma SelectedIsPermitted(s: SettledState, extent: Extent, t: int)
    requires PlanChange(s, extent).Ok?
    ensures Selects(PlanChange(s, extent).value.input, t) ==> Permitted(PlanChange(s, extent).value.publication, t)
    ensures WellFormed(PlanChange(s, extent).value.publication)
  {
    if extent.Bounded? { CoversOne(extent.iv, t); }
  }

  /** The multiplicity of one row after publishing what the plan selects. */
  lemma AppliedCounts(s: SettledState, extent: Extent, published: seq<Event>, after: seq<Event>, rows: seq<Event>,
                      e: Event)
    requires PlanChange(s, extent).Ok?
    requires multiset(rows) == multiset(Filter(PlanChange(s, extent).value.input, after))
    ensures var plan := PlanChange(s, extent).value;
      multiset(Applied(published, Effective(plan.publication, rows == []), rows))[e]
      == (if Selects(plan.input, e.t) then multiset(after)[e] else 0)
         + (if plan.publication.Replace? && Has(extent.iv, e.t) then 0 else multiset(published)[e])
  {
    hide Filter, OutsideRanges;
    var plan := PlanChange(s, extent).value;
    FilterCounts(plan.input, after, e);
    if plan.publication.Replace? {
      OutsideCounts(published, plan.publication.ranges, e);
      CoversOne(extent.iv, e.t);
    }
    if rows == [] { assert multiset(rows)[e] == 0; }
  }

  /** An append publishes the new source exactly when nothing already published lies in the range it reads. */
  lemma AppendRightIff(s: SettledState, extent: Extent, before: seq<Event>, after: seq<Event>, published: seq<Event>,
                       rows: seq<Event>)
    requires PlanChange(s, extent).Ok? && PlanChange(s, extent).value.publication.AppendAfter?
    requires multiset(published) == multiset(before) && DiffersWithin(extent, before, after)
    requires multiset(rows) == multiset(Filter(PlanChange(s, extent).value.input, after))
    ensures var plan := PlanChange(s, extent).value;
      multiset(Applied(published, Effective(plan.publication, rows == []), rows)) == multiset(after)
      <==> forall e :: e in before ==> !Selects(plan.input, e.t)
  {
    hide Applied, Filter;
    var plan := PlanChange(s, extent).value;
    var out := Applied(published, Effective(plan.publication, rows == []), rows);
    forall e ensures multiset(out)[e] == multiset(after)[e] <==> (e in multiset(before) ==> !Selects(plan.input, e.t)) {
      AppliedCounts(s, extent, published, after, rows, e);
    }
    if multiset(out) == multiset(after) {
      forall e | e in before ensures !Selects(plan.input, e.t) {
        assert e in multiset(before) && multiset(out)[e] == multiset(after)[e];
      }
    }
  }

  /** One planned change keeps the published output equal to the source. */
  lemma StepRefines(s: SettledState, extent: Extent, before: seq<Event>, after: seq<Event>, published: seq<Event>,
                    rows: seq<Event>)
    requires PlanChange(s, extent).Ok? && Observes(s, before)
    requires multiset(published) == multiset(before) && DiffersWithin(extent, before, after)
    requires multiset(rows) == multiset(Filter(PlanChange(s, extent).value.input, after))
    ensures var plan := PlanChange(s, extent).value;
      multiset(Applied(published, Effective(plan.publication, rows == []), rows)) == multiset(after)
  {
    hide Applied, Filter;
    var plan := PlanChange(s, extent).value;
    if plan.publication.AppendAfter? {
      AppendRightIff(s, extent, before, after, published, rows);
    } else {
      forall e
        ensures multiset(Applied(published, Effective(plan.publication, rows == []), rows))[e] == multiset(after)[e]
      {
        AppliedCounts(s, extent, published, after, rows, e);
      }
    }
  }

  // ----- runs -----

  /** One change offered to a materialization: the source it leads to, the frontier state that goes
      with it, and the stream and failures the execution meets. */
  datatype Change = Change(extent: Extent, source: seq<Event>, settled: SettledState, stream: Stream, faults: Faults)

  /** The change is described truthfully relative to the state it starts from, and its stream carries
      what the plan selects, in any order and any batches. */
  ghost predicate Truthful(s: SettledState, source: seq<Event>, ch: Change) {
    && DiffersWithin(ch.extent, source, ch.source)
    && Observes(ch.settled, ch.source)
    && (PlanChange(s, ch.extent).Ok? ==>
        multiset(Rows(ch.stream)) == multiset(Filter(PlanChange(s, ch.extent).value.input, ch.source)))
  }

  ghost function SourceAt(source: seq<Event>, changes: seq<Change>, n: nat): seq<Event>
    requires n <= |changes|
  {
    if n == 0 then source else changes[n - 1].source
  }

  ghost function SettledAt(s: SettledState, changes: seq<Change>, n: nat): SettledState
    requires n <= |changes|
  {
    if n == 0 then s else changes[n - 1].settled
  }

  ghost predicate AllTruthful(s: SettledState, source: seq<Event>, changes: seq<Change>) {
    forall n {:trigger changes[n]} :: 0 <= n < |changes| ==>
      Truthful(SettledAt(s, changes, n), SourceAt(source, changes, n), changes[n])
  }

  /** Every batch arrives and can be read, and no call fails. */
  ghost predicate Faultless(ch: Change) {
    && ch.faults == Faults(false, None, false, false, false, false)
    && forall i :: 0 <= i < |ch.stream| ==> ch.stream[i].Ok? && ch.stream[i].value.legible
  }

  lemma {:induction false} RowsContain(stream: Stream, i: nat, j: nat)
    requires i < |stream| && stream[i].Ok? && j < |stream[i].value.rows|
    ensures stream[i].value.rows[j] in Rows(stream)
  {
    var init := stream[..|stream| - 1];
    if i < |init| {
      assert init[i] == stream[i];
      RowsContain(init, i, j);
    }
  }

  lemma {:induction false} FilterSelects(input: Option<Input>, rows: seq<Event>, e: Event)
    requires e in Filter(input, rows)
    ensures Selects(input, e.t)
  {
    FilterCounts(input, rows, e);
    assert e in multiset(Filter(input, rows));
  }

  /** Without faults nothing in the stream falls outside the publication. */
  lemma FaultlessIsClean(id: string, s: SettledState, source: seq<Event>, ch: Change)
    requires Truthful(s, source, ch) && Faultless(ch) && PlanChange(s, ch.extent).Ok? && id != ""
    ensures Clean(id, PlanChange(s, ch.extent).value.publication, ch.stream, ch.faults)
  {
    hide Permitted, Filter, PlanChange, Rows, Selects;
    var plan := PlanChange(s, ch.extent).value;
    SelectedIsPermitted(s, ch.extent, 0);
    forall i, j | 0 <= i < |ch.stream| && 0 <= j < |ch.stream[i].value.rows|
      ensures Permitted(plan.publication, ch.stream[i].value.rows[j].t)
    {
      var e := ch.stream[i].value.rows[j];
      RowsContain(ch.stream, i, j);
      assert e in multiset(Rows(ch.stream));
      assert e in multiset(Filter(plan.input, ch.source));
      FilterSelects(plan.input, ch.source, e);
      SelectedIsPermitted(s, ch.extent, e.t);
    }
    forall i | 0 <= i < |ch.stream| ensures Acceptable(ch.stream[i], plan.publication) {
      assert ch.stream[i].Ok? && ch.stream[i].value.legible;
    }
  }

  /** Plan, stream and commit one change. */
  method MaterializeChange(sink: Sink, id: string, s: SettledState, ghost source: seq<Event>, ch: Change)
    returns (ok: bool)
    requires multiset(sink.published) == multiset(source) && Observes(s, source) && Truthful(s, source, ch)
    modifies sink
    ensures ok ==> multiset(sink.published) == multiset(ch.source)
    ensures !ok ==> sink.published == old(sink.published) && sink.progressed == old(sink.progressed)
    ensures Faultless(ch) && id != "" ==> (ok <==> PlanChange(s, ch.extent).Ok?)
  {
    hide Permitted, Filter, Rows, Selects, Applied, Clean, IsBounds, Classify, WellFormed;
    var plan := PlanChange(s, ch.extent);
    if plan.Err? { return false; }
    var r, stage := MaterializeStream(sink, id, plan.value.publication, ch.stream, ch.faults);
    if r.Success? {
      StepRefines(s, ch.extent, source, ch.source, old(sink.published), Rows(ch.stream));
    }
    if Faultless(ch) && id != "" { FaultlessIsClean(id, s, source, ch); }
    return r.Success?;
  }

  /** Changes in sequence up to the first that fails. */
  method MaterializeAll(sink: Sink, id: string, s: SettledState, ghost source: seq<Event>, changes: seq<Change>)
    returns (done: nat)
    requires multiset(sink.published) == multiset(source) && Observes(s, source) && AllTruthful(s, source, changes)
    modifies sink
    ensures done <= |changes| && multiset(sink.published) == multiset(SourceAt(source, changes, done))
    ensures id != "" && (forall i :: 0 <= i < |changes| ==> Faultless(changes[i])) && done < |changes|
            ==> PlanChange(SettledAt(s, changes, done), changes[done].extent).Err?
  {
    hide DiffersWithin, Observes, PlanChange, Faultless;
    done := 0;
    var now := s;
    while done < |changes|
      invariant done <= |changes| && now == SettledAt(s, changes, done)
      invariant Observes(now, SourceAt(source, changes, done))
      invariant multiset(sink.published) == multiset(SourceAt(source, changes, done))
    {
      var ch := changes[done];
      assert Truthful(now, SourceAt(source, changes, done), ch);
      var ok := MaterializeChange(sink, id, now, SourceAt(source, changes, done), ch);
      if !ok { return; }
      now := ch.settled;
      done := done + 1;
    }
  }
}
