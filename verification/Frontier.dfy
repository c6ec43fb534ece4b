/**
 Classification of one logical change against a source's settled frontier.
 */
module Frontier {
  import opened Wrappers
  import opened Int64
  import opened Locality
  import opened Impact

  /** How far behind the frontier a repair may reach; `None` rejects every retroactive change. */
  datatype RepairPolicy = RepairPolicy(maxLateness: Option<I64>)

  datatype SettledState = SettledState(settled: Option<I64>, observed: Option<I64>, policy: RepairPolicy) {
    ghost predicate Valid() {
      && (settled.Some? ==> observed.Some? && settled.value <= observed.value)
      && (policy.maxLateness.Some? ==> policy.maxLateness.value >= 0)
    }
  }

  function Settle(settled: Option<I64>, observed: Option<I64>, policy: RepairPolicy): (r: Result<SettledState>)
    requires policy.maxLateness.Some? ==> policy.maxLateness.value >= 0
    ensures r.Ok? <==> SettledState(settled, observed, policy).Valid()
    ensures r.Ok? ==> r.value == SettledState(settled, observed, policy)
  {
    if settled.Some? && observed.None? then Err
    else if settled.Some? && settled.value > observed.value then Err
    else Ok(SettledState(settled, observed, policy))
  }

  datatype Disposition =
    | NoRows
    | Append(changed: TimeInterval)
    | UnsealedDisorder(changed: TimeInterval)
    | Repair(changed: TimeInterval, retroactive: TimeInterval, unsealed: Option<TimeInterval>)

  datatype Refusal = UnknownExtent | RejectsRetroactive | TooLate | FrontierOverflow

  datatype Classified = As(disposition: Disposition) | Refused(why: Refusal)

  function Classify(s: SettledState, extent: Extent): Classified {
    match extent
    case Empty => As(NoRows)
    case Unknown => Refused(UnknownExtent)
    case Bounded(changed) =>
      if s.observed.None? || changed.min > s.observed.value then As(Append(changed))
      else if s.settled.None? || changed.min > s.settled.value then As(UnsealedDisorder(changed))
      else if s.policy.maxLateness.None? then Refused(RejectsRetroactive)
      else
        var frontier := s.settled.value;
        var back := Checked(frontier - s.policy.maxLateness.value);
        var earliest := if back.Some? then back.value else I64_MIN;
        if changed.min < earliest then Refused(TooLate)
        else
          var retroactive := Span(changed.min, if changed.max < frontier then changed.max else frontier);
          if changed.max > frontier then
            var next := Checked(frontier + 1);
            if next.None? then Refused(FrontierOverflow)
            else As(Repair(changed, retroactive, Some(Span(next.value, changed.max))))
          else As(Repair(changed, retroactive, None))
  }

  /** Time `x` is at or behind the settled frontier. */
  predicate Sealed(s: SettledState, x: int) {
    s.settled.Some? && x <= s.settled.value
  }

  /** Time `x` is beyond everything observed. */
  predicate Unseen(s: SettledState, x: int) {
    s.observed.Some? ==> x > s.observed.value
  }

  /** Time `x` is farther behind the frontier than the policy repairs; no saturation here. */
  predicate BeyondRepair(s: SettledState, x: int) {
    Sealed(s, x) && (s.policy.maxLateness.Some? ==> x < s.settled.value - s.policy.maxLateness.value)
  }

  /** Which outcome a bounded change gets, told by the times it contains. */
  lemma ClassifyByTimes(s: SettledState, iv: TimeInterval)
    requires s.Valid()
    ensures Classify(s, Bounded(iv)) == As(Append(iv)) <==> forall x :: Has(iv, x) ==> Unseen(s, x)
    ensures Classify(s, Bounded(iv)) == As(UnsealedDisorder(iv)) <==> (
              && (exists x :: Has(iv, x) && !Unseen(s, x))
              && (forall x :: Has(iv, x) ==> !Sealed(s, x)))
    ensures Classify(s, Bounded(iv)).Refused? <==> exists x :: Has(iv, x) && BeyondRepair(s, x)
    ensures Classify(s, Bounded(iv)) == Refused(RejectsRetroactive) <==>
      s.policy.maxLateness.None? && exists x :: Has(iv, x) && Sealed(s, x)
    ensures Classify(s, Bounded(iv)) == Refused(TooLate) <==>
      s.policy.maxLateness.Some? && exists x :: Has(iv, x) && BeyondRepair(s, x)
    ensures Classify(s, Bounded(iv)) != Refused(FrontierOverflow)
    ensures Classify(s, Bounded(iv)) != Refused(UnknownExtent)
  {
    assert Has(iv, iv.min);
  }

  /** A repair splits its change at the frontier: nothing lost, nothing shared, each part on its side. */
  lemma RepairSplits(s: SettledState, iv: TimeInterval, x: int)
    requires s.Valid() && Classify(s, Bounded(iv)).As? && Classify(s, Bounded(iv)).disposition.Repair?
    ensures var d := Classify(s, Bounded(iv)).disposition;
      && d.changed == iv
      && (Has(d.retroactive, x) <==> Has(iv, x) && Sealed(s, x))
      && (d.unsealed.Some? && Has(d.unsealed.value, x) <==> Has(iv, x) && !Sealed(s, x))
      && (d.unsealed.None? <==> forall y :: Has(iv, y) ==> Sealed(s, y))
  {
    assert Has(iv, iv.max);
  }
}
