/**
 Event-time intervals and their canonical form.
 */
module Locality {
  import opened Int64

  /** A non-empty inclusive interval of event time. */
  datatype Span = Span(min: I64, max: I64)

  type TimeInterval = s: Span | s.min <= s.max witness Span(0, 0)

  predicate Has(s: Span, x: int) {
    s.min <= x <= s.max
  }

  predicate Covers(ivs: seq<TimeInterval>, x: int) {
    exists i :: 0 <= i < |ivs| && Has(ivs[i], x)
  }

  lemma CoversOne(iv: TimeInterval, t: int)
    ensures Covers([iv], t) <==> Has(iv, t)
  {
    assert Has(iv, t) ==> Has([iv][0], t);
  }

  /** At least one instant lies between the two. */
  predicate Gap(a: Span, b: Span) {
    a.max + 1 < b.min
  }

  /** Ordered, disjoint, and no two touching. */
  ghost predicate Normalized(ivs: seq<TimeInterval>) {
    forall i, j :: 0 <= i < j < |ivs| ==> Gap(ivs[i], ivs[j])
  }

  // ----- the canonical form is unique -----

  lemma CoversSplit(ivs: seq<TimeInterval>, x: int)
    requires ivs != []
    ensures Covers(ivs, x) <==> Has(ivs[0], x) || Covers(ivs[1..], x)
  {
    if Covers(ivs, x) {
      var i :| 0 <= i < |ivs| && Has(ivs[i], x);
      if i > 0 { assert Has(ivs[1..][i - 1], x); }
    }
    if Covers(ivs[1..], x) {
      var i :| 0 <= i < |ivs[1..]| && Has(ivs[1..][i], x);
      assert Has(ivs[i + 1], x);
    }
  }

  lemma RestIsLater(ivs: seq<TimeInterval>, x: int)
    requires ivs != [] && Normalized(ivs) && Covers(ivs[1..], x)
    ensures ivs[0].max + 1 < x
  {
    var i :| 0 <= i < |ivs[1..]| && Has(ivs[1..][i], x);
    assert Gap(ivs[0], ivs[i + 1]);
  }

  lemma FirstInterval(a: seq<TimeInterval>, b: seq<TimeInterval>)
    requires a != [] && b != [] && Normalized(a) && Normalized(b)
    requires forall x :: Covers(a, x) <==> Covers(b, x)
    ensures b[0].min <= a[0].min && a[0].max <= b[0].max
  {
    assert Has(a[0], a[0].min) && Has(a[0], a[0].max);
    assert Covers(b, a[0].min) && Covers(b, a[0].max);
    CoversSplit(b, a[0].min);
    CoversSplit(b, a[0].max);
    if !Has(b[0], a[0].min) { RestIsLater(b, a[0].min); }
    if a[0].min <= b[0].max < a[0].max {
      // the gap after b's first interval would be covered by a
      assert Has(a[0], b[0].max + 1);
      assert Covers(b, b[0].max + 1);
      CoversSplit(b, b[0].max + 1);
      RestIsLater(b, b[0].max + 1);
    }
    assert Has(b[0], b[0].min);
    assert Covers(a, b[0].min);
    CoversSplit(a, b[0].min);
    if !Has(a[0], b[0].min) { RestIsLater(a, b[0].min); }
  }

  lemma RestCovers(a: seq<TimeInterval>, b: seq<TimeInterval>)
    requires a != [] && b != [] && Normalized(a) && Normalized(b) && a[0] == b[0]
    requires forall x :: Covers(a, x) <==> Covers(b, x)
    ensures forall x :: Covers(a[1..], x) <==> Covers(b[1..], x)
  {
    forall x ensures Covers(a[1..], x) <==> Covers(b[1..], x) {
      CoversSplit(a, x);
      CoversSplit(b, x);
      if Covers(a[1..], x) { RestIsLater(a, x); }
      if Covers(b[1..], x) { RestIsLater(b, x); }
    }
  }

  /** Two normalized lists of the same instants are the same list. */
  lemma {:induction false} NormalizedUnique(a: seq<TimeInterval>, b: seq<TimeInterval>)
    requires Normalized(a) && Normalized(b)
    requires forall x :: Covers(a, x) <==> Covers(b, x)
    ensures a == b
    decreases |a|
  {
    if a == [] || b == [] {
      assert a != [] ==> Has(a[0], a[0].min);
      assert b != [] ==> Has(b[0], b[0].min);
      assert a == [] && b != [] ==> Covers(b, b[0].min);
      assert b == [] && a != [] ==> Covers(a, a[0].min);
    } else {
      FirstInterval(a, b);
      FirstInterval(b, a);
      RestCovers(a, b);
      forall i, j | 0 <= i < j < |a[1..]| ensures Gap(a[1..][i], a[1..][j]) { assert Gap(a[i + 1], a[j + 1]); }
      forall i, j | 0 <= i < j < |b[1..]| ensures Gap(b[1..][i], b[1..][j]) { assert Gap(b[i + 1], b[j + 1]); }
      NormalizedUnique(a[1..], b[1..]);
      assert a == [a[0]] + a[1..] && b == [b[0]] + b[1..];
    }
  }

  // ----- normalization -----

  predicate Before(a: Span, b: Span) {
    a.min < b.min || (a.min == b.min && a.max <= b.max)
  }

  ghost predicate Ordered(ivs: seq<TimeInterval>) {
    forall i, j :: 0 <= i < j < |ivs| ==> Before(ivs[i], ivs[j])
  }

  function Insert(iv: TimeInterval, ivs: seq<TimeInterval>): seq<TimeInterval> {
    if ivs == [] || Before(iv, ivs[0]) then [iv] + ivs else [ivs[0]] + Insert(iv, ivs[1..])
  }

  /** `sort_by_key(|i| (i.min, i.max))`. */
  function Sort(ivs: seq<TimeInterval>): seq<TimeInterval> {
    if ivs == [] then [] else Insert(ivs[0], Sort(ivs[1..]))
  }

  lemma {:induction false} InsertMultiset(iv: TimeInterval, ivs: seq<TimeInterval>)
    ensures multiset(Insert(iv, ivs)) == multiset(ivs) + multiset{iv}
  {
    hide Before;
    if ivs != [] && !Before(iv, ivs[0]) {
      InsertMultiset(iv, ivs[1..]);
      assert ivs == [ivs[0]] + ivs[1..];
    }
  }

  lemma {:induction false} InsertAfter(x: TimeInterval, iv: TimeInterval, ivs: seq<TimeInterval>)
    requires Before(x, iv) && forall i :: 0 <= i < |ivs| ==> Before(x, ivs[i])
    ensures forall j :: 0 <= j < |Insert(iv, ivs)| ==> Before(x, Insert(iv, ivs)[j])
  {
    hide Before;
    if ivs != [] && !Before(iv, ivs[0]) { InsertAfter(x, iv, ivs[1..]); }
  }

  lemma {:induction false} InsertOrdered(iv: TimeInterval, ivs: seq<TimeInterval>)
    requires Ordered(ivs)
    ensures Ordered(Insert(iv, ivs))
  {
    var out := Insert(iv, ivs);
    if ivs == [] || Before(iv, ivs[0]) {
      forall i, j | 0 <= i < j < |out| ensures Before(out[i], out[j]) {
        assert i > 0 ==> Before(ivs[i - 1], ivs[j - 1]);
        assert j > 1 ==> Before(ivs[0], ivs[j - 1]);
      }
    } else {
      var tail, rest := ivs[1..], Insert(iv, ivs[1..]);
      forall i, j | 0 <= i < j < |tail| ensures Before(tail[i], tail[j]) { assert Before(ivs[i + 1], ivs[j + 1]); }
      InsertOrdered(iv, tail);
      forall i | 0 <= i < |tail| ensures Before(ivs[0], tail[i]) { assert Before(ivs[0], ivs[i + 1]); }
      InsertAfter(ivs[0], iv, tail);
      forall i, j | 0 <= i < j < |out| ensures Before(out[i], out[j]) {
        assert out[j] == rest[j - 1];
        assert i > 0 ==> Before(rest[i - 1], rest[j - 1]);
      }
    }
  }

  lemma {:induction false} SortKeeps(ivs: seq<TimeInterval>)
    ensures Ordered(Sort(ivs)) && multiset(Sort(ivs)) == multiset(ivs)
  {
    if ivs != [] {
      SortKeeps(ivs[1..]);
      InsertOrdered(ivs[0], Sort(ivs[1..]));
      InsertMultiset(ivs[0], Sort(ivs[1..]));
      assert ivs == [ivs[0]] + ivs[1..];
    }
  }

  lemma SameMembers(a: seq<TimeInterval>, b: seq<TimeInterval>)
    requires multiset(a) == multiset(b)
    ensures forall x :: Covers(a, x) ==> Covers(b, x)
  {
    forall x | Covers(a, x) ensures Covers(b, x) {
      var i :| 0 <= i < |a| && Has(a[i], x);
      assert a[i] in multiset(a);
      assert a[i] in b;
      var j :| 0 <= j < |b| && b[j] == a[i];
      assert Has(b[j], x);
    }
  }

  lemma CoversAppend(ivs: seq<TimeInterval>, iv: TimeInterval, x: int)
    ensures Covers(ivs + [iv], x) <==> Covers(ivs, x) || Has(iv, x)
  {
    var all := ivs + [iv];
    if Covers(ivs, x) {
      var i :| 0 <= i < |ivs| && Has(ivs[i], x);
      assert Has(all[i], x);
    }
    if Has(iv, x) { assert Has(all[|ivs|], x); }
    if Covers(all, x) {
      var i :| 0 <= i < |all| && Has(all[i], x);
      if i < |ivs| { assert Has(ivs[i], x); }
    }
  }

  /** Extending the last interval over a touching one covers exactly both. */
  lemma MergeLast(init: seq<TimeInterval>, last: TimeInterval, iv: TimeInterval, grown: TimeInterval, x: int)
    requires last.min <= iv.min <= last.max + 1
    requires grown == Span(last.min, if last.max >= iv.max then last.max else iv.max)
    ensures Covers(init + [grown], x) <==> Covers(init + [last], x) || Has(iv, x)
  {
    CoversAppend(init, grown, x);
    CoversAppend(init, last, x);
  }

  ghost predicate NormalizedSo(out: seq<TimeInterval>, seen: seq<TimeInterval>) {
    && Normalized(out)
    && (forall x :: Covers(out, x) <==> Covers(seen, x))
    && (out == [] <==> seen == [])
    && (forall i, j :: 0 <= i < |out| && 0 <= j < |seen| && i == |out| - 1 && j == |seen| - 1 ==>
        out[i].min <= seen[j].min)
  }

  lemma Push(out: seq<TimeInterval>, seen: seq<TimeInterval>, iv: TimeInterval)
    requires NormalizedSo(out, seen) && (out != [] ==> Gap(out[|out| - 1], iv))
    ensures NormalizedSo(out + [iv], seen + [iv])
  {
    var all := out + [iv];
    forall i, j | 0 <= i < j < |all| ensures Gap(all[i], all[j]) {
      if j < |out| { assert Gap(out[i], out[j]); } else if i < |out| - 1 { assert Gap(out[i], out[|out| - 1]); }
    }
    forall x ensures Covers(all, x) <==> Covers(seen + [iv], x) {
      CoversAppend(out, iv, x);
      CoversAppend(seen, iv, x);
    }
  }

  lemma Grow(out: seq<TimeInterval>, seen: seq<TimeInterval>, iv: TimeInterval, grown: TimeInterval)
    requires NormalizedSo(out, seen) && out != []
    requires var last := out[|out| - 1];
      last.min <= iv.min <= last.max + 1 && grown == Span(last.min, if last.max >= iv.max then last.max else iv.max)
    ensures NormalizedSo(out[..|out| - 1] + [grown], seen + [iv])
  {
    var n := |out| - 1;
    var init, all := out[..n], out[..n] + [grown];
    assert out == init + [out[n]];
    forall i, j | 0 <= i < j < |all| ensures Gap(all[i], all[j]) { assert Gap(out[i], out[j]); }
    forall x ensures Covers(all, x) <==> Covers(seen + [iv], x) {
      MergeLast(init, out[n], iv, grown, x);
      CoversAppend(seen, iv, x);
    }
  }

  /** Sort, then merge what overlaps or touches.  The result is the canonical list of the same
      instants, and the arithmetic stays within 64 bits at both ends of the axis. */
  method NormalizeIntervals(ivs: seq<TimeInterval>) returns (out: seq<TimeInterval>)
    ensures Normalized(out)
    ensures forall x :: Covers(out, x) <==> Covers(ivs, x)
    ensures out == [] <==> ivs == []
  {
    var sorted := Sort(ivs);
    SortKeeps(ivs);
    out := [];
    assert sorted[..0] == [];
    hide Normalized, Covers, Sort;
    NothingYet();
    for i := 0 to |sorted|
      invariant NormalizedSo(out, sorted[..i])
    {
      var iv := sorted[i];
      assert sorted[..i + 1] == sorted[..i] + [iv];
      if out == [] {
        Push(out, sorted[..i], iv);
        out := [iv];
      } else {
        var last := out[|out| - 1];
        assert Before(sorted[i - 1], sorted[i]);
        assert last.min <= sorted[..i][i - 1].min;
        if last.max == I64_MAX || iv.min <= last.max || iv.min == last.max + 1 {
          var max: I64 := if last.max >= iv.max then last.max else iv.max;
          Grow(out, sorted[..i], iv, Span(last.min, max));
          out := out[..|out| - 1] + [Span(last.min, max)];
        } else {
          Push(out, sorted[..i], iv);
          out := out + [iv];
        }
      }
    }
    assert sorted[..|sorted|] == sorted;
    SameMembers(sorted, ivs);
    SameMembers(ivs, sorted);
    assert |multiset(sorted)| == |sorted| && |multiset(ivs)| == |ivs|;
  }

  lemma NothingYet()
    ensures NormalizedSo([], [])
  {
  }
}
