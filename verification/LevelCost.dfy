/**
 What the segments of a level cost over any run of builds.

 A build seals at most one segment and merges until the size-tiered policy is satisfied.  Where a merged
 file is as large as its inputs together, the policy's bounds on bytes rewritten and on live segments
 hold of the level itself.
 */
module LevelCost {
  import opened Wrappers
  import opened Aggregate
  import opened SegmentCache
  import opened SourceSet
  import opened ResDirectory
  import opened Rollup
  import opened LevelBuild
  import SizeTier

  /** One build: the segment it sealed, if any, and the lists of its compaction. */
  datatype Growth = Growth(next: nat, sealed: seq<Segment>, trail: seq<seq<Segment>>)

  ghost predicate Grows(segs: seq<Segment>, b: Growth, maxSegments: nat, sizeOf: Content -> SizeTier.U64) {
    && |b.sealed| <= 1 && b.trail != [] && b.trail[0] == segs + b.sealed
    && Trail(b.trail, b.next, maxSegments, sizeOf)
    && SizeTier.Chosen(Bytes(Last(b)), maxSegments, None)
  }

  /** The list a build ends with. */
  ghost function Last(b: Growth): seq<Segment> {
    if b.trail == [] then [] else b.trail[|b.trail| - 1]
  }

  /** The list after the first `n` builds. */
  ghost function After(builds: seq<Growth>, n: nat): seq<Segment>
    requires n <= |builds|
  {
    if n == 0 then [] else Last(builds[n - 1])
  }

  /** Builds of one level from nothing, none of which reopens what is sealed. */
  ghost predicate LevelRun(builds: seq<Growth>, maxSegments: nat, sizeOf: Content -> SizeTier.U64) {
    forall i :: 0 <= i < |builds| ==> Grows(After(builds, i), builds[i], maxSegments, sizeOf)
  }

  /** A build that continues the manifest it starts from is such a growth. */
  lemma GrewGrows(m0: Manifest, m: Manifest, all: Content, policy: Policy, g: Grid, sizeOf: Content -> SizeTier.U64)
    returns (b: Growth)
    requires g.Valid() && Grew(m0, m, all, policy, g, sizeOf)
    ensures Grows(m0.segments, b, policy.maxSegments, sizeOf) && Last(b) == m.segments
    ensures forall i :: 0 <= i < |b.sealed| ==> b.sealed[i].bytes == sizeOf(b.sealed[i].digest)
  {
    hide Merged, SizeTier.Chosen, AgreeFrom, Slice, SealPoint;
    var full, s, trail :| Grown(m0, s, trail, m, full, policy, g, sizeOf) && AgreeFrom(full, all, m0.sealedHi);
    var sealed: seq<Segment> := [];
    if full != map[] {
      var span := SpansExist(full);
      match SealPoint(m0, policy, g, span.0, span.1) {
        case None =>
        case Some(wm) =>
          var content := Slice(full, m0.sealedHi, Some(wm));
          if content != map[] { sealed := [Segment(m0.nextSeq, m0.sealedHi, wm, content, sizeOf(content))]; }
      }
    }
    assert m0.segments + [] == m0.segments;
    b := Growth(s.nextSeq, sealed, trail);
  }

  // ----- sizes -----

  /** The merged file is as large as the files it replaces. */
  ghost predicate SumsUp(a: seq<Segment>, b: seq<Segment>, maxSegments: nat) {
    forall w: SizeTier.Window ::
      SizeTier.Chosen(Bytes(a), maxSegments, Some(w)) && w.start < w.end <= |a| && w.start < |b| ==>
      b[w.start].bytes == SizeTier.Sum(Bytes(a)[w.start..w.end])
  }

  ghost predicate Additive(b: Growth, maxSegments: nat) {
    && (forall i :: 0 <= i < |b.sealed| ==> b.sealed[i].bytes >= 1)
    && (forall i, j :: 0 <= i && j == i + 1 && j < |b.trail| ==> SumsUp(b.trail[i], b.trail[j], maxSegments))
  }

  /** No list on the way was over the limit, so no merge was the backstop's. */
  ghost predicate WithinLimit(b: Growth, maxSegments: nat) {
    forall i :: 0 <= i < |b.trail| ==> |b.trail[i]| <= maxSegments
  }

  lemma MergedSizes(a: seq<Segment>, b: seq<Segment>, next: nat, maxSegments: nat, sizeOf: Content -> SizeTier.U64)
    returns (w: SizeTier.Window)
    requires Merged(a, b, next, maxSegments, sizeOf) && SumsUp(a, b, maxSegments)
    ensures SizeTier.Chosen(Bytes(a), maxSegments, Some(w)) && w.start < w.end <= |a|
    ensures Bytes(b) == SizeTier.Splice(Bytes(a), w)
  {
    hide SizeTier.Chosen, ReadAll;
    w :| && SizeTier.Chosen(Bytes(a), maxSegments, Some(w))
         && w.start < w.end <= |a| && b == Replace(a, w, MergeOf(a, w, next, sizeOf));
    assert b[w.start].bytes == SizeTier.Sum(Bytes(a)[w.start..w.end]);
    ReplaceSizes(a, w, b[w.start]);
  }

  lemma ReplaceSizes(a: seq<Segment>, w: SizeTier.Window, s: Segment)
    requires w.start < w.end <= |a| && s.bytes == SizeTier.Sum(Bytes(a)[w.start..w.end])
    ensures Bytes(Replace(a, w, s)) == SizeTier.Splice(Bytes(a), w)
  {
    var b, sizes := Replace(a, w, s), SizeTier.Splice(Bytes(a), w);
    assert |b| == |sizes|;
    forall i | 0 <= i < |b| ensures b[i].bytes == sizes[i] {
      if i > w.start { assert b[i] == a[i + (w.end - w.start - 1)]; }
    }
  }

  /** The bytes the policy's next merge rewrites. */
  ghost function Rewrites(segs: seq<Segment>, maxSegments: nat): nat {
    if exists w: SizeTier.Window :: ChosenWindow(segs, maxSegments, w) then
      var w: SizeTier.Window :| ChosenWindow(segs, maxSegments, w);
      SizeTier.Sum(Bytes(segs)[w.start..w.end])
    else 0
  }

  ghost predicate ChosenWindow(segs: seq<Segment>, maxSegments: nat, w: SizeTier.Window) {
    SizeTier.Chosen(Bytes(segs), maxSegments, Some(w)) && w.start < w.end <= |segs|
  }

  lemma RewritesIs(segs: seq<Segment>, maxSegments: nat, w: SizeTier.Window)
    requires ChosenWindow(segs, maxSegments, w)
    ensures Rewrites(segs, maxSegments) == SizeTier.Sum(Bytes(segs)[w.start..w.end])
  {
    hide SizeTier.Chosen, SizeTier.Sum;
    forall v: SizeTier.Window | ChosenWindow(segs, maxSegments, v) ensures v == w {
      SizeTier.ChosenUnique(Bytes(segs), maxSegments, Some(v), Some(w));
    }
  }

  ghost function TrailCost(trail: seq<seq<Segment>>, k: nat, maxSegments: nat): nat
    requires k <= |trail|
  {
    if k == 0 then 0 else TrailCost(trail, k - 1, maxSegments) + Rewrites(trail[k - 1], maxSegments)
  }

  /** Bytes sealed and bytes rewritten by the first `n` builds. */
  ghost function Appended(builds: seq<Growth>, n: nat): nat
    requires n <= |builds|
  {
    if n == 0 then 0 else Appended(builds, n - 1) + SizeTier.Sum(Bytes(builds[n - 1].sealed))
  }

  ghost function Rewritten(builds: seq<Growth>, n: nat, maxSegments: nat): nat
    requires n <= |builds|
  {
    if n == 0 then 0 else Rewritten(builds, n - 1, maxSegments) + Cost(builds[n - 1], maxSegments)
  }

  ghost function Cost(b: Growth, maxSegments: nat): nat {
    if b.trail == [] then 0 else TrailCost(b.trail, |b.trail| - 1, maxSegments)
  }

  // ----- write amplification -----

  lemma {:induction false} PaidTrail(b: Growth, k: nat, appended: nat, rewritten: nat, maxSegments: nat,
                                     sizeOf: Content -> SizeTier.U64)
    requires k < |b.trail| && Trail(b.trail, b.next, maxSegments, sizeOf)
    requires Additive(b, maxSegments) && WithinLimit(b, maxSegments)
    requires SizeTier.Paid(SizeTier.Store(Bytes(b.trail[0]), appended, rewritten))
    ensures SizeTier.Paid(SizeTier.Store(Bytes(b.trail[k]), appended, rewritten + TrailCost(b.trail, k, maxSegments)))
  {
    hide Merged, SumsUp, SizeTier.Chosen, SizeTier.Paid, SizeTier.Splice, SizeTier.Sum, Rewrites;
    if k > 0 {
      PaidTrail(b, k - 1, appended, rewritten, maxSegments, sizeOf);
      var a, c := b.trail[k - 1], b.trail[k];
      assert SumsUp(a, c, maxSegments);
      var w := MergedSizes(a, c, b.next + (k - 1), maxSegments, sizeOf);
      RewritesIs(a, maxSegments, w);
      var cost := rewritten + TrailCost(b.trail, k - 1, maxSegments);
      var s, t := SizeTier.Store(Bytes(a), appended,
                                 cost), SizeTier.Store(Bytes(c), appended, cost + Rewrites(a, maxSegments));
      assert SizeTier.MergeStep(s, t, maxSegments);
      SizeTier.PaidMerge(s, t, maxSegments);
    }
  }

  lemma PaidSeal(segs: seq<Segment>, sealed: seq<Segment>, appended: nat, rewritten: nat)
    requires |sealed| <= 1 && forall i :: 0 <= i < |sealed| ==> sealed[i].bytes >= 1
    requires SizeTier.Paid(SizeTier.Store(Bytes(segs), appended, rewritten))
    ensures SizeTier.Paid(SizeTier.Store(Bytes(segs + sealed), appended + SizeTier.Sum(Bytes(sealed)), rewritten))
  {
    hide SizeTier.Paid;
    if sealed == [] {
      assert segs + sealed == segs;
    } else {
      var b := sealed[0].bytes;
      assert Bytes(segs + sealed) == Bytes(segs) + [b];
      assert Bytes(sealed) == [b] && SizeTier.Sum([b]) == b;
      var s, t := SizeTier.Store(Bytes(segs), appended,
                                 rewritten), SizeTier.Store(Bytes(segs) + [b], appended + b, rewritten);
      assert SizeTier.AppendStep(s, t);
      SizeTier.PaidAppend(s, t);
    }
  }

  lemma PaidBuild(segs: seq<Segment>, b: Growth, appended: nat, rewritten: nat, maxSegments: nat,
                  sizeOf: Content -> SizeTier.U64)
    requires Grows(segs, b, maxSegments, sizeOf) && Additive(b, maxSegments) && WithinLimit(b, maxSegments)
    requires SizeTier.Paid(SizeTier.Store(Bytes(segs), appended, rewritten))
    ensures SizeTier.Paid(SizeTier.Store(Bytes(Last(b)), appended + SizeTier.Sum(Bytes(b.sealed)),
                                         rewritten + Cost(b, maxSegments)))
  {
    hide SizeTier.Paid, Trail, SizeTier.Chosen, WithinLimit, SizeTier.Sum, TrailCost;
    PaidSeal(segs, b.sealed, appended, rewritten);
    PaidTrail(b, |b.trail| - 1, appended + SizeTier.Sum(Bytes(b.sealed)), rewritten, maxSegments, sizeOf);
  }

  lemma {:induction false} PaidLevel(builds: seq<Growth>, n: nat, maxSegments: nat, sizeOf: Content -> SizeTier.U64)
    requires LevelRun(builds, maxSegments, sizeOf) && n <= |builds|
    requires forall i :: 0 <= i < |builds| ==> Additive(builds[i], maxSegments) && WithinLimit(builds[i], maxSegments)
    ensures SizeTier.Paid(SizeTier.Store(Bytes(After(builds, n)), Appended(builds, n),
                                         Rewritten(builds, n, maxSegments)))
  {
    hide SizeTier.Paid, Grows, Additive, WithinLimit, SizeTier.Sum, Cost, Last, Bytes;
    if n == 0 {
      PaidNothing();
    } else {
      PaidLevel(builds, n - 1, maxSegments, sizeOf);
      assert Grows(After(builds, n - 1), builds[n - 1], maxSegments, sizeOf);
      PaidBuild(After(builds, n - 1), builds[n - 1], Appended(builds, n - 1), Rewritten(builds, n - 1, maxSegments),
                maxSegments, sizeOf);
    }
  }

  lemma PaidNothing()
    ensures SizeTier.Paid(SizeTier.Store(Bytes([]), 0, 0))
  {
    assert Bytes([]) == [];
  }

  /** Over any run of builds of a level whose merged files add up and whose lists stay within the limit,
      the bytes rewritten are at most the size class of the level times the bytes sealed. */
  lemma LevelAmplification(builds: seq<Growth>, n: nat, maxSegments: nat, sizeOf: Content -> SizeTier.U64)
    requires LevelRun(builds, maxSegments, sizeOf) && n <= |builds|
    requires forall i :: 0 <= i < |builds| ==> Additive(builds[i], maxSegments) && WithinLimit(builds[i], maxSegments)
    ensures Rewritten(builds, n, maxSegments) <= SizeTier.Class(Appended(builds, n)) * Appended(builds, n)
    ensures Appended(builds, n) <= SizeTier.U64_MAX ==>
      Rewritten(builds, n, maxSegments) <= SizeTier.TOP_CLASS * Appended(builds, n)
  {
    hide SizeTier.Paid, LevelRun, SizeTier.Class, Rewritten, Appended, WithinLimit, Additive;
    PaidLevel(builds, n, maxSegments, sizeOf);
    SizeTier.PaidBound(SizeTier.Store(Bytes(After(builds, n)), Appended(builds, n), Rewritten(builds, n, maxSegments)));
  }

  // ----- live segments -----

  /** What is sealed has size class `k`. */
  ghost predicate OfClass(b: Growth, k: nat) {
    forall i :: 0 <= i < |b.sealed| ==> SizeTier.Class(b.sealed[i].bytes) == k
  }

  lemma {:induction false} TidyTrail(b: Growth, j: nat, k: nat, limit: int, maxSegments: nat,
                                     sizeOf: Content -> SizeTier.U64)
    requires j < |b.trail| && Trail(b.trail, b.next, maxSegments, sizeOf) && Additive(b, maxSegments)
    requires limit + 1 <= maxSegments && SizeTier.Tidy(Bytes(b.trail[0]), k, limit)
    ensures SizeTier.Tidy(Bytes(b.trail[j]), k, limit)
    ensures SizeTier.Sum(Bytes(b.trail[j])) == SizeTier.Sum(Bytes(b.trail[0]))
  {
    hide Merged, SumsUp, SizeTier.Chosen, SizeTier.Tidy, SizeTier.Splice, SizeTier.Sum;
    if j > 0 {
      TidyTrail(b, j - 1, k, limit, maxSegments, sizeOf);
      var a, c := b.trail[j - 1], b.trail[j];
      assert SumsUp(a, c, maxSegments);
      var w := MergedSizes(a, c, b.next + (j - 1), maxSegments, sizeOf);
      assert SizeTier.SteadyMerge(Bytes(a), Bytes(c), maxSegments);
      SizeTier.MergeTidy(Bytes(a), Bytes(c), k, maxSegments, limit);
      SizeTier.SumSplice(Bytes(a), w);
    }
  }

  lemma TidyBuild(segs: seq<Segment>, b: Growth, k: nat, total: nat, maxSegments: nat, sizeOf: Content -> SizeTier.U64)
    requires Grows(segs, b, maxSegments, sizeOf) && Additive(b, maxSegments) && OfClass(b, k)
    requires SizeTier.Tidy(Bytes(segs), k, SizeTier.Ceiling(total, k))
    requires SizeTier.Chosen(Bytes(segs), maxSegments, None)
    requires SizeTier.Sum(Bytes(segs)) <= total && k <= SizeTier.Class(total)
    requires maxSegments >= SizeTier.Ceiling(total, k) + 1
    ensures SizeTier.Tidy(Bytes(Last(b)), k, SizeTier.Ceiling(total, k)) && WithinLimit(b, maxSegments)
    ensures SizeTier.Sum(Bytes(Last(b))) == SizeTier.Sum(Bytes(segs)) + SizeTier.Sum(Bytes(b.sealed))
  {
    hide SizeTier.Tidy, Trail, SizeTier.Chosen, SizeTier.Sum, SizeTier.Class, SizeTier.Ceiling, Bytes;
    var limit := SizeTier.Ceiling(total, k);
    TidySeal(segs, b.sealed, k, total, maxSegments);
    forall j | 0 <= j < |b.trail|
      ensures SizeTier.Tidy(Bytes(b.trail[j]), k, limit) && |b.trail[j]| <= maxSegments
      ensures SizeTier.Sum(Bytes(b.trail[j])) == SizeTier.Sum(Bytes(b.trail[0]))
    {
      TidyTrail(b, j, k, limit, maxSegments, sizeOf);
      TidyCount(b.trail[j], k, limit);
    }
  }

  lemma {:induction false} TidyLevel(builds: seq<Growth>, n: nat, k: nat, total: nat, maxSegments: nat,
                                     sizeOf: Content -> SizeTier.U64)
    requires LevelRun(builds, maxSegments, sizeOf) && n <= |builds|
    requires forall i :: 0 <= i < |builds| ==> Additive(builds[i], maxSegments) && OfClass(builds[i], k)
    requires Appended(builds, n) <= total && k <= SizeTier.Class(total) && maxSegments >= SizeTier.Ceiling(total, k) + 1
    ensures SizeTier.Tidy(Bytes(After(builds, n)), k, SizeTier.Ceiling(total, k))
    ensures SizeTier.Sum(Bytes(After(builds, n))) == Appended(builds, n)
    ensures SizeTier.Chosen(Bytes(After(builds, n)), maxSegments, None)
    ensures n > 0 ==> WithinLimit(builds[n - 1], maxSegments)
  {
    hide SizeTier.Tidy, SizeTier.Chosen, SizeTier.Sum, SizeTier.Class, Grows, Additive, OfClass, Bytes, Last,
         WithinLimit;
    if n == 0 {
      NothingTidy(k, SizeTier.Ceiling(total, k), maxSegments);
    } else {
      var segs, b := After(builds, n - 1), builds[n - 1];
      TidyLevel(builds, n - 1, k, total, maxSegments, sizeOf);
      assert Grows(segs, b, maxSegments, sizeOf);
      TidyBuild(segs, b, k, total, maxSegments, sizeOf);
      GrowsChosen(segs, b, maxSegments, sizeOf);
    }
  }

  lemma GrowsChosen(segs: seq<Segment>, b: Growth, maxSegments: nat, sizeOf: Content -> SizeTier.U64)
    requires Grows(segs, b, maxSegments, sizeOf)
    ensures SizeTier.Chosen(Bytes(Last(b)), maxSegments, None)
  {
  }

  lemma TidyCount(segs: seq<Segment>, k: nat, limit: int)
    requires SizeTier.Tidy(Bytes(segs), k, limit)
    ensures |segs| <= limit + 1
  {
  }

  lemma NothingTidy(k: nat, limit: int, maxSegments: nat)
    requires limit >= 0
    ensures SizeTier.Tidy(Bytes([]), k, limit) && SizeTier.Sum(Bytes([])) == 0
    ensures SizeTier.Chosen(Bytes([]), maxSegments, None)
  {
    assert Bytes([]) == [];
  }

  lemma TidySeal(segs: seq<Segment>, sealed: seq<Segment>, k: nat, total: nat, maxSegments: nat)
    requires |sealed| <= 1
    requires forall i :: 0 <= i < |sealed| ==> sealed[i].bytes >= 1 && SizeTier.Class(sealed[i].bytes) == k
    requires SizeTier.Tidy(Bytes(segs), k, SizeTier.Ceiling(total, k))
    requires SizeTier.Chosen(Bytes(segs), maxSegments, None)
    requires SizeTier.Sum(Bytes(segs)) <= total && k <= SizeTier.Class(total)
    ensures SizeTier.Tidy(Bytes(segs + sealed), k, SizeTier.Ceiling(total, k))
    ensures SizeTier.Sum(Bytes(segs + sealed)) == SizeTier.Sum(Bytes(segs)) + SizeTier.Sum(Bytes(sealed))
  {
    hide SizeTier.Tidy, SizeTier.Chosen, SizeTier.Class;
    assert Bytes(segs + sealed) == Bytes(segs) + Bytes(sealed);
    SizeTier.SumConcat(Bytes(segs), Bytes(sealed));
    if sealed == [] {
      assert segs + sealed == segs;
    } else {
      var b := sealed[0].bytes;
      assert Bytes(sealed) == [b];
      assert SizeTier.SteadyAppend(Bytes(segs), Bytes(segs) + [b], k, maxSegments);
      SizeTier.AppendTidy(Bytes(segs), Bytes(segs) + [b], k, maxSegments, total);
    }
  }

  lemma {:induction false} SealedClass(builds: seq<Growth>, i: nat, n: nat, k: nat, maxSegments: nat)
    requires i < n <= |builds| && builds[i].sealed != [] && OfClass(builds[i], k)
    ensures k <= SizeTier.Class(Appended(builds, n))
    decreases n
  {
    hide SizeTier.Class;
    if i < n - 1 {
      SealedClass(builds, i, n - 1, k, maxSegments);
      SizeTier.ClassMono(Appended(builds, n - 1), Appended(builds, n));
    } else {
      var b := builds[i].sealed[0].bytes;
      assert Bytes(builds[i].sealed)[0] == b;
      SizeTier.ClassMono(b, Appended(builds, n));
    }
  }

  /** Over any run of builds that seal segments of one size class, whose merged files add up: after each build
      the level has at most nine segments for each class up to that of its bytes, and was within the
      limit throughout, so the bound on rewriting applies. */
  lemma LevelCount(builds: seq<Growth>, n: nat, k: nat, maxSegments: nat, sizeOf: Content -> SizeTier.U64)
    requires LevelRun(builds, maxSegments, sizeOf) && 0 < n <= |builds|
    requires forall i :: 0 <= i < |builds| ==> Additive(builds[i], maxSegments) && OfClass(builds[i], k)
    requires exists i :: 0 <= i < n && builds[i].sealed != []
    requires maxSegments >= SizeTier.Ceiling(Appended(builds, n), k) + 1
    ensures |After(builds, n)| <= SizeTier.Ceiling(Appended(builds, n), k)
    ensures WithinLimit(builds[n - 1], maxSegments)
  {
    hide LevelRun, Additive, OfClass, SizeTier.Class, SizeTier.Sum, SizeTier.Chosen, WithinLimit;
    var i :| 0 <= i < n && builds[i].sealed != [];
    SealedClass(builds, i, n, k, maxSegments);
    TidyLevel(builds, n, k, Appended(builds, n), maxSegments, sizeOf);
    SizeTier.FixpointCount(Bytes(After(builds, n)), k, maxSegments);
  }
}
