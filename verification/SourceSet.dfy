/**
 The source a resolution is reduced from: the live versions of every source node, each
 named by a content-derived identity and carrying its recorded event-time range.

 The results say which buckets a change of the source set can reach, and that pruning
 versions by their recorded range loses no row of the buckets being rebuilt.
 */
module SourceSet {
  import opened Wrappers
  import opened Int64
  import opened Aggregate
  import opened SegmentCache

  const MICROS: int := 1_000_000

  /** Inclusive event-time range in microseconds. */
  datatype SourceRange = SourceRange(minUs: I64, maxUs: I64)

  /** Identity of one live version; it is derived from content, so it determines the rows. */
  datatype VersionId = VersionId(id: nat, rows: seq<Row>)

  type Sources = map<VersionId, SourceRange>

  ghost predicate RangeCovers(v: VersionId, r: SourceRange) {
    forall i :: 0 <= i < |v.rows| ==> r.minUs <= v.rows[i].t <= r.maxUs
  }

  /** Every recorded range covers its rows; an unrecorded range is the whole 64-bit axis. */
  ghost predicate Truthful(s: Sources) {
    forall v :: v in s ==> RangeCovers(v, s[v])
  }

  /** Buckets are `width` whole seconds, aligned to the epoch; event times are microseconds. */
  ghost predicate SecondGrid(g: Grid) {
    g.Valid() && g.origin == 0 && g.tick == MICROS
  }

  // ----- rows of a set of versions -----

  /** All rows, versions in some order; the reduction does not depend on the order. */
  ghost function AllRows(vs: set<VersionId>): seq<Row> {
    if vs == {} then []
    else
      var v :| v in vs;
      v.rows + AllRows(vs - {v})
  }

  ghost function Direct(vs: set<VersionId>, g: Grid): Content
    requires g.Valid()
  {
    Reduce(AllRows(vs), g)
  }

  /** The rows of a set of versions are the rows of each of them, once, in whatever order they are listed. */
  lemma {:induction false} AllRowsHold(vs: set<VersionId>, v: VersionId)
    requires v in vs
    ensures multiset(AllRows(vs)) == multiset(v.rows) + multiset(AllRows(vs - {v}))
  {
    var x :| x in vs && AllRows(vs) == x.rows + AllRows(vs - {x});
    if x != v {
      AllRowsHold(vs - {x}, v);
      AllRowsHold(vs - {v}, x);
      assert vs - {x} - {v} == vs - {v} - {x};
    }
  }

  /** What is served for a window and group summarizes the rows of all versions that lie in it. */
  lemma DirectMeans(vs: set<VersionId>, g: Grid, k: PartialKey)
    requires g.Valid()
    ensures k in Direct(vs, g) <==> Members(AllRows(vs), g, k) != []
    ensures k in Direct(vs, g) ==> Summarizes(Direct(vs, g)[k], Members(AllRows(vs), g, k))
  {
    hide Summarizes, AllRows, Members;
    ReduceMeans(AllRows(vs), g, k);
  }

  lemma {:induction false} AllRowsRemove(vs: set<VersionId>, v: VersionId, g: Grid, k: PartialKey)
    requires g.Valid() && v in vs
    ensures Fold(AllRows(vs), g, k) == Merge(Fold(v.rows, g, k), Fold(AllRows(vs - {v}), g, k))
    decreases |vs|
  {
    hide Merge, Fold;
    var x :| x in vs && AllRows(vs) == x.rows + AllRows(vs - {x});
    FoldConcat(x.rows, AllRows(vs - {x}), g, k);
    if x != v {
      AllRowsRemove(vs - {x}, v, g, k);
      AllRowsRemove(vs - {v}, x, g, k);
      assert vs - {x} - {v} == vs - {v} - {x};
      var fx, fv, rest := Fold(x.rows, g, k), Fold(v.rows, g, k), Fold(AllRows(vs - {x} - {v}), g, k);
      MergeLaws(fx, fv, rest);
      MergeLaws(fv, fx, rest);
    }
  }

  /** Versions that say nothing about `k` can be dropped. */
  lemma {:induction false} SilentDrop(vs: set<VersionId>, ds: set<VersionId>, g: Grid, k: PartialKey)
    requires g.Valid() && ds <= vs
    requires forall v :: v in ds ==> Fold(v.rows, g, k) == EMPTY
    ensures Fold(AllRows(vs), g, k) == Fold(AllRows(vs - ds), g, k)
    decreases |ds|
  {
    hide Merge, Fold;
    if ds == {} {
      assert vs - ds == vs;
    } else {
      var v :| v in ds;
      AllRowsRemove(vs, v, g, k);
      SilentDrop(vs - {v}, ds - {v}, g, k);
      assert vs - {v} - (ds - {v}) == vs - ds;
      MergeLaws(Fold(AllRows(vs - {v}), g, k), EMPTY, EMPTY);
    }
  }

  /** Equal partials give equal entries. */
  lemma DirectEntry(vs: set<VersionId>, ws: set<VersionId>, g: Grid, k: PartialKey)
    requires g.Valid() && Fold(AllRows(vs), g, k) == Fold(AllRows(ws), g, k)
    ensures k in Direct(vs, g) <==> k in Direct(ws, g)
    ensures k in Direct(vs, g) ==> Direct(vs, g)[k] == Direct(ws, g)[k]
  {
    hide Fold, Keys, KeyOf;
    FoldPresence(AllRows(vs), g, k);
    FoldPresence(AllRows(ws), g, k);
  }

  // ----- which buckets a row can reach -----

  lemma FloorBounds(x: int, g: Grid)
    requires g.Valid()
    ensures g.Floor(x) <= x
  {
  }

  lemma FloorMono(x: int, y: int, g: Grid)
    requires g.Valid() && x <= y
    ensures g.Floor(x) <= g.Floor(y)
  {
    var a, b := (x - g.origin) / g.width, (y - g.origin) / g.width;
    assert x - g.origin == a * g.width + (x - g.origin) % g.width;
    assert y - g.origin == b * g.width + (y - g.origin) % g.width;
    if a <= b {
      MulLe(a, b, g.width);
    } else {
      MulLe(b + 1, a, g.width);
    }
  }

  lemma TickMono(t: int, u: int, tick: int)
    requires tick > 0 && t <= u
    ensures t / tick <= u / tick
  {
    FloorMono(t, u, Grid(tick, 0, 1));
    var a, b := t / tick, u / tick;
    assert t == a * tick + t % tick && u == b * tick + u % tick;
    if b < a { MulLe(b + 1, a, tick); }
  }

  lemma BucketMono(t: int, u: int, g: Grid)
    requires g.Valid() && t <= u
    ensures g.Bucket(t) <= g.Bucket(u)
  {
    TickMono(t, u, g.tick);
    FloorMono(t / g.tick, u / g.tick, g);
  }

  lemma SilentBelow(v: VersionId, g: Grid, k: PartialKey, us: int)
    requires g.Valid() && (forall i :: 0 <= i < |v.rows| ==> us <= v.rows[i].t)
    requires k.bucket < g.Bucket(us)
    ensures Fold(v.rows, g, k) == EMPTY
  {
    hide Fold;
    FoldPresence(v.rows, g, k);
    forall i | 0 <= i < |v.rows| ensures KeyOf(v.rows[i], g) != k {
      BucketMono(us, v.rows[i].t, g);
    }
  }

  lemma SilentAbove(v: VersionId, g: Grid, k: PartialKey, secs: int)
    requires SecondGrid(g) && (forall i :: 0 <= i < |v.rows| ==> v.rows[i].t < secs * MICROS)
    requires k.bucket >= secs
    ensures Fold(v.rows, g, k) == EMPTY
  {
    hide Fold;
    FoldPresence(v.rows, g, k);
    forall i | 0 <= i < |v.rows| ensures KeyOf(v.rows[i], g) != k {
      FloorBounds(v.rows[i].t / g.tick, g);
    }
  }

  // ----- the dirty point of a change -----

  /** `v` was added, dropped, or had its recorded range changed. */
  predicate Noted(before: Sources, after: Sources, v: VersionId) {
    (v in after && (v !in before || before[v] != after[v])) || (v in before && v !in after)
  }

  /** What a source set records of a version. */
  function Entry(s: Sources, v: VersionId): Option<SourceRange> {
    if v in s then Some(s[v]) else None
  }

  /** A version is noted exactly when the two sets record something else of it, so a change always notes one. */
  lemma NotedIff(before: Sources, after: Sources)
    ensures forall v :: Noted(before, after, v) <==> Entry(before, v) != Entry(after, v)
    ensures before != after <==> exists v :: Noted(before, after, v)
  {
    if forall v :: Entry(before, v) == Entry(after, v) {
      forall v ensures (v in before <==> v in after) && (v in before ==> before[v] == after[v]) {
        assert Entry(before, v) == Entry(after, v);
      }
      assert before == after;
    }
  }

  function NotedMin(before: Sources, after: Sources, v: VersionId): I64
    requires v in before || v in after
  {
    if v in after then after[v].minUs else before[v].minUs
  }

  /** The oldest event time the symmetric difference of the source sets touches; none when it
      reaches the beginning of time. */
  ghost predicate IsDirtyLo(before: Sources, after: Sources, lo: Option<int>) {
    && (lo.Some? ==> forall v :: v in before.Keys + after.Keys && Noted(before, after, v) ==>
        lo.value <= NotedMin(before, after, v))
    && (lo.Some? ==>
        && lo.value > I64_MIN
        && exists v ::
             v in before.Keys + after.Keys && Noted(before, after, v) && lo.value == NotedMin(before, after, v))
    && (lo.None? && before != after ==>
          exists v :: v in before.Keys + after.Keys && Noted(before, after, v) && NotedMin(before, after, v) == I64_MIN)
  }

  lemma DirtyLoUnique(before: Sources, after: Sources, a: Option<int>, b: Option<int>)
    requires before != after && Truthful(before) && Truthful(after)
    requires IsDirtyLo(before, after, a) && IsDirtyLo(before, after, b)
    ensures a == b
  {
    if a.Some? {
      var v :| v in before.Keys + after.Keys && Noted(before, after, v) && a.value == NotedMin(before, after, v);
      assert b.Some? ==> b.value <= a.value;
    }
    if b.Some? {
      var v :| v in before.Keys + after.Keys && Noted(before, after, v) && b.value == NotedMin(before, after, v);
      assert a.Some? ==> a.value <= b.value;
    }
  }

  /** Oldest event time the symmetric difference touches; `None` when it reaches the beginning
      of time (or when nothing differs). */
  method DirtyLoUs(before: Sources, after: Sources) returns (lo: Option<int>)
    ensures IsDirtyLo(before, after, lo)
  {
    lo := None;
    var todo := before.Keys + after.Keys;
    while todo != {}
      invariant todo <= before.Keys + after.Keys
      invariant lo.Some? ==> forall v :: v in before.Keys + after.Keys - todo && Noted(before, after, v) ==>
        lo.value <= NotedMin(before, after, v)
      invariant lo.Some? ==>
        exists v :: v in before.Keys + after.Keys && Noted(before, after, v) && lo.value == NotedMin(before, after, v)
      invariant lo.None? ==> forall v :: v in before.Keys + after.Keys - todo ==> !Noted(before, after, v)
      decreases |todo|
    {
      var v :| v in todo;
      todo := todo - {v};
      if Noted(before, after, v) {
        var min := NotedMin(before, after, v);
        lo := Some(match lo case Some(cur) => (if cur <= min then cur else min) case None => min);
      }
    }
    if lo.None? {
      NothingNoted(before, after);
    } else if lo.value == I64_MIN {
      lo := None;
    }
  }

  lemma NothingNoted(before: Sources, after: Sources)
    requires forall v :: v in before.Keys + after.Keys ==> !Noted(before, after, v)
    ensures before == after
  {
    forall v ensures v in before <==> v in after {
      assert v in before.Keys + after.Keys ==> !Noted(before, after, v);
    }
    forall v | v in before ensures before[v] == after[v] {
      assert !Noted(before, after, v);
    }
  }

  lemma UnreachedKey(before: Sources, after: Sources, g: Grid, us: int, k: PartialKey)
    requires g.Valid() && Truthful(before) && Truthful(after)
    requires forall v :: v in before.Keys + after.Keys && Noted(before, after, v) ==> us <= NotedMin(before, after, v)
    requires k.bucket < g.Bucket(us)
    ensures Fold(AllRows(before.Keys), g, k) == Fold(AllRows(after.Keys), g, k)
  {
    hide Fold, AllRows;
    var gone, added := before.Keys - after.Keys, after.Keys - before.Keys;
    forall v: VersionId | v in gone + added ensures Fold(v.rows, g, k) == EMPTY {
      assert Noted(before, after, v);
      assert RangeCovers(v, if v in before then before[v] else after[v]);
      SilentBelow(v, g, k, us);
    }
    SilentDrop(before.Keys, gone, g, k);
    SilentDrop(after.Keys, added, g, k);
    assert before.Keys - gone == after.Keys - added;
  }

  /** A change of the source set leaves every bucket below its dirty bucket as it was. */
  lemma UnreachedBuckets(before: Sources, after: Sources, g: Grid, us: int)
    requires g.Valid() && Truthful(before) && Truthful(after)
    requires forall v :: v in before.Keys + after.Keys && Noted(before, after, v) ==> us <= NotedMin(before, after, v)
    ensures AgreeBelow(Direct(before.Keys, g), Direct(after.Keys, g), g.Bucket(us))
  {
    hide Fold, AllRows, Direct;
    forall k: PartialKey | k.bucket < g.Bucket(us)
      ensures k in Direct(before.Keys, g) <==> k in Direct(after.Keys, g)
      ensures k in Direct(before.Keys, g) ==> Direct(before.Keys, g)[k] == Direct(after.Keys, g)[k]
    {
      UnreachedKey(before, after, g, us, k);
      DirectEntry(before.Keys, after.Keys, g, k);
    }
  }

  // ----- pruning versions by their recorded upper bound -----

  function SecsToUs(secs: int): int {
    var us := secs * MICROS;
    if us < I64_MIN then I64_MIN else if us > I64_MAX then I64_MAX else us
  }

  /** The versions a bounded reader scans. */
  function Retained(s: Sources, readLo: Option<int>): set<VersionId> {
    set v | v in s && (readLo.None? || s[v].maxUs >= readLo.value)
  }

  /** A reader bounded to a second skips exactly the versions whose last recorded instant lies in an earlier second,
      save one recorded up to the very end of time. */
  lemma RetainedIff(s: Sources, secs: int, v: VersionId)
    requires v in s && I64_MIN <= s[v].maxUs <= I64_MAX
    ensures v !in Retained(s, Some(SecsToUs(secs))) <==> s[v].maxUs / MICROS < secs && s[v].maxUs < I64_MAX
    ensures v in Retained(s, None)
  {
    var whole := s[v].maxUs / MICROS;
    assert s[v].maxUs == whole * MICROS + s[v].maxUs % MICROS;
    assert whole < secs <==> s[v].maxUs < secs * MICROS;
  }

  /** Contents that agree at and above `lo`. */
  ghost predicate AgreeFrom(a: Content, b: Content, lo: Option<int>) {
    forall k: PartialKey :: (lo.None? || lo.value <= k.bucket) ==>
      (k in a <==> k in b) && (k in a && k in b ==> a[k] == b[k])
  }

  lemma DroppedIsSilent(s: Sources, g: Grid, secs: int, v: VersionId, k: PartialKey)
    requires SecondGrid(g) && Truthful(s) && v in s && s[v].maxUs < SecsToUs(secs) && k.bucket >= secs
    ensures Fold(v.rows, g, k) == EMPTY
  {
    hide Fold;
    assert RangeCovers(v, s[v]);
    SilentAbove(v, g, k, secs);
  }

  /** A reader pruned to the watermark sees every row of the buckets at or above it. */
  lemma PruningLosesNothing(s: Sources, g: Grid, secs: int)
    requires SecondGrid(g) && Truthful(s)
    ensures AgreeFrom(Direct(Retained(s, Some(SecsToUs(secs))), g), Direct(s.Keys, g), Some(secs))
  {
    hide Fold, AllRows, Direct;
    var kept := Retained(s, Some(SecsToUs(secs)));
    forall k: PartialKey | secs <= k.bucket
      ensures k in Direct(kept, g) <==> k in Direct(s.Keys, g)
      ensures k in Direct(kept, g) ==> Direct(kept, g)[k] == Direct(s.Keys, g)[k]
    {
      forall v | v in s.Keys - kept ensures Fold(v.rows, g, k) == EMPTY {
        DroppedIsSilent(s, g, secs, v, k);
      }
      SilentDrop(s.Keys, s.Keys - kept, g, k);
      assert s.Keys - (s.Keys - kept) == kept;
      DirectEntry(kept, s.Keys, g, k);
    }
  }

  // ----- the reduction as it is executed -----

  lemma ReduceSnoc(rows: seq<Row>, r: Row, g: Grid)
    requires g.Valid()
    ensures var m, k := Reduce(rows, g), KeyOf(r, g);
      Reduce(rows + [r], g) == m[k := if k in m then Merge(m[k], OfValue(r.value)) else OfValue(r.value)]
  {
    hide Merge, KeyOf;
    var all, k := rows + [r], KeyOf(r, g);
    assert Keys(all, g) == Keys(rows, g) + {k} by {
      forall x | x in Keys(rows, g) + {k} ensures x in Keys(all, g) {
        if x == k {
          assert KeyOf(all[|rows|], g) == x;
        } else {
          var i :| 0 <= i < |rows| && KeyOf(rows[i], g) == x;
          assert KeyOf(all[i], g) == x;
        }
      }
    }
    forall x | x in Keys(all, g)
      ensures Fold(all, g, x) ==
        if x != k then Fold(rows, g, x)
        else if k in Keys(rows, g) then Merge(Fold(rows, g, k), OfValue(r.value))
        else OfValue(r.value)
    {
      FoldConcat(rows, [r], g, x);
      FoldPresence(rows, g, x);
      MergeLaws(Contribution(r, g, x), EMPTY, EMPTY);
      MergeLaws(Fold(rows, g, x), EMPTY, EMPTY);
    }
  }

  /** `GROUP BY` over the rows of a set of versions, taken in any order. */
  method GroupBy(vs: set<VersionId>, g: Grid) returns (m: Content)
    requires g.Valid()
    ensures m == Direct(vs, g)
  {
    hide Merge, Fold, KeyOf;
    m := map[];
    ghost var done: seq<Row> := [];
    var todo := vs;
    FoldNil(AllRows(vs), g);
    while todo != {}
      invariant todo <= vs && m == Reduce(done, g)
      invariant forall k :: Merge(Fold(done, g, k), Fold(AllRows(todo), g, k)) == Fold(AllRows(vs), g, k)
      decreases |todo|
    {
      var v :| v in todo;
      ghost var before := done;
      for i := 0 to |v.rows|
        invariant done == before + v.rows[..i] && m == Reduce(done, g)
      {
        ReduceSnoc(done, v.rows[i], g);
        var k := KeyOf(v.rows[i], g);
        m := m[k := if k in m then Merge(m[k], OfValue(v.rows[i].value)) else OfValue(v.rows[i].value)];
        assert v.rows[..i + 1] == v.rows[..i] + [v.rows[i]];
        done := done + [v.rows[i]];
      }
      assert v.rows[..|v.rows|] == v.rows;
      forall k ensures Merge(Fold(done, g, k), Fold(AllRows(todo - {v}), g, k)) == Fold(AllRows(vs), g, k) {
        FoldConcat(before, v.rows, g, k);
        AllRowsRemove(todo, v, g, k);
        MergeLaws(Fold(before, g, k), Fold(v.rows, g, k), Fold(AllRows(todo - {v}), g, k));
      }
      todo := todo - {v};
    }
    forall k ensures Fold(done, g, k) == Fold(AllRows(vs), g, k) {
      FoldNil(done, g);
    }
    ReduceExtensional(done, AllRows(vs), g);
  }

  lemma FoldNil(rows: seq<Row>, g: Grid)
    requires g.Valid()
    ensures AllRows({}) == [] && Reduce([], g) == map[]
    ensures forall k :: Merge(Fold([], g, k), Fold(rows, g, k)) == Fold(rows, g, k)
    ensures forall k :: Merge(Fold(rows, g, k), Fold([], g, k)) == Fold(rows, g, k)
  {
    hide Merge;
    forall k
      ensures Merge(Fold([], g, k), Fold(rows, g, k)) == Fold(rows, g, k)
      ensures Merge(Fold(rows, g, k), Fold([], g, k)) == Fold(rows, g, k)
    {
      MergeLaws(Fold(rows, g, k), EMPTY, EMPTY);
    }
  }
}
