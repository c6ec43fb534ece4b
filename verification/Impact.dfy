/**
 Which output windows a set of logical changes can reach, and why the others need no work.
 */
module Impact {
  import opened Wrappers
  import opened Int64
  import opened Aggregate
  import opened Locality

  datatype ChangeKind = AddedChunk | RemovedChunk | WildcardMemberAdded | WildcardMemberRemoved

  datatype Extent = Empty | Bounded(iv: TimeInterval) | Unknown

  datatype LogicalChange = LogicalChange(kind: ChangeKind, source: string, extent: Extent)

  datatype ChangeSet = ChangeSet(changes: seq<LogicalChange>, recipeChanged: bool, schemaChanged: bool,
                                 frontierMoved: bool)

  datatype LocalityClass = RowLocal | TimestampLocal | FixedWindow(width: I64, origin: I64) | Global

  datatype Contract = Contract(locality: LocalityClass, inputs: set<string>) {
    predicate Valid() {
      locality.FixedWindow? ==> locality.width > 0
    }

    predicate DependsOn(source: string) {
      source in inputs
    }
  }

  datatype OutputImpact = NoImpact | Dirty(ranges: seq<TimeInterval>) | Complete

  // ----- expansion to whole windows -----

  /** Floor to the window grid with every intermediate value checked. */
  function CheckedFloor(x: I64, width: I64, origin: I64): Option<I64>
    requires width > 0
  {
    var delta := Checked(x - origin);
    if delta.None? then None
    else
      var down := Checked(delta.value / width * width);
      if down.None? then None else Checked(origin + down.value)
  }

  function ExpandToWindows(iv: TimeInterval, width: I64, origin: I64): Result<TimeInterval>
    requires width > 0
  {
    var min, maxStart := CheckedFloor(iv.min, width, origin), CheckedFloor(iv.max, width, origin);
    if min.None? || maxStart.None? then Err
    else
      var max := Checked(maxStart.value + width - 1);
      if max.None? || min.value > max.value then Err else Ok(Span(min.value, max.value))
  }

  ghost predicate Fits64(x: int) {
    I64_MIN <= x <= I64_MAX
  }

  lemma FloorIsProduct(x: int, width: int, origin: int)
    requires width > 0
    ensures origin + (x - origin) / width * width == Grid(width, origin, 1).Floor(x)
  {
    var d := x - origin;
    assert d == d / width * width + d % width;
  }

  lemma FloorExact(x: I64, width: I64, origin: I64)
    requires width > 0
    ensures var lo := Grid(width, origin, 1).Floor(x);
      && (CheckedFloor(x, width, origin).Some? <==> Fits64(x - origin) && Fits64(lo - origin) && Fits64(lo))
      && (CheckedFloor(x, width, origin).Some? ==> CheckedFloor(x, width, origin).value == lo)
  {
    FloorIsProduct(x, width, origin);
    var down := (x - origin) / width * width;
    assert Grid(width, origin, 1).Floor(x) == origin + down;
  }

  lemma FloorOrder(x: int, y: int, g: Grid)
    requires g.Valid() && x <= y
    ensures g.Floor(x) <= g.Floor(y) && g.Floor(x) <= x < g.Floor(x) + g.width
  {
    var a, b := (x - g.origin) / g.width, (y - g.origin) / g.width;
    assert x - g.origin == a * g.width + (x - g.origin) % g.width;
    assert y - g.origin == b * g.width + (y - g.origin) % g.width;
    if a <= b {
      MulLe(a, b, g.width);
    } else {
      MulLe(b + 1, a, g.width);
    }
  }

  /** The windows touching an interval, all of them and whole; an error exactly when some step of
      the alignment leaves 64 bits. */
  lemma ExpandExact(iv: TimeInterval, width: I64, origin: I64)
    requires width > 0
    ensures var g := Grid(width, origin, 1);
      var lo, hi := g.Floor(iv.min), g.Floor(iv.max);
      && (ExpandToWindows(iv, width, origin).Ok? <==> (
            && Fits64(iv.min - origin) && Fits64(iv.max - origin)
            && Fits64(lo - origin) && Fits64(hi - origin)
            && Fits64(lo) && Fits64(hi + width - 1)))
      && (ExpandToWindows(iv, width, origin).Ok? ==>
          ExpandToWindows(iv, width, origin).value == Span(lo, hi + width - 1))
  {
    var g := Grid(width, origin, 1);
    hide g.Floor, CheckedFloor;
    FloorExact(iv.min, width, origin);
    FloorExact(iv.max, width, origin);
    FloorOrder(iv.min, iv.max, g);
    FloorOrder(iv.max, iv.max, g);
  }

  /** The reach of a change under a locality class. */
  function Reach(locality: LocalityClass, iv: TimeInterval): Result<TimeInterval>
    requires locality.FixedWindow? ==> locality.width > 0
  {
    match locality
    case FixedWindow(w, o) => ExpandToWindows(iv, w, o)
    case _ => Ok(iv)
  }

  predicate Reaches(c: Contract, ch: LogicalChange, x: int)
    requires c.Valid()
  {
    && c.DependsOn(ch.source) && ch.extent.Bounded?
    && Reach(c.locality, ch.extent.iv).Ok? && Has(Reach(c.locality, ch.extent.iv).value, x)
  }

  ghost predicate ReachedBySome(c: Contract, chs: seq<LogicalChange>, x: int)
    requires c.Valid()
  {
    exists i :: 0 <= i < |chs| && Reaches(c, chs[i], x)
  }

  predicate Overflows(c: Contract, ch: LogicalChange)
    requires c.Valid()
  {
    c.DependsOn(ch.source) && ch.extent.Bounded? && Reach(c.locality, ch.extent.iv).Err?
  }

  predicate Unbounded(c: Contract, ch: LogicalChange) {
    c.DependsOn(ch.source) && ch.extent.Unknown?
  }

  ghost predicate AnyRelevant(c: Contract, chs: seq<LogicalChange>) {
    exists i :: 0 <= i < |chs| && c.DependsOn(chs[i].source)
  }

  ghost predicate AnyOverflow(c: Contract, chs: seq<LogicalChange>)
    requires c.Valid()
  {
    exists i :: 0 <= i < |chs| && Overflows(c, chs[i])
  }

  ghost predicate AnyBounded(c: Contract, chs: seq<LogicalChange>) {
    exists i :: 0 <= i < |chs| && c.DependsOn(chs[i].source) && chs[i].extent.Bounded?
  }

  /** Only a relevant change of a windowed contract can overflow. */
  lemma OverflowIsLocal(c: Contract, chs: seq<LogicalChange>)
    requires c.Valid()
    ensures AnyOverflow(c, chs) ==> AnyRelevant(c, chs) && c.locality.FixedWindow?
  {
  }

  lemma ReachedMore(c: Contract, chs: seq<LogicalChange>, n: nat, x: int)
    requires c.Valid() && n < |chs|
    ensures ReachedBySome(c, chs[..n + 1], x) <==> ReachedBySome(c, chs[..n], x) || Reaches(c, chs[n], x)
  {
    hide Reaches;
    var a, b := chs[..n], chs[..n + 1];
    if ReachedBySome(c, a, x) {
      var i :| 0 <= i < |a| && Reaches(c, a[i], x);
      assert b[i] == a[i];
    }
    if Reaches(c, chs[n], x) { assert b[n] == chs[n]; }
    if ReachedBySome(c, b, x) {
      var i :| 0 <= i < |b| && Reaches(c, b[i], x);
      if i < n { assert a[i] == b[i]; }
    }
  }

  /** Dirty output ranges caused by explicit logical changes. */
  method AffectedOutputRanges(c: Contract, cs: ChangeSet) returns (r: Result<OutputImpact>)
    requires c.Valid()
    ensures r.Ok? && r.value.Dirty? ==> Normalized(r.value.ranges) && r.value.ranges != []
    ensures r.Ok? && r.value.Dirty? ==> forall x :: Covers(r.value.ranges, x) <==> ReachedBySome(c, cs.changes, x)
    ensures r.Ok? && !r.value.Complete? ==> !cs.recipeChanged && !cs.schemaChanged
    ensures r.Ok? && !r.value.Complete? ==>
      forall i :: 0 <= i < |cs.changes| ==> !Unbounded(c, cs.changes[i]) && !Overflows(c, cs.changes[i])
    ensures r.Ok? && r.value.NoImpact? ==>
      forall i :: 0 <= i < |cs.changes| && c.DependsOn(cs.changes[i].source) ==> cs.changes[i].extent.Empty?
    ensures r.Ok? && r.value.Dirty? ==> AnyBounded(c, cs.changes)
    ensures r.Ok? && r.value.Complete? ==> cs.recipeChanged || cs.schemaChanged || c.locality.Global?
                                           || exists i :: 0 <= i < |cs.changes| && Unbounded(c, cs.changes[i])
    ensures r.Ok? && r.value.Complete? && !cs.recipeChanged && !cs.schemaChanged ==> AnyRelevant(c, cs.changes)
    ensures r.Ok? && r.value.Dirty? ==> !c.locality.Global?
    ensures r.Ok? && r.value.NoImpact? && c.locality.Global? ==> !AnyRelevant(c, cs.changes)
    ensures r.Err? ==> AnyOverflow(c, cs.changes) && !cs.recipeChanged && !cs.schemaChanged
  {
    hide Reach, Normalized, Covers;
    if cs.recipeChanged || cs.schemaChanged { return Ok(Complete); }
    var any := false;
    var intervals: seq<TimeInterval> := [];
    assert cs.changes[..0] == [];
    NoneReached(c);
    for n := 0 to |cs.changes|
      invariant any <==> exists i :: 0 <= i < n && c.DependsOn(cs.changes[i].source)
      invariant c.locality.Global? ==> intervals == []
      invariant !c.locality.Global? ==> forall x :: Covers(intervals, x) <==> ReachedBySome(c, cs.changes[..n], x)
      invariant !c.locality.Global? ==>
        forall i :: 0 <= i < n ==> !Unbounded(c, cs.changes[i]) && !Overflows(c, cs.changes[i])
      invariant !c.locality.Global? ==>
        (intervals != [] <==>
         exists i :: 0 <= i < n && c.DependsOn(cs.changes[i].source) && cs.changes[i].extent.Bounded?)
    {
      var ch := cs.changes[n];
      forall x
        ensures ReachedBySome(c, cs.changes[..n + 1], x) <==> ReachedBySome(c, cs.changes[..n], x) || Reaches(c, ch, x)
      {
        ReachedMore(c, cs.changes, n, x);
      }
      if c.DependsOn(ch.source) {
        any := true;
        if !c.locality.Global? {
          match ch.extent
          case Empty =>
          case Unknown =>
            assert Unbounded(c, cs.changes[n]);
            return Ok(Complete);
          case Bounded(iv) =>
            var reach := Reach(c.locality, iv);
            if reach.Err? {
              assert Overflows(c, cs.changes[n]);
              return Err;
            }
            forall x ensures Covers(intervals + [reach.value], x) <==> Covers(intervals, x) || Has(reach.value, x) {
              CoversAppend(intervals, reach.value, x);
            }
            intervals := intervals + [reach.value];
        }
      }
    }
    assert cs.changes[..|cs.changes|] == cs.changes;
    if !any { return Ok(NoImpact); }
    if c.locality.Global? { return Ok(Complete); }
    if intervals == [] { return Ok(NoImpact); }
    var ranges := NormalizeIntervals(intervals);
    return Ok(Dirty(ranges));
  }

  lemma NoneReached(c: Contract)
    requires c.Valid()
    ensures forall x :: !Covers([], x) && !ReachedBySome(c, [], x)
  {
  }

  // ----- the dirty ranges are unions of whole windows -----

  ghost function WindowGrid(locality: LocalityClass): Grid
    requires locality.FixedWindow?
  {
    Grid(locality.width, locality.origin, 1)
  }

  lemma BlockIsWhole(lo: int, hi: int, y: int, w: Grid)
    requires w.Valid() && w.Floor(lo) == lo && w.Floor(hi) == hi
    ensures lo <= y <= hi + w.width - 1 <==> lo <= w.Floor(y) <= hi
  {
    FloorOrder(y, y, w);
    if lo <= y { FloorOrder(lo, y, w); }
    FloorIsProduct(hi, w.width, w.origin);
    FloorIsProduct(hi + w.width - 1, w.width, w.origin);
    DivUnique(hi + w.width - 1 - w.origin, w.width, (hi - w.origin) / w.width);
    if y <= hi + w.width - 1 { FloorOrder(y, hi + w.width - 1, w); }
  }

  lemma FloorIdempotent(x: int, w: Grid)
    requires w.Valid()
    ensures w.Floor(w.Floor(x)) == w.Floor(x)
  {
    FloorNests(x, w, w);
  }

  lemma ReachIsWhole(locality: LocalityClass, iv: TimeInterval, g: Grid, x: int)
    requires locality.FixedWindow? && locality.width > 0 && Refines(g, WindowGrid(locality))
    requires Reach(locality, iv).Ok?
    ensures Has(Reach(locality, iv).value, x) <==> Has(Reach(locality, iv).value, g.Floor(x))
    ensures Has(iv, x) ==> Has(Reach(locality, iv).value, x)
  {
    hide CheckedFloor;
    var w := WindowGrid(locality);
    ExpandExact(iv, locality.width, locality.origin);
    FloorIdempotent(iv.min, w);
    FloorIdempotent(iv.max, w);
    BlockIsWhole(w.Floor(iv.min), w.Floor(iv.max), x, w);
    BlockIsWhole(w.Floor(iv.min), w.Floor(iv.max), g.Floor(x), w);
    FloorNests(x, g, w);
    FloorOrder(iv.min, iv.min, w);
    FloorOrder(iv.max, iv.max, w);
  }

  /** A request whose windows tile the contract's windows is dirtied window by window. */
  lemma DirtyIsWhole(c: Contract, chs: seq<LogicalChange>, g: Grid, x: int)
    requires c.Valid() && c.locality.FixedWindow? && Refines(g, WindowGrid(c.locality))
    ensures ReachedBySome(c, chs, x) <==> ReachedBySome(c, chs, g.Floor(x))
  {
    hide Reach;
    forall i | 0 <= i < |chs| ensures Reaches(c, chs[i], x) <==> Reaches(c, chs[i], g.Floor(x)) {
      if c.DependsOn(chs[i].source) && chs[i].extent.Bounded? && Reach(c.locality, chs[i].extent.iv).Ok? {
        ReachIsWhole(c.locality, chs[i].extent.iv, g, x);
      }
    }
  }

  // ----- incremental reduction equals full reduction -----

  /** A reduction sees its rows only up to order, and per key only the rows of that key. */
  lemma {:induction false} FoldSameCounts(a: seq<Row>, b: seq<Row>, g: Grid, k: PartialKey)
    requires g.Valid()
    requires forall r :: KeyOf(r, g) == k ==> multiset(a)[r] == multiset(b)[r]
    ensures Fold(a, g, k) == Fold(b, g, k)
    decreases |a|
  {
    hide KeyOf, Merge;
    if a == [] {
      FoldPresence(b, g, k);
      forall i | 0 <= i < |b| ensures KeyOf(b[i], g) != k {
        assert multiset(b)[b[i]] > 0 && multiset(a)[b[i]] == 0;
      }
    } else {
      var x := a[0];
      assert a == [x] + a[1..];
      if KeyOf(x, g) == k {
        assert multiset(b)[x] > 0;
        var j :| 0 <= j < |b| && b[j] == x;
        var rest := b[..j] + b[j + 1..];
        assert b == b[..j] + ([x] + b[j + 1..]);
        FoldSameCounts(a[1..], rest, g, k);
        FoldConcat(b[..j], b[j + 1..], g, k);
        FoldConcat(b[..j], [x] + b[j + 1..], g, k);
        FoldCons(x, b[j + 1..], g, k);
        MergeRotate(Fold(b[..j], g, k), Contribution(x, g, k), Fold(b[j + 1..], g, k));
      } else {
        FoldSameCounts(a[1..], b, g, k);
        MergeLaws(Fold(a[1..], g, k), EMPTY, EMPTY);
      }
    }
  }

  lemma FoldCons(x: Row, rows: seq<Row>, g: Grid, k: PartialKey)
    requires g.Valid()
    ensures Fold([x] + rows, g, k) == Merge(Contribution(x, g, k), Fold(rows, g, k))
  {
    hide KeyOf, Merge;
    assert ([x] + rows)[1..] == rows;
  }

  lemma MergeRotate(a: Partial, b: Partial, c: Partial)
    ensures Merge(a, Merge(b, c)) == Merge(b, Merge(a, c))
  {
  }

  /** Some relevant change admits a difference at time `x`. */
  predicate Declares(c: Contract, ch: LogicalChange, x: int) {
    c.DependsOn(ch.source) && (ch.extent.Unknown? || (ch.extent.Bounded? && Has(ch.extent.iv, x)))
  }

  ghost predicate DeclaredBySome(c: Contract, chs: seq<LogicalChange>, x: int) {
    exists i :: 0 <= i < |chs| && Declares(c, chs[i], x)
  }

  /** Every row whose multiplicity differs between the two source states is declared. */
  ghost predicate ExtentsCover(c: Contract, chs: seq<LogicalChange>, before: seq<Row>, after: seq<Row>) {
    forall r: Row :: multiset(before)[r] != multiset(after)[r] ==> DeclaredBySome(c, chs, r.t)
  }

  ghost function Within(rows: seq<Row>, ranges: seq<TimeInterval>): seq<Row> {
    if rows == [] then []
    else (if Covers(ranges, rows[0].t) then [rows[0]] else []) + Within(rows[1..], ranges)
  }

  lemma {:induction false} WithinCounts(rows: seq<Row>, ranges: seq<TimeInterval>, r: Row)
    ensures multiset(Within(rows, ranges))[r] == if Covers(ranges, r.t) then multiset(rows)[r] else 0
  {
    hide Covers;
    if rows != [] {
      assert rows == [rows[0]] + rows[1..];
      WithinCounts(rows[1..], ranges, r);
    }
  }

  /** The effect of a dirty-bucket patch on one manifest's partials. */
  function Patched(m: Content, updates: map<PartialKey, Option<Partial>>): Content {
    map k | k in m.Keys + updates.Keys && (if k in updates then updates[k].Some? else k in m)
      :: if k in updates then updates[k].value else m[k]
  }

  /** The patch recomputed for dirty ranges: what the raw rows there reduce to, and a removal for
      every stored key there that no longer has a row. */
  ghost predicate DirtyUpdates(m: Content, raw: Content, ranges: seq<TimeInterval>, updates: map<PartialKey,
                               Option<Partial>>) {
    && (forall k :: k in updates ==> k in raw || Covers(ranges, k.bucket))
    && (forall k :: k in raw ==> k in updates && updates[k] == Some(raw[k]))
    && (forall k :: k in m && k !in raw && Covers(ranges, k.bucket) ==> k in updates)
    && (forall k :: k in updates && k !in raw ==> updates[k].None?)
  }

  /** What the planner promises about the ranges it reports. */
  ghost predicate ExactRanges(c: Contract, chs: seq<LogicalChange>, ranges: seq<TimeInterval>)
    requires c.Valid()
  {
    && (forall x :: Covers(ranges, x) <==> ReachedBySome(c, chs, x))
    && (forall i :: 0 <= i < |chs| ==> !Unbounded(c, chs[i]) && !Overflows(c, chs[i]))
  }

  lemma DeclaredIsDirty(c: Contract, chs: seq<LogicalChange>, g: Grid, x: int)
    requires c.Valid() && c.locality.FixedWindow? && Refines(g, WindowGrid(c.locality))
    requires forall i :: 0 <= i < |chs| ==> !Unbounded(c, chs[i]) && !Overflows(c, chs[i])
    ensures DeclaredBySome(c, chs, x) ==> ReachedBySome(c, chs, g.Floor(x))
  {
    hide Reach;
    if DeclaredBySome(c, chs, x) {
      var i :| 0 <= i < |chs| && Declares(c, chs[i], x);
      assert !Unbounded(c, chs[i]) && !Overflows(c, chs[i]);
      ReachIsWhole(c.locality, chs[i].extent.iv, g, x);
      assert Reaches(c, chs[i], g.Floor(x));
    }
  }

  /** Outside the dirty ranges a window keeps its aggregate. */
  lemma CleanWindowKeeps(c: Contract, chs: seq<LogicalChange>, g: Grid, ranges: seq<TimeInterval>, before: seq<Row>,
                         after: seq<Row>, k: PartialKey)
    requires c.Valid() && c.locality.FixedWindow? && Refines(g, WindowGrid(c.locality))
    requires ExactRanges(c, chs, ranges) && ExtentsCover(c, chs, before, after)
    requires !Covers(ranges, k.bucket)
    ensures Fold(before, g, k) == Fold(after, g, k)
  {
    hide Covers, DeclaredBySome, ReachedBySome;
    forall r: Row | KeyOf(r, g) == k ensures multiset(before)[r] == multiset(after)[r] {
      DeclaredIsDirty(c, chs, g, r.t);
    }
    FoldSameCounts(before, after, g, k);
  }

  /** Inside them the raw rows of the dirty ranges are all the rows of the window. */
  lemma DirtyWindowRecomputes(c: Contract, chs: seq<LogicalChange>, g: Grid, ranges: seq<TimeInterval>, rows: seq<Row>,
                              k: PartialKey)
    requires c.Valid() && c.locality.FixedWindow? && Refines(g, WindowGrid(c.locality))
    requires ExactRanges(c, chs, ranges)
    ensures Fold(Within(rows, ranges), g, k) == if Covers(ranges, k.bucket) then Fold(rows, g, k) else EMPTY
  {
    hide Covers, ReachedBySome;
    forall r: Row | KeyOf(r, g) == k
      ensures multiset(Within(rows, ranges))[r] == if Covers(ranges, k.bucket) then multiset(rows)[r] else 0
    {
      WithinCounts(rows, ranges, r);
      DirtyIsWhole(c, chs, g, r.t);
    }
    if Covers(ranges, k.bucket) {
      FoldSameCounts(Within(rows, ranges), rows, g, k);
    } else {
      FoldSameCounts(Within(rows, ranges), [], g, k);
    }
  }

  lemma IncrementalKey(c: Contract, chs: seq<LogicalChange>, g: Grid, ranges: seq<TimeInterval>, before: seq<Row>,
                       after: seq<Row>, updates: map<PartialKey, Option<Partial>>, k: PartialKey)
    requires c.Valid() && c.locality.FixedWindow? && Refines(g, WindowGrid(c.locality))
    requires ExactRanges(c, chs, ranges) && ExtentsCover(c, chs, before, after)
    requires DirtyUpdates(Reduce(before, g), Reduce(Within(after, ranges), g), ranges, updates)
    ensures k in Patched(Reduce(before, g), updates) <==> k in Reduce(after, g)
    ensures k in Reduce(after, g) ==> Patched(Reduce(before, g), updates)[k] == Reduce(after, g)[k]
  {
    hide Covers, ExactRanges, ExtentsCover, Keys, Fold;
    var within := Within(after, ranges);
    FoldPresence(before, g, k);
    FoldPresence(after, g, k);
    FoldPresence(within, g, k);
    DirtyWindowRecomputes(c, chs, g, ranges, after, k);
    if !Covers(ranges, k.bucket) {
      CleanWindowKeeps(c, chs, g, ranges, before, after, k);
    }
  }

  /** Patching only the dirty windows from the new raw rows is the full reduction of the new state. */
  lemma IncrementalIsFull(c: Contract, chs: seq<LogicalChange>, g: Grid, ranges: seq<TimeInterval>, before: seq<Row>,
                          after: seq<Row>, updates: map<PartialKey, Option<Partial>>)
    requires c.Valid() && c.locality.FixedWindow? && Refines(g, WindowGrid(c.locality))
    requires ExactRanges(c, chs, ranges) && ExtentsCover(c, chs, before, after)
    requires DirtyUpdates(Reduce(before, g), Reduce(Within(after, ranges), g), ranges, updates)
    ensures Patched(Reduce(before, g), updates) == Reduce(after, g)
  {
    hide Patched, Reduce, ExactRanges, ExtentsCover, DirtyUpdates;
    forall k ensures k in Patched(Reduce(before, g), updates) <==> k in Reduce(after, g) {
      IncrementalKey(c, chs, g, ranges, before, after, updates, k);
    }
    forall k | k in Reduce(after, g) ensures Patched(Reduce(before, g), updates)[k] == Reduce(after, g)[k] {
      IncrementalKey(c, chs, g, ranges, before, after, updates, k);
    }
  }

  lemma SameRowsSameReduce(a: seq<Row>, b: seq<Row>, g: Grid)
    requires g.Valid() && multiset(a) == multiset(b)
    ensures Reduce(a, g) == Reduce(b, g)
  {
    hide KeyOf, Fold;
    forall k ensures Fold(a, g, k) == Fold(b, g, k) { FoldSameCounts(a, b, g, k); }
    ReduceExtensional(a, b, g);
  }

  lemma RowKey(rows: seq<Row>, g: Grid, r: Row)
    requires g.Valid() && r in rows
    ensures KeyOf(r, g) in Keys(rows, g)
  {
    hide KeyOf;
    var i :| 0 <= i < |rows| && rows[i] == r;
    assert KeyOf(rows[i], g) == KeyOf(r, g);
  }

  /** A recomputed patch with nothing in it means no row differs at all. */
  lemma EmptyPatchNoChange(c: Contract, chs: seq<LogicalChange>, g: Grid, ranges: seq<TimeInterval>, before: seq<Row>,
                           after: seq<Row>)
    requires c.Valid() && c.locality.FixedWindow? && Refines(g, WindowGrid(c.locality))
    requires ExactRanges(c, chs, ranges) && ExtentsCover(c, chs, before, after)
    requires DirtyUpdates(Reduce(before, g), Reduce(Within(after, ranges), g), ranges, map[])
    ensures multiset(before) == multiset(after)
  {
    hide Covers, DeclaredBySome, ReachedBySome, Keys, Within, Fold;
    forall r: Row ensures multiset(before)[r] == multiset(after)[r] {
      var k := KeyOf(r, g);
      DeclaredIsDirty(c, chs, g, r.t);
      DirtyWindowRecomputes(c, chs, g, ranges, after, k);
      FoldPresence(Within(after, ranges), g, k);
      FoldPresence(after, g, k);
      if r in before { RowKey(before, g, r); }
      if r in after { RowKey(after, g, r); }
      assert Covers(ranges, k.bucket) ==> k !in Keys(before, g) && k !in Keys(after, g);
    }
  }

  /** No impact means no difference: every window of every grid keeps its aggregate. */
  lemma NoImpactNoChange(c: Contract, chs: seq<LogicalChange>, g: Grid, before: seq<Row>, after: seq<Row>)
    requires g.Valid() && ExtentsCover(c, chs, before, after)
    requires forall i :: 0 <= i < |chs| && c.DependsOn(chs[i].source) ==> chs[i].extent.Empty?
    ensures Reduce(before, g) == Reduce(after, g)
  {
    forall k ensures Fold(before, g, k) == Fold(after, g, k) {
      forall r: Row | KeyOf(r, g) == k ensures multiset(before)[r] == multiset(after)[r] {
        assert !DeclaredBySome(c, chs, r.t);
      }
      FoldSameCounts(before, after, g, k);
    }
    ReduceExtensional(before, after, g);
  }

  // ----- and it needs the request's windows to tile the contract's -----

  /** Every row has a 64-bit event time. */
  ghost predicate Times64(rows: seq<Row>) {
    forall r :: r in rows ==> Fits64(r.t)
  }

  /** Patching the dirty windows from the raw rows there always completes the reduction. */
  ghost predicate PatchWorks(c: Contract, g: Grid)
    requires c.Valid() && g.Valid()
  {
    forall chs, ranges, before, after, updates ::
      && Times64(before) && Times64(after) && ExactRanges(c, chs, ranges) && ExtentsCover(c, chs, before, after)
      && DirtyUpdates(Reduce(before, g), Reduce(Within(after, ranges), g), ranges, updates)
      ==> Patched(Reduce(before, g), updates) == Reduce(after, g)
  }

  lemma FloorAt(x: int, w: Grid, j: int)
    requires w.Valid() && j * w.width <= x - w.origin < j * w.width + w.width
    ensures w.Floor(x) == w.origin + j * w.width
  {
    FloorIsProduct(x, w.width, w.origin);
    DivUnique(x - w.origin, w.width, j);
  }

  /** Two times with no window edge between them share a window. */
  lemma SameWindow(x: int, y: int, g: Grid)
    requires g.Valid() && g.Floor(y) <= x <= y
    ensures g.Floor(x) == g.Floor(y)
  {
    var q := (y - g.origin) / g.width;
    FloorIsProduct(y, g.width, g.origin);
    FloorOrder(y, y, g);
    FloorAt(x, g, q);
  }

  lemma ModShift(a: int, b: int, w: int)
    requires w > 0 && a % w == 0
    ensures (a + b) % w == 0 <==> b % w == 0
    ensures (a - b) % w == 0 <==> b % w == 0
  {
    SumOfMultiples(a, b, w);
    DifferenceOfMultiples(a, a + b, w);
    DifferenceOfMultiples(b, a, w);
    DifferenceOfMultiples(a - b, a, w);
  }

  lemma MultipleOf(x: int, w: int, q: int)
    requires w > 0 && x == q * w
    ensures x % w == 0
  {
    DivUnique(x, w, q);
  }

  lemma SumOfMultiples(a: int, b: int, w: int)
    requires w > 0 && a % w == 0
    ensures b % w == 0 ==> (a + b) % w == 0
  {
    var m, n := a / w, b / w;
    if b % w == 0 {
      assert a == m * w && b == n * w;
      Distributes(m, n, w);
      MultipleOf(a + b, w, m + n);
    }
  }

  /** What is left when a multiple is taken from a multiple. */
  lemma DifferenceOfMultiples(a: int, b: int, w: int)
    requires w > 0
    ensures a % w == 0 && b % w == 0 ==> (b - a) % w == 0
  {
    var m, n := a / w, b / w;
    if a % w == 0 && b % w == 0 {
      assert a == m * w && b == n * w;
      Distributes(n, -m, w);
      MultipleOf(b - a, w, n - m);
    }
  }

  lemma Distributes(m: int, n: int, w: int)
    ensures (m + n) * w == m * w + n * w
  {
  }

  /** Where a window edge of the contract cuts a window of the request: a time `x` to change and a time
      `y` across the edge that the change does not reach. */
  function CutTimes(locality: LocalityClass, g: Grid): (int, int)
    requires locality.FixedWindow? && g.width > 0
  {
    var o, w := locality.origin, locality.width;
    if g.Floor(o) == o then
      if o + w <= I64_MAX then (o + w - 1, o + w) else (o - w, o - w - 1)
    else if o == I64_MIN then
      if g.Floor(o + w) != o + w then (o + w - 1, o + w) else (o + w, o + 2 * w)
    else if o + w - 1 <= I64_MAX then (o, o - 1)
    else (o - 1, o)
  }

  /** Time `y` is just past an edge of the windows reached from `x`, and that edge is inside a request window. */
  ghost predicate Severs(iv: TimeInterval, x: int, y: int, g: Grid)
    requires g.width > 0
  {
    || (y == x - 1 && x == iv.min && g.Floor(x) != x)
    || (y == iv.max + 1 && g.Floor(y) != y && Has(iv, x))
  }

  /** The windows reached from `x`, when the window of `x` is the `j`-th. */
  lemma ReachAt(locality: LocalityClass, x: I64, j: int)
    requires locality.FixedWindow? && locality.width > 0
    requires j * locality.width <= x - locality.origin < j * locality.width + locality.width
    requires Fits64(x - locality.origin) && Fits64(j * locality.width)
    requires Fits64(locality.origin + j * locality.width)
    requires Fits64(locality.origin + j * locality.width + locality.width - 1)
    ensures var lo := locality.origin + j * locality.width;
      Reach(locality, Span(x, x)) == Ok(Span(lo, lo + locality.width - 1))
  {
    hide CheckedFloor;
    FloorAt(x, WindowGrid(locality), j);
    ExpandExact(Span(x, x), locality.width, locality.origin);
  }

  /** The window number of the changed time. */
  function CutIndex(locality: LocalityClass, g: Grid): int
    requires locality.FixedWindow? && g.width > 0
  {
    var o, w := locality.origin, locality.width;
    if g.Floor(o) == o then (if o + w <= I64_MAX then 0 else -1)
    else if o == I64_MIN then (if g.Floor(o + w) != o + w then 0 else 1)
    else if o + w - 1 <= I64_MAX then 0 else -1
  }

  lemma CutSevers(locality: LocalityClass, g: Grid)
    requires locality.FixedWindow? && locality.width > 0 && g.Valid() && g.tick == 1
    requires !Refines(g, WindowGrid(locality))
    ensures var (x, y) := CutTimes(locality, g);
      && Fits64(x) && Fits64(y) && Reach(locality, Span(x, x)).Ok? && Severs(Reach(locality, Span(x, x)).value, x, y, g)
  {
    hide Reach;
    var (x, y) := CutTimes(locality, g);
    ReachAt(locality, x, CutIndex(locality, g));
    var o, w := locality.origin, locality.width;
    if g.Floor(o) == o {
      ModShift(o - g.origin, w, g.width);
    } else if o == I64_MIN && g.Floor(o + w) == o + w {
      ModShift(o + w - g.origin, w, g.width);
    }
  }

  lemma WithinPair(a: Row, b: Row, iv: TimeInterval)
    requires !Has(iv, a.t) && Has(iv, b.t)
    ensures Within([a, b], [iv]) == [b]
  {
    hide Covers;
    CoversOne(iv, a.t);
    CoversOne(iv, b.t);
    assert [a, b][1..] == [b] && [b][1..] == [];
    assert Within([b], [iv]) == [b] + Within([], [iv]) == [b];
    assert Within([a, b], [iv]) == [] + Within([b], [iv]);
  }

  /** One row of its own window, or the second of a shared one. */
  lemma PairCounts(a: Row, b: Row, g: Grid)
    requires g.Valid()
    ensures var k := KeyOf(a, g);
      && k in Reduce([a], g) && Reduce([a], g)[k].rows == 1
      && (KeyOf(b, g) == k ==> k in Reduce([b], g) && Reduce([b], g)[k].rows == 1)
      && (KeyOf(b, g) != k ==> k !in Reduce([b], g))
      && k in Reduce([a, b], g) && Reduce([a, b], g)[k].rows == if KeyOf(b, g) == k then 2 else 1
  {
    hide KeyOf, Merge;
    var k := KeyOf(a, g);
    FoldCons(a, [b], g, k);
    FoldCons(b, [], g, k);
    FoldCons(a, [], g, k);
    assert [a] + [b] == [a, b] && [b] + [] == [b] && [a] + [] == [a];
    MergeLaws(OfValue(a.value), OfValue(b.value), EMPTY);
    MergeLaws(OfValue(b.value), EMPTY, EMPTY);
    MergeLaws(EMPTY, EMPTY, EMPTY);
    MergeLaws(OfValue(a.value), EMPTY, EMPTY);
    FoldPresence([a], g, k);
    FoldPresence([b], g, k);
    FoldPresence([a, b], g, k);
  }

  /** The patch the recomputed dirty windows amount to. */
  ghost function Recomputed(m: Content, raw: Content, ranges: seq<TimeInterval>): map<PartialKey, Option<Partial>> {
    map k | k in m.Keys + raw.Keys && (k in raw || Covers(ranges, k.bucket)) :: if k in raw then Some(raw[k]) else None
  }

  /** A row across a severed edge is lost or a window is left with only part of its rows. */
  lemma SeveredLosesRow(iv: TimeInterval, y: Row, x: Row, g: Grid)
    requires g.Valid() && g.tick == 1 && y.group == x.group && Severs(iv, x.t, y.t, g)
    ensures var m, raw := Reduce([y], g), Reduce(Within([y, x], [iv]), g);
      Patched(m, Recomputed(m, raw, [iv])) != Reduce([y, x], g)
  {
    hide Reduce, Covers;
    FloorOrder(y.t, y.t, g);
    FloorOrder(x.t, x.t, g);
    assert g.Bucket(x.t) == g.Floor(x.t) && g.Bucket(y.t) == g.Floor(y.t);
    if y.t == x.t - 1 {
      SameWindow(y.t, x.t, g);
    } else if g.Floor(y.t) < iv.min {
      SameWindow(x.t, y.t, g);
    } else {
      CoversOne(iv, g.Floor(y.t));
    }
    WithinPair(y, x, iv);
    PairCounts(y, x, g);
  }

  lemma CutDeclared(c: Contract, source: string, x: I64, y: Row, row: Row, iv: TimeInterval)
    requires c.Valid() && source in c.inputs && row.t == x && Reach(c.locality, Span(x, x)) == Ok(iv)
    ensures var chs := [LogicalChange(AddedChunk, source, Bounded(Span(x, x)))];
      ExactRanges(c, chs, [iv]) && ExtentsCover(c, chs, [y], [y, row])
  {
    hide Reach, Covers;
    var chs := [LogicalChange(AddedChunk, source, Bounded(Span(x, x)))];
    forall t ensures Covers([iv], t) <==> ReachedBySome(c, chs, t) {
      CoversOne(iv, t);
      assert ReachedBySome(c, chs, t) <==> Reaches(c, chs[0], t);
    }
    forall r: Row | multiset([y])[r] != multiset([y, row])[r] ensures DeclaredBySome(c, chs, r.t) {
      assert Declares(c, chs[0], x);
    }
  }

  lemma RecomputedIsDirty(m: Content, raw: Content, ranges: seq<TimeInterval>)
    ensures DirtyUpdates(m, raw, ranges, Recomputed(m, raw, ranges))
  {
    hide Covers;
  }

  /** Incremental patching is right for every change and every pair of source states exactly when the
      request's windows tile the contract's. */
  lemma PatchWorksIff(c: Contract, g: Grid)
    requires c.Valid() && c.locality.FixedWindow? && c.inputs != {} && g.Valid() && g.tick == 1
    ensures PatchWorks(c, g) <==> Refines(g, WindowGrid(c.locality))
  {
    hide Patched, Reduce, DirtyUpdates, ExactRanges, ExtentsCover, Within, Refines, Reach, Times64;
    if Refines(g, WindowGrid(c.locality)) {
      forall chs, ranges, before, after, updates |
        && Times64(before) && Times64(after) && ExactRanges(c, chs, ranges) && ExtentsCover(c, chs, before, after)
        && DirtyUpdates(Reduce(before, g), Reduce(Within(after, ranges), g), ranges, updates)
        ensures Patched(Reduce(before, g), updates) == Reduce(after, g)
      {
        IncrementalIsFull(c, chs, g, ranges, before, after, updates);
      }
    } else {
      CutFails(c, g);
    }
  }

  lemma CutFails(c: Contract, g: Grid)
    requires c.Valid() && c.locality.FixedWindow? && c.inputs != {} && g.Valid() && g.tick == 1
    requires !Refines(g, WindowGrid(c.locality))
    ensures !PatchWorks(c, g)
  {
    hide Patched, Reduce, DirtyUpdates, ExactRanges, ExtentsCover, Within, Refines, Reach, Recomputed, CutTimes;
    var (x, y) := CutTimes(c.locality, g);
    CutSevers(c.locality, g);
    var source :| source in c.inputs;
    var iv := Reach(c.locality, Span(x, x)).value;
    var a, b := Row(y, "", None), Row(x, "", None);
    var chs := [LogicalChange(AddedChunk, source, Bounded(Span(x, x)))];
    CutDeclared(c, source, x, a, b, iv);
    var m, raw := Reduce([a], g), Reduce(Within([a, b], [iv]), g);
    RecomputedIsDirty(m, raw, [iv]);
    SeveredLosesRow(iv, a, b, g);
    assert Times64([a]) && Times64([a, b]);
    assert DirtyUpdates(Reduce([a], g), Reduce(Within([a, b], [iv]), g), [iv], Recomputed(m, raw, [iv]));
  }
}
