/**
 Recipes whose output at a time depends on the input at that time only: what a change can reach, and why
 recomputing just that is enough.
 */
module LocalRecipe {
  import opened Wrappers
  import opened Int64
  import opened Aggregate
  import opened Locality
  import opened Impact

  /** Row-local and timestamp-local contracts. */
  ghost predicate Pointwise(c: Contract) {
    c.Valid() && !c.locality.FixedWindow? && !c.locality.Global?
  }

  /** Some relevant change declares the time. */
  ghost predicate Named(c: Contract, chs: seq<LogicalChange>, x: int) {
    exists i :: 0 <= i < |chs| && c.DependsOn(chs[i].source) && chs[i].extent.Bounded? && Has(chs[i].extent.iv, x)
  }

  /** The ranges of such a contract are the declared times, no more and no less. */
  lemma PointwiseRanges(c: Contract, chs: seq<LogicalChange>, ranges: seq<TimeInterval>, x: int)
    requires Pointwise(c) && ExactRanges(c, chs, ranges)
    ensures Covers(ranges, x) <==> Named(c, chs, x)
  {
    if Covers(ranges, x) {
      var i :| 0 <= i < |chs| && Reaches(c, chs[i], x);
    }
    if Named(c, chs, x) {
      var i :| 0 <= i < |chs| && c.DependsOn(chs[i].source) && chs[i].extent.Bounded? && Has(chs[i].extent.iv, x);
      assert Reaches(c, chs[i], x);
    }
  }

  // ----- recipes -----

  /** The output of a recipe at each time. */
  type Recipe = (multiset<Row>, int) -> multiset<Row>

  ghost predicate AgreeAt(a: multiset<Row>, b: multiset<Row>, t: int) {
    forall r: Row :: r.t == t ==> a[r] == b[r]
  }

  ghost predicate TimestampLocal(f: Recipe) {
    forall a, b, t :: AgreeAt(a, b, t) ==> f(a, t) == f(b, t)
  }

  /** What one row becomes, for every row of the time. */
  ghost function Mapped(h: Row -> multiset<Row>, rows: multiset<Row>, t: int): multiset<Row>
    decreases |rows|
  {
    if rows == multiset{} then multiset{}
    else
      var r :| r in rows;
      Part(h, r, t) + Mapped(h, rows - multiset{r}, t)
  }

  ghost function Part(h: Row -> multiset<Row>, r: Row, t: int): multiset<Row> {
    if r.t == t then h(r) else multiset{}
  }

  lemma {:induction false} MappedRemove(h: Row -> multiset<Row>, rows: multiset<Row>, t: int, x: Row)
    requires x in rows
    ensures Mapped(h, rows, t) == Part(h, x, t) + Mapped(h, rows - multiset{x}, t)
    decreases |rows|
  {
    hide Part;
    var r :| r in rows && Mapped(h, rows, t) == Part(h, r, t) + Mapped(h, rows - multiset{r}, t);
    if r != x {
      var rest := rows - multiset{r} - multiset{x};
      assert rest == rows - multiset{x} - multiset{r};
      MappedRemove(h, rows - multiset{r}, t, x);
      MappedRemove(h, rows - multiset{x}, t, r);
      Swap(Part(h, r, t), Part(h, x, t), Mapped(h, rest, t));
    }
  }

  lemma Swap(a: multiset<Row>, b: multiset<Row>, c: multiset<Row>)
    ensures a + (b + c) == b + (a + c)
  {
  }

  lemma {:induction false} MappedNowhere(h: Row -> multiset<Row>, rows: multiset<Row>, t: int)
    requires forall r: Row :: r in rows ==> r.t != t
    ensures Mapped(h, rows, t) == multiset{}
    decreases |rows|
  {
    if rows != multiset{} {
      var x :| x in rows;
      MappedRemove(h, rows, t, x);
      MappedNowhere(h, rows - multiset{x}, t);
    }
  }

  /** A row-local recipe is timestamp-local. */
  lemma {:induction false} MappedLocal(h: Row -> multiset<Row>, a: multiset<Row>, b: multiset<Row>, t: int)
    requires AgreeAt(a, b, t)
    ensures Mapped(h, a, t) == Mapped(h, b, t)
    decreases |a|
  {
    hide Mapped, Part;
    if x: Row :| x in a && x.t == t {
      assert x in b;
      MappedRemove(h, a, t, x);
      MappedRemove(h, b, t, x);
      MappedLocal(h, a - multiset{x}, b - multiset{x}, t);
    } else {
      MappedNowhere(h, a, t);
      forall r: Row | r in b ensures r.t != t { assert r.t == t ==> r in a; }
      MappedNowhere(h, b, t);
    }
  }

  // ----- patching -----

  /** Old output outside the ranges, new output inside. */
  ghost function Patch(ranges: seq<TimeInterval>, f: Recipe, before: multiset<Row>, after: multiset<Row>,
                       x: int): multiset<Row> {
    if Covers(ranges, x) then f(after, x) else f(before, x)
  }

  lemma Undeclared(c: Contract, chs: seq<LogicalChange>, before: seq<Row>, after: seq<Row>, x: int)
    requires ExtentsCover(c, chs, before, after) && !Named(c, chs, x)
    requires forall i :: 0 <= i < |chs| ==> !Unbounded(c, chs[i])
    ensures AgreeAt(multiset(before), multiset(after), x)
  {
    forall i | 0 <= i < |chs| ensures !Declares(c, chs[i], x) { assert !Unbounded(c, chs[i]); }
  }

  /** Recomputing the affected ranges of a local recipe gives its new output everywhere. */
  lemma LocalPatch(c: Contract, chs: seq<LogicalChange>, ranges: seq<TimeInterval>, f: Recipe, before: seq<Row>,
                   after: seq<Row>, x: int)
    requires Pointwise(c) && ExactRanges(c, chs, ranges) && ExtentsCover(c, chs, before, after) && TimestampLocal(f)
    ensures Patch(ranges, f, multiset(before), multiset(after), x) == f(multiset(after), x)
  {
    hide Covers;
    PointwiseRanges(c, chs, ranges, x);
    if !Covers(ranges, x) {
      Undeclared(c, chs, before, after, x);
    }
  }

  /** The recipe that passes its input through. */
  ghost function Same(rows: multiset<Row>, t: int): multiset<Row> {
    Mapped(r => multiset{r}, rows, t)
  }

  /** No smaller ranges will do: patching is right for every change the declarations allow exactly when every
      declared time is covered. */
  lemma LocalPatchIff(c: Contract, chs: seq<LogicalChange>, ranges: seq<TimeInterval>)
    requires Pointwise(c) && forall i :: 0 <= i < |chs| ==> !Unbounded(c, chs[i])
    ensures PatchesAll(c, chs, ranges) <==> forall x :: Named(c, chs, x) ==> Covers(ranges, x)
  {
    hide Covers, Unbounded;
    if forall x :: Named(c, chs, x) ==> Covers(ranges, x) {
      forall before, after, x | ExtentsCover(c, chs, before, after)
        ensures Patch(ranges, Same, multiset(before), multiset(after), x) == Same(multiset(after), x)
      {
        if !Covers(ranges, x) {
          Undeclared(c, chs, before, after, x);
          MappedLocal(r => multiset{r}, multiset(before), multiset(after), x);
        }
      }
    }
    if PatchesAll(c, chs, ranges) {
      forall x | Named(c, chs, x) ensures Covers(ranges, x) { OneRow(c, chs, ranges, x); }
    }
  }

  ghost predicate PatchesAll(c: Contract, chs: seq<LogicalChange>, ranges: seq<TimeInterval>) {
    forall before, after, x :: ExtentsCover(c, chs, before, after) ==>
      Patch(ranges, Same, multiset(before), multiset(after), x) == Same(multiset(after), x)
  }

  /** One row added at a declared time is seen only if the time is covered. */
  lemma OneRow(c: Contract, chs: seq<LogicalChange>, ranges: seq<TimeInterval>, x: int)
    requires PatchesAll(c, chs, ranges) && Named(c, chs, x)
    ensures Covers(ranges, x)
  {
    hide Covers;
    var r := Row(x, "", None);
    var before, after: seq<Row> := [], [r];
    assert ExtentsCover(c, chs, before, after) by {
      var i :| 0 <= i < |chs| && c.DependsOn(chs[i].source) && chs[i].extent.Bounded? && Has(chs[i].extent.iv, x);
      assert Declares(c, chs[i], x);
    }
    var h := (y: Row) => multiset{y};
    MappedNowhere(h, multiset(before), x);
    MappedRemove(h, multiset(after), x, r);
    assert multiset(after) - multiset{r} == multiset{};
    assert r in Same(multiset(after), x) && Same(multiset(before), x) == multiset{};
    assert Patch(ranges, Same, multiset(before), multiset(after), x) == Same(multiset(after), x);
  }
}
