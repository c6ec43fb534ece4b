/**
 The one-open-writer streaming group-by of the export.

 Rows arrive ordered by partition tuple and then time, cut into batches anywhere.  One
 partition file is open at a time; it is published when the tuple changes.
 */
module PartitionWriter {
  import opened Wrappers
  import opened Partitions

  /** A timestamp with sub-second part, and the rest of the row. */
  datatype Row = Row(secs: int, sub: nat, value: int)

  function Where(r: Row, parts: seq<Part>): Path {
    PathOf(parts, r.secs)
  }

  predicate TimeLe(a: Row, b: Row) {
    a.secs < b.secs || (a.secs == b.secs && a.sub <= b.sub)
  }

  type Tree = map<Path, seq<Row>>

  // ----- what the files must hold -----

  /** The rows of one partition, in stream order. */
  function Pick(rows: seq<Row>, parts: seq<Part>, p: Path): seq<Row> {
    if rows == [] then []
    else Pick(rows[..|rows| - 1], parts, p)
         + (if Where(rows[|rows| - 1], parts) == p then [rows[|rows| - 1]] else [])
  }

  ghost function Paths(rows: seq<Row>, parts: seq<Part>): set<Path> {
    set i | 0 <= i < |rows| :: Where(rows[i], parts)
  }

  ghost function Grouped(rows: seq<Row>, parts: seq<Part>): Tree {
    map p | p in Paths(rows, parts) :: Pick(rows, parts, p)
  }

  lemma {:induction false} PickAppend(a: seq<Row>, b: seq<Row>, parts: seq<Part>, p: Path)
    ensures Pick(a + b, parts, p) == Pick(a, parts, p) + Pick(b, parts, p)
  {
    hide Where;
    if b == [] {
      assert a + b == a;
    } else {
      var n := |b| - 1;
      assert (a + b)[..|a + b| - 1] == a + b[..n];
      assert (a + b)[|a + b| - 1] == b[n];
      PickAppend(a, b[..n], parts, p);
    }
  }

  lemma {:induction false} PickUniform(run: seq<Row>, parts: seq<Part>, part: Path, p: Path)
    requires forall i :: 0 <= i < |run| ==> Where(run[i], parts) == part
    ensures Pick(run, parts, p) == if p == part then run else []
  {
    hide Where;
    if run != [] {
      var init, last := run[..|run| - 1], run[|run| - 1];
      forall i | 0 <= i < |init| ensures Where(init[i], parts) == part { assert init[i] == run[i]; }
      PickUniform(init, parts, part, p);
      assert run == init + [last];
    }
  }

  lemma PathsAppend(a: seq<Row>, b: seq<Row>, parts: seq<Part>)
    ensures Paths(a + b, parts) == Paths(a, parts) + Paths(b, parts)
  {
    hide Where;
    forall p | p in Paths(a, parts) + Paths(b, parts) ensures p in Paths(a + b, parts) {
      if p in Paths(a, parts) {
        var i :| 0 <= i < |a| && Where(a[i], parts) == p;
        assert Where((a + b)[i], parts) == p;
      } else {
        var i :| 0 <= i < |b| && Where(b[i], parts) == p;
        assert Where((a + b)[|a| + i], parts) == p;
      }
    }
    forall p | p in Paths(a + b, parts) ensures p in Paths(a, parts) + Paths(b, parts) {
      var i :| 0 <= i < |a + b| && Where((a + b)[i], parts) == p;
      if i < |a| { assert Where(a[i], parts) == p; } else { assert Where(b[i - |a|], parts) == p; }
    }
  }

  /** A uniform run extends exactly one group. */
  lemma GroupedRun(rows: seq<Row>, run: seq<Row>, parts: seq<Part>, part: Path)
    requires run != [] && forall i :: 0 <= i < |run| ==> Where(run[i], parts) == part
    ensures Grouped(rows + run, parts) == Grouped(rows, parts)[part := Pick(rows, parts, part) + run]
  {
    hide Where;
    PathsAppend(rows, run, parts);
    assert Where(run[0], parts) == part;
    assert Paths(run, parts) == {part};
    forall p | p in Paths(rows + run, parts)
      ensures Pick(rows + run, parts, p) == if p == part then Pick(rows, parts, part) + run else Pick(rows, parts, p)
    {
      PickAppend(rows, run, parts, p);
      PickUniform(run, parts, part, p);
    }
  }

  lemma {:induction false} PickAbsent(rows: seq<Row>, parts: seq<Part>, p: Path)
    requires p !in Paths(rows, parts)
    ensures Pick(rows, parts, p) == []
  {
    hide Where;
    if rows != [] {
      var n := |rows| - 1;
      assert rows == rows[..n] + [rows[n]];
      PathsAppend(rows[..n], [rows[n]], parts);
      assert Where([rows[n]][0], parts) in Paths([rows[n]], parts);
      PickAbsent(rows[..n], parts, p);
    }
  }

  // ----- order of the stream -----

  /** Equal tuples are adjacent. */
  ghost predicate Contiguous(rows: seq<Row>, parts: seq<Part>) {
    forall i, j, k :: 0 <= i < j < k < |rows| && Where(rows[i], parts) == Where(rows[k], parts) ==>
      Where(rows[j], parts) == Where(rows[i], parts)
  }

  function Flatten(batches: seq<seq<Row>>): seq<Row> {
    if batches == [] then [] else Flatten(batches[..|batches| - 1]) + batches[|batches| - 1]
  }

  lemma {:induction false} FlattenPrefix(batches: seq<seq<Row>>, n: nat)
    requires n <= |batches|
    ensures Flatten(batches[..n]) <= Flatten(batches)
    decreases |batches|
  {
    if n < |batches| {
      var m := |batches| - 1;
      FlattenPrefix(batches[..m], n);
      assert batches[..m][..n] == batches[..n];
    } else {
      assert batches[..n] == batches;
    }
  }

  // ----- the open writer -----

  datatype Writer = Writer(part: Path, rows: seq<Row>)

  /** `done` has been consumed: all its groups are on disk except the open one. */
  ghost predicate Streaming(tree: Tree, tree0: Tree, active: Option<Writer>, done: seq<Row>, parts: seq<Part>) {
    && (forall p :: p in Paths(done, parts) ==> p !in tree0)
    && match active
       case None => done == [] && tree == tree0
       case Some(w) =>
         && done != [] && Where(done[|done| - 1], parts) == w.part
         && w.part in Paths(done, parts) && w.rows == Pick(done, parts, w.part)
         && tree == tree0 + (Grouped(done, parts) - {w.part})
  }

  /** After a change of tuple, the new tuple has not been seen before. */
  lemma FreshTuple(rows: seq<Row>, parts: seq<Part>, n: nat)
    requires Contiguous(rows, parts) && 0 < n < |rows|
    requires Where(rows[n], parts) != Where(rows[n - 1], parts)
    ensures Where(rows[n], parts) !in Paths(rows[..n], parts)
  {
    hide Where;
    var part := Where(rows[n], parts);
    forall i | 0 <= i < n ensures Where(rows[..n][i], parts) != part {
      if i < n - 1 { ContiguousAt(rows, parts, i, n - 1, n); }
    }
  }

  lemma ContiguousAt(rows: seq<Row>, parts: seq<Part>, i: nat, j: nat, k: nat)
    requires Contiguous(rows, parts) && i < j < k < |rows|
    ensures Where(rows[i], parts) == Where(rows[k], parts) ==> Where(rows[j], parts) == Where(rows[i], parts)
  {
    hide Where;
  }

  lemma ContinueRun(tree: Tree, tree0: Tree, w: Writer, done: seq<Row>, run: seq<Row>, parts: seq<Part>)
    requires Streaming(tree, tree0, Some(w), done, parts) && run != []
    requires forall i :: 0 <= i < |run| ==> Where(run[i], parts) == w.part
    ensures Streaming(tree, tree0, Some(Writer(w.part, w.rows + run)), done + run, parts)
  {
    hide Where, Pick;
    GroupedRun(done, run, parts, w.part);
    var a, b := Grouped(done, parts), Grouped(done + run, parts);
    assert b.Keys == a.Keys + {w.part};
    assert a - {w.part} == b - {w.part};
    assert Paths(done + run, parts) == b.Keys;
    assert Pick(done + run, parts, w.part) == b[w.part];
    assert (done + run)[|done + run| - 1] == run[|run| - 1];
  }

  /** Publishing the open file completes the groups of everything consumed. */
  lemma FinishRun(tree: Tree, tree0: Tree, w: Writer, done: seq<Row>, parts: seq<Part>)
    requires Streaming(tree, tree0, Some(w), done, parts)
    ensures tree[w.part := w.rows] == tree0 + Grouped(done, parts)
  {
    hide Where, Pick;
  }

  lemma StartRun(tree0: Tree, done: seq<Row>, run: seq<Row>, parts: seq<Part>, part: Path)
    requires run != [] && forall i :: 0 <= i < |run| ==> Where(run[i], parts) == part
    requires part !in Paths(done, parts) && part !in tree0
    requires forall p :: p in Paths(done, parts) ==> p !in tree0
    ensures Streaming(tree0 + Grouped(done, parts), tree0, Some(Writer(part, run)), done + run, parts)
  {
    hide Where, Pick, Grouped, Paths;
    GroupedRun(done, run, parts, part);
    PickAbsent(done, parts, part);
    GroupedKeys(done, parts);
    GroupedKeys(done + run, parts);
    GroupedAt(done + run, parts, part);
    assert Pick(done, parts, part) + run == run;
    WithoutOpen(Grouped(done, parts), part, run);
    assert (done + run)[|done + run| - 1] == run[|run| - 1];
  }

  lemma WithoutOpen(tree: Tree, part: Path, run: seq<Row>)
    requires part !in tree
    ensures tree[part := run] - {part} == tree && tree[part := run].Keys == tree.Keys + {part}
  {
  }

  lemma GroupedAt(rows: seq<Row>, parts: seq<Part>, p: Path)
    requires p in Grouped(rows, parts)
    ensures Grouped(rows, parts)[p] == Pick(rows, parts, p)
  {
  }

  class PartitionTree {
    var tree: Tree

    constructor ()
      ensures tree == map[]
    {
      tree := map[];
    }

    /** One uniform run: append to the open file, or publish it and open the next. */
    method WriteRun(active: Option<Writer>, part: Path, run: seq<Row>, parts: seq<Part>,
                    ghost tree0: Tree, ghost done: seq<Row>, ghost all: seq<Row>)
      returns (next: Option<Writer>)
      requires Contiguous(all, parts) && done + run <= all
      requires run != [] && forall i :: 0 <= i < |run| ==> Where(run[i], parts) == part
      requires Streaming(tree, tree0, active, done, parts)
      modifies this
      ensures next.Some? ==> Streaming(tree, tree0, next, done + run, parts)
      ensures next.None? ==> part in tree0
    {
      hide Where, Pick, Grouped, Contiguous;
      ghost var n := |done|;
      assert all[n] == (done + run)[n] == run[0] && all[..n] == done;
      if active.Some? && active.value.part == part {
        ContinueRun(tree, tree0, active.value, done, run, parts);
        return Some(Writer(part, active.value.rows + run));
      }
      GroupedNothing(parts);
      if active.Some? {
        FinishRun(tree, tree0, active.value, done, parts);
        assert all[n - 1] == done[n - 1];
        FreshTuple(all, parts, n);
        tree := tree[active.value.part := active.value.rows];
      }
      assert tree == tree0 + Grouped(done, parts);
      GroupedKeys(done, parts);
      if part in tree { return None; }
      StartRun(tree0, done, run, parts, part);
      return Some(Writer(part, run));
    }

    /** One batch, run by run, until a run belongs to a file that was there before. */
    method WriteBatch(batch: seq<Row>, active: Option<Writer>, parts: seq<Part>,
                      ghost tree0: Tree, ghost done: seq<Row>, ghost all: seq<Row>)
      returns (ok: bool, next: Option<Writer>)
      requires Contiguous(all, parts) && done + batch <= all
      requires Streaming(tree, tree0, active, done, parts)
      modifies this
      ensures ok ==> Streaming(tree, tree0, next, done + batch, parts)
      ensures !ok ==> exists p :: p in Paths(all, parts) && p in tree0
    {
      hide Where, Pick, Grouped, Contiguous, Streaming;
      next := active;
      var start := 0;
      assert done + batch[..0] == done;
      while start < |batch|
        invariant 0 <= start <= |batch|
        invariant Streaming(tree, tree0, next, done + batch[..start], parts)
      {
        var end := RunEnd(batch, start, parts);
        var run := batch[start..end];
        ghost var so := done + batch[..start];
        assert so + run == done + batch[..end] <= all;
        assert forall i :: 0 <= i < |run| ==> run[i] == batch[start + i];
        var writer := WriteRun(next, Where(batch[start], parts), run, parts, tree0, so, all);
        if writer.None? {
          assert all[|so|] == (so + run)[|so|] == batch[start];
          assert Where(all[|so|], parts) in Paths(all, parts);
          return false, next;
        }
        next, start := writer, end;
      }
      assert batch[..|batch|] == batch;
      return true, next;
    }

    /** Write every row of the stream to its partition file, one open file at a time.  It succeeds
        exactly when no partition of the stream exists already, and then adds exactly the groups. */
    method Stream(batches: seq<seq<Row>>, parts: seq<Part>) returns (ok: bool)
      requires Contiguous(Flatten(batches), parts)
      modifies this
      ensures ok <==> forall p :: p in Paths(Flatten(batches), parts) ==> p !in old(tree)
      ensures ok ==> tree == old(tree) + Grouped(Flatten(batches), parts)
    {
      hide Where, Pick, Grouped, Contiguous, Paths;
      ghost var all := Flatten(batches);
      var active: Option<Writer> := None;
      GroupedNothing(parts);
      for b := 0 to |batches|
        invariant Streaming(tree, old(tree), active, Flatten(batches[..b]), parts)
      {
        FlattenNext(batches, b);
        ok, active := WriteBatch(batches[b], active, parts, old(tree), Flatten(batches[..b]), all);
        if !ok { return; }
      }
      assert batches[..|batches|] == batches;
      if active.Some? {
        FinishRun(tree, old(tree), active.value, all, parts);
        tree := tree[active.value.part := active.value.rows];
      }
      return true;
    }
  }

  lemma FlattenNext(batches: seq<seq<Row>>, b: nat)
    requires b < |batches|
    ensures Flatten(batches[..b + 1]) == Flatten(batches[..b]) + batches[b] <= Flatten(batches)
  {
    assert batches[..b + 1][..b] == batches[..b];
    FlattenPrefix(batches, b + 1);
  }

  /** Where the run of equal tuples that begins at `start` ends. */
  method RunEnd(batch: seq<Row>, start: nat, parts: seq<Part>) returns (end: nat)
    requires start < |batch|
    ensures start < end <= |batch|
    ensures forall i :: start <= i < end ==> Where(batch[i], parts) == Where(batch[start], parts)
    ensures end < |batch| ==> Where(batch[end], parts) != Where(batch[start], parts)
  {
    end := start + 1;
    while end < |batch| && Where(batch[end], parts) == Where(batch[start], parts)
      invariant start < end <= |batch|
      invariant forall i :: start <= i < end ==> Where(batch[i], parts) == Where(batch[start], parts)
    {
      end := end + 1;
    }
  }

  lemma GroupedNothing(parts: seq<Part>)
    ensures Paths([], parts) == {} && Grouped([], parts) == map[]
  {
  }

  lemma GroupedKeys(rows: seq<Row>, parts: seq<Part>)
    ensures Grouped(rows, parts).Keys == Paths(rows, parts)
  {
  }
}
