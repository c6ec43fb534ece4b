/**
 Incremental export of a series as a tree of calendar partitions plus a manifest.

 A build reuses the whole tree, adopts a new digest, rewrites only the dirty tail, or rebuilds.
 `Consistent` is what every successful build leaves: the tree is the partitioning of the current
 source and the manifest describes exactly that tree.
 */
module Export {
  import opened Wrappers
  import opened Partitions
  import opened PartitionWriter

  /** Table contents; duplicates count. */
  type Source = multiset<Row>

  // ----- the simple thing: group all current rows by partition -----

  ghost predicate HasPath(src: Source, parts: seq<Part>, p: Path) {
    exists r :: r in src && Where(r, parts) == p
  }

  predicate Chronological(rows: seq<Row>) {
    forall i, j :: 0 <= i < j < |rows| ==> TimeLe(rows[i], rows[j])
  }

  ghost predicate FileOk(rows: seq<Row>, src: Source, parts: seq<Part>, p: Path) {
    && (forall r: Row :: multiset(rows)[r] == if Where(r, parts) == p then src[r] else 0)
    && Chronological(rows)
  }

  /** One file per partition that has a row, holding exactly its rows in time order. */
  ghost predicate Partitioned(tree: Tree, src: Source, parts: seq<Part>) {
    && (forall p :: p in tree <==> HasPath(src, parts, p))
    && (forall p :: p in tree ==> FileOk(tree[p], src, parts, p))
  }

  // ----- the ordered query -----

  predicate LexLe(a: Path, b: Path) {
    if a == [] || b == [] then a == []
    else a[0].1 < b[0].1 || (a[0].1 == b[0].1 && LexLe(a[1..], b[1..]))
  }

  ghost predicate RowLe(a: Row, b: Row, parts: seq<Part>) {
    && LexLe(Where(a, parts), Where(b, parts))
    && (Where(a, parts) == Where(b, parts) ==> TimeLe(a, b))
  }

  ghost predicate OrderBy(rows: seq<Row>, parts: seq<Part>) {
    forall i, j :: 0 <= i < j < |rows| ==> RowLe(rows[i], rows[j], parts)
  }

  /** `SELECT ... WHERE timestamp >= from ORDER BY partition columns, timestamp`, cut into batches anywhere. */
  ghost predicate QueryOk(batches: seq<seq<Row>>, src: Source, from: Option<int>, parts: seq<Part>) {
    && OrderBy(Flatten(batches), parts)
    && forall r: Row :: multiset(Flatten(batches))[r] == if from.None? || from.value <= r.secs then src[r] else 0
  }

  lemma {:induction false} LexAntisymmetric(a: Path, b: Path)
    requires LexLe(a, b) && LexLe(b, a) && |a| == |b|
    requires forall i :: 0 <= i < |a| ==> a[i].0 == b[i].0
    ensures a == b
  {
    if a != [] {
      assert forall i :: 0 <= i < |a[1..]| ==> a[1..][i].0 == b[1..][i].0;
      LexAntisymmetric(a[1..], b[1..]);
      assert a == [a[0]] + a[1..] && b == [b[0]] + b[1..];
    }
  }

  lemma SameShape(r: Row, s: Row, parts: seq<Part>)
    ensures |Where(r, parts)| == |Where(s, parts)| == |parts|
    ensures forall i :: 0 <= i < |parts| ==> Where(r, parts)[i].0 == Where(s, parts)[i].0
  {
  }

  /** Rows ordered by partition tuple have equal tuples adjacent. */
  lemma OrderedIsContiguous(rows: seq<Row>, parts: seq<Part>)
    requires OrderBy(rows, parts)
    ensures Contiguous(rows, parts)
  {
    hide Where;
    forall i, j, k | 0 <= i < j < k < |rows| && Where(rows[i], parts) == Where(rows[k], parts)
      ensures Where(rows[j], parts) == Where(rows[i], parts)
    {
      assert RowLe(rows[i], rows[j], parts) && RowLe(rows[j], rows[k], parts);
      SameShape(rows[i], rows[j], parts);
      LexAntisymmetric(Where(rows[i], parts), Where(rows[j], parts));
    }
  }

  // ----- every source can be queried -----

  lemma {:induction false} LexTotal(a: Path, b: Path)
    requires |a| == |b|
    ensures LexLe(a, b) || LexLe(b, a)
  {
    if a != [] { LexTotal(a[1..], b[1..]); }
  }

  lemma {:induction false} LexTransitive(a: Path, b: Path, c: Path)
    requires LexLe(a, b) && LexLe(b, c) && |a| == |b| == |c|
    ensures LexLe(a, c)
  {
    if a != [] && a[0].1 == b[0].1 == c[0].1 { LexTransitive(a[1..], b[1..], c[1..]); }
  }

  lemma RowTotal(a: Row, b: Row, parts: seq<Part>)
    ensures RowLe(a, b, parts) || RowLe(b, a, parts)
  {
    hide Where;
    SameShape(a, b, parts);
    LexTotal(Where(a, parts), Where(b, parts));
    if LexLe(Where(a, parts), Where(b, parts)) && LexLe(Where(b, parts), Where(a, parts)) {
      LexAntisymmetric(Where(a, parts), Where(b, parts));
    }
  }

  lemma RowTransitive(a: Row, b: Row, c: Row, parts: seq<Part>)
    requires RowLe(a, b, parts) && RowLe(b, c, parts)
    ensures RowLe(a, c, parts)
  {
    hide Where;
    SameShape(a, b, parts);
    SameShape(b, c, parts);
    LexTransitive(Where(a, parts), Where(b, parts), Where(c, parts));
    if Where(a, parts) == Where(c, parts) { LexAntisymmetric(Where(a, parts), Where(b, parts)); }
  }

  lemma {:induction false} InsertRow(rows: seq<Row>, r: Row, parts: seq<Part>) returns (out: seq<Row>)
    requires OrderBy(rows, parts)
    ensures OrderBy(out, parts) && multiset(out) == multiset(rows) + multiset{r}
  {
    hide RowLe;
    if rows == [] {
      out := [r];
    } else if RowLe(r, rows[0], parts) {
      out := [r] + rows;
      forall i, j | 0 <= i < j < |out| ensures RowLe(out[i], out[j], parts) {
        if i > 0 {
          assert RowLe(rows[i - 1], rows[j - 1], parts);
        } else if j > 1 {
          assert RowLe(rows[0], rows[j - 1], parts);
          RowTransitive(r, rows[0], rows[j - 1], parts);
        }
      }
    } else {
      RowTotal(r, rows[0], parts);
      forall i, j | 0 <= i < j < |rows[1..]| ensures RowLe(rows[1..][i], rows[1..][j], parts) {
        assert RowLe(rows[i + 1], rows[j + 1], parts);
      }
      var rest := InsertRow(rows[1..], r, parts);
      assert rows == [rows[0]] + rows[1..];
      out := [rows[0]] + rest;
      forall x | x in multiset(rest) ensures RowLe(rows[0], x, parts) {
        if x != r {
          assert x in multiset(rows[1..]);
          var k :| 0 <= k < |rows[1..]| && rows[1..][k] == x;
          assert RowLe(rows[0], rows[k + 1], parts);
        }
      }
      forall i, j | 0 <= i < j < |out| ensures RowLe(out[i], out[j], parts) {
        if i > 0 {
          assert RowLe(rest[i - 1], rest[j - 1], parts);
        } else {
          assert rest[j - 1] in multiset(rest);
        }
      }
    }
  }

  /** What the query asks for exists for every source, watermark and partition list. */
  lemma {:induction false} QueryExists(src: Source, from: Option<int>, parts: seq<Part>)
    returns (batches: seq<seq<Row>>)
    ensures QueryOk(batches, src, from, parts)
    decreases |src|
  {
    hide OrderBy, Flatten;
    if src == multiset{} {
      batches := [];
      NothingOrdered(parts);
    } else {
      var r :| r in src;
      var rest := QueryExists(src - multiset{r}, from, parts);
      var rows := Flatten(rest);
      if from.None? || from.value <= r.secs { rows := InsertRow(rows, r, parts); }
      OneBatch(rows);
      batches := [rows];
      forall x: Row ensures multiset(rows)[x] == if from.None? || from.value <= x.secs then src[x] else 0 {
        assert multiset(Flatten(rest))[x] == if from.None? || from.value <= x.secs then (src - multiset{r})[x] else 0;
      }
    }
  }

  lemma OneBatch(rows: seq<Row>)
    ensures Flatten([rows]) == rows
  {
    assert [rows][..0] == [];
  }

  lemma NothingOrdered(parts: seq<Part>)
    ensures OrderBy(Flatten([]), parts) && Flatten([]) == []
  {
  }

  lemma {:induction false} PickCounts(rows: seq<Row>, parts: seq<Part>, p: Path, r: Row)
    ensures multiset(Pick(rows, parts, p))[r] == if Where(r, parts) == p then multiset(rows)[r] else 0
  {
    hide Where;
    if rows != [] {
      var n := |rows| - 1;
      PickCounts(rows[..n], parts, p, r);
      assert rows == rows[..n] + [rows[n]];
    }
  }

  lemma {:induction false} PickMember(rows: seq<Row>, parts: seq<Part>, p: Path, j: nat)
    requires j < |Pick(rows, parts, p)|
    ensures exists i :: 0 <= i < |rows| && rows[i] == Pick(rows, parts, p)[j] && Where(rows[i], parts) == p
  {
    hide Where;
    var n := |rows| - 1;
    if j < |Pick(rows[..n], parts, p)| {
      PickMember(rows[..n], parts, p, j);
      var i :| 0 <= i < n && rows[..n][i] == Pick(rows[..n], parts, p)[j] && Where(rows[..n][i], parts) == p;
      assert rows[i] == Pick(rows, parts, p)[j];
    } else {
      assert rows[n] == Pick(rows, parts, p)[j];
    }
  }

  lemma {:induction false} PickChronological(rows: seq<Row>, parts: seq<Part>, p: Path)
    requires OrderBy(rows, parts)
    ensures Chronological(Pick(rows, parts, p))
  {
    hide Where, LexLe;
    if rows != [] {
      var n := |rows| - 1;
      var head, all := Pick(rows[..n], parts, p), Pick(rows, parts, p);
      PickChronological(rows[..n], parts, p);
      forall i, j | 0 <= i < j < |all| ensures TimeLe(all[i], all[j]) {
        if j == |head| {
          PickMember(rows[..n], parts, p, i);
          var k :| 0 <= k < n && rows[..n][k] == head[i] && Where(rows[..n][k], parts) == p;
          assert rows[k] == all[i] && rows[n] == all[j];
        }
      }
    }
  }

  lemma GroupedFile(rows: seq<Row>, parts: seq<Part>, p: Path, src: Source)
    requires OrderBy(rows, parts)
    requires forall r: Row :: Where(r, parts) == p ==> multiset(rows)[r] == src[r]
    ensures FileOk(Pick(rows, parts, p), src, parts, p)
  {
    hide Where, Pick, OrderBy;
    PickChronological(rows, parts, p);
    forall r: Row ensures multiset(Pick(rows, parts, p))[r] == if Where(r, parts) == p then src[r] else 0 {
      PickCounts(rows, parts, p, r);
    }
  }

  // ----- the simple thing is determined -----

  ghost function Times(rows: seq<Row>): seq<(int, int)> {
    seq(|rows|, i requires 0 <= i < |rows| => (rows[i].secs, rows[i].sub))
  }

  ghost predicate InOrder(ts: seq<(int, int)>) {
    forall i, j :: 0 <= i < j < |ts| ==> ts[i].0 < ts[j].0 || (ts[i].0 == ts[j].0 && ts[i].1 <= ts[j].1)
  }

  lemma Without<T>(s: seq<T>, k: nat)
    requires k < |s|
    ensures multiset(s[..k] + s[k + 1..]) == multiset(s) - multiset{s[k]}
  {
    assert s == s[..k] + [s[k]] + s[k + 1..];
  }

  lemma Earliest(a: seq<(int, int)>, b: seq<(int, int)>)
    requires InOrder(a) && InOrder(b) && a != [] && b != [] && a[0] in b && b[0] in a
    ensures a[0] == b[0]
  {
  }

  lemma SameMembers<T>(a: seq<T>, b: seq<T>)
    requires multiset(a) == multiset(b)
    ensures |a| == |b| && forall x :: x in a ==> x in b
  {
    assert |a| == |multiset(a)| == |multiset(b)| == |b|;
    forall x | x in a ensures x in b { assert x in multiset(a); }
  }

  lemma TailInOrder(a: seq<(int, int)>)
    requires InOrder(a) && a != []
    ensures InOrder(a[1..]) && a[..0] + a[1..] == a[1..] && a == [a[0]] + a[1..]
  {
  }

  /** An ordered list of instants is determined by how often each occurs. */
  lemma {:induction false} InOrderUnique(a: seq<(int, int)>, b: seq<(int, int)>)
    requires InOrder(a) && InOrder(b) && multiset(a) == multiset(b)
    ensures a == b
    decreases |a|
  {
    hide InOrder;
    SameMembers(a, b);
    SameMembers(b, a);
    if a != [] {
      assert a[0] in a && b[0] in b;
      Earliest(a, b);
      TailInOrder(a);
      TailInOrder(b);
      Without(a, 0);
      Without(b, 0);
      InOrderUnique(a[1..], b[1..]);
    }
  }

  lemma TimesWithout(rows: seq<Row>, k: nat)
    requires k < |rows|
    ensures multiset(Times(rows)) == multiset(Times(rows[..k] + rows[k + 1..])) + multiset{Times(rows)[k]}
  {
    var ts := Times(rows);
    assert Times(rows[..k] + rows[k + 1..]) == ts[..k] + ts[k + 1..];
    assert ts == ts[..k] + [ts[k]] + ts[k + 1..];
  }

  lemma {:induction false} TimesCount(rows: seq<Row>, other: seq<Row>)
    requires multiset(rows) == multiset(other)
    ensures multiset(Times(rows)) == multiset(Times(other))
    decreases |rows|, 1
  {
    SameMembers(rows, other);
    if rows == [] {
      assert rows == other;
    } else {
      assert rows[0] in rows;
      var k :| 0 <= k < |other| && other[k] == rows[0];
      assert Times(rows)[0] == Times(other)[k];
      TimesRest(rows, 0, other, k);
    }
  }

  lemma TimesRest(rows: seq<Row>, i: nat, other: seq<Row>, k: nat)
    requires i < |rows| && k < |other| && multiset(rows) == multiset(other)
    requires rows[i] == other[k] && Times(rows)[i] == Times(other)[k]
    ensures multiset(Times(rows)) == multiset(Times(other))
    decreases |rows|, 0
  {
    hide Times;
    TimesWithout(rows, i);
    TimesWithout(other, k);
    Without(rows, i);
    Without(other, k);
    TimesCount(rows[..i] + rows[i + 1..], other[..k] + other[k + 1..]);
  }

  /** Two partitionings of the same rows have the same files, and each file the same column of times: only rows of
      one instant can change places. */
  lemma PartitionedUnique(one: Tree, other: Tree, src: Source, parts: seq<Part>)
    requires Partitioned(one, src, parts) && Partitioned(other, src, parts)
    ensures one.Keys == other.Keys
    ensures forall p :: p in one ==> multiset(one[p]) == multiset(other[p]) && Times(one[p]) == Times(other[p])
  {
    hide Where, HasPath;
    forall p | p in one
      ensures p in other && multiset(one[p]) == multiset(other[p]) && Times(one[p]) == Times(other[p])
    {
      assert p in other && FileOk(one[p], src, parts, p) && FileOk(other[p], src, parts, p);
      assert multiset(one[p]) == multiset(other[p]);
      TimesCount(one[p], other[p]);
      InOrderUnique(Times(one[p]), Times(other[p]));
    }
    forall p | p in other ensures p in one { assert HasPath(src, parts, p); }
  }

  lemma PathsMember(rows: seq<Row>, parts: seq<Part>, p: Path)
    ensures p in Paths(rows, parts) <==> exists r :: r in multiset(rows) && Where(r, parts) == p
  {
    hide Where;
    if p in Paths(rows, parts) {
      var i :| 0 <= i < |rows| && Where(rows[i], parts) == p;
      assert rows[i] in multiset(rows);
    }
    if r :| r in multiset(rows) && Where(r, parts) == p {
      assert r in rows;
      var i :| 0 <= i < |rows| && rows[i] == r;
    }
  }

  /** A full rewrite is the partitioning of the source. */
  lemma FullRewrite(batches: seq<seq<Row>>, src: Source, parts: seq<Part>)
    requires QueryOk(batches, src, None, parts)
    ensures Partitioned(Grouped(Flatten(batches), parts), src, parts)
  {
    hide Where, Pick, OrderBy, FileOk, Flatten;
    var rows := Flatten(batches);
    assert multiset(rows) == src;
    forall p ensures p in Paths(rows, parts) <==> HasPath(src, parts, p) { PathsMember(rows, parts, p); }
    forall p | p in Paths(rows, parts) ensures FileOk(Pick(rows, parts, p), src, parts, p) {
      GroupedFile(rows, parts, p, src);
    }
  }

  // ----- the manifest -----

  /** A digest stands for the file it was computed from. */
  datatype Entry = Entry(file: Path, digest: seq<Row>, start: Option<int>, end: Option<int>)

  datatype SeriesManifest = SeriesManifest(digest: Option<nat>, partitions: seq<Entry>)

  ghost predicate TimesOk(e: Entry) {
    match Bounds(e.file)
    case Ok(None) => e.start.None? && e.end.None?
    case Ok(Some((s, x))) => e.start == Some(s) && e.end == Some(x)
    case Err => false
  }

  predicate Intact(e: Entry, tree: Tree) {
    e.file in tree && tree[e.file] == e.digest
  }

  ghost predicate Lists(es: seq<Entry>, p: Path) {
    exists i :: 0 <= i < |es| && es[i].file == p
  }

  ghost predicate Differ(a: Entry, b: Entry) {
    a.file != b.file
  }

  /** One entry per file, no more and no less, with its digest and bounds. */
  ghost predicate Describes(es: seq<Entry>, tree: Tree) {
    && (forall i :: 0 <= i < |es| ==> Intact(es[i], tree) && TimesOk(es[i]))
    && (forall i, j :: 0 <= i < j < |es| ==> Differ(es[i], es[j]))
    && (forall p :: p in tree ==> Lists(es, p))
  }

  ghost predicate Consistent(tree: Tree, m: SeriesManifest, src: Source, parts: seq<Part>) {
    Partitioned(tree, src, parts) && Describes(m.partitions, tree)
  }

  // ----- the dirty tail -----

  predicate Reusable(e: Entry, lo: int) {
    e.end.Some? && e.end.value <= lo
  }

  ghost predicate AgreeBefore(a: Source, b: Source, lo: int) {
    forall r: Row :: r.secs < lo ==> a[r] == b[r]
  }

  /** The watermark of the rewrite: the changed point, lowered to the start of every partition it reaches. */
  ghost predicate RewriteFrom(es: seq<Entry>, lo: int, from: Option<int>) {
    && (from.None? ==> exists i :: 0 <= i < |es| && !Reusable(es[i], lo) && es[i].start.None?)
    && (from.Some? ==>
          && from.value <= lo
          && (forall i :: 0 <= i < |es| && !Reusable(es[i], lo) ==>
              es[i].start.Some? && from.value <= es[i].start.value)
          && (from.value == lo || exists i :: 0 <= i < |es| && !Reusable(es[i], lo) && es[i].start == from))
  }

  ghost function Kept(es: seq<Entry>, lo: int): set<Path> {
    set i | 0 <= i < |es| && Reusable(es[i], lo) :: es[i].file
  }

  /** Files in the directory that the manifest does not list. */
  ghost function Strays(es: seq<Entry>, tree: Tree): set<Path> {
    set p | p in tree && !Lists(es, p)
  }

  /** What the sweep of a tail build leaves of the directory. */
  ghost function RestOf(es: seq<Entry>, lo: int, found: Tree): Tree {
    map p | p in found && (p in Kept(es, lo) || !Lists(es, p)) :: found[p]
  }

  lemma NoParts(r: Row)
    ensures Where(r, []) == []
  {
  }

  lemma KeptEntry(es: seq<Entry>, lo: int, p: Path) returns (i: nat)
    requires p in Kept(es, lo)
    ensures i < |es| && Reusable(es[i], lo) && es[i].file == p
  {
    i :| 0 <= i < |es| && Reusable(es[i], lo) && es[i].file == p;
  }

  lemma DistinctFiles(es: seq<Entry>, tree: Tree, i: nat, j: nat)
    requires Describes(es, tree) && i < |es| && j < |es| && i != j
    ensures es[i].file != es[j].file
  {
    assert if i < j then Differ(es[i], es[j]) else Differ(es[j], es[i]);
  }

  /** A manifest entry of a nested partition bounds exactly its own instants. */
  lemma EntryExact(e: Entry, r: Row, u: int, parts: seq<Part>)
    requires Nested(parts) && TimesOk(e) && e.file == Where(r, parts)
    ensures e.start.Some? && e.end.Some?
    ensures e.start.value <= u < e.end.value <==> PathOf(parts, u) == e.file
  {
    hide PathOf, Bounds, Nested;
    BoundsExact(parts, r.secs, u);
  }

  /** A listed partition is reused exactly when it is over before the changed point: every instant of it is
      earlier. */
  lemma KeptIffPast(es: seq<Entry>, tree: Tree, parts: seq<Part>, lo: int, t: int)
    requires Describes(es, tree) && Nested(parts) && Lists(es, PathOf(parts, t))
    ensures PathOf(parts, t) in Kept(es, lo) <==> forall u :: PathOf(parts, u) == PathOf(parts, t) ==> u < lo
  {
    hide PathOf, Nested, Differ, Bounds;
    var p := PathOf(parts, t);
    var i :| 0 <= i < |es| && es[i].file == p;
    assert TimesOk(es[i]);
    forall u ensures es[i].start.Some? && es[i].end.Some?
                     && (es[i].start.value <= u < es[i].end.value <==> PathOf(parts, u) == p) {
      BoundsExact(parts, t, u);
    }
    if p in Kept(es, lo) {
      var j := KeptEntry(es, lo, p);
      if j != i { DistinctFiles(es, tree, i, j); }
    }
    if forall u :: PathOf(parts, u) == p ==> u < lo {
      assert PathOf(parts, es[i].end.value - 1) == p;
    }
  }

  /** Without partitions nothing is reused. */
  lemma FlatNeverKept(es: seq<Entry>, tree: Tree, lo: int)
    requires Describes(es, tree)
    ensures [] !in Kept(es, lo)
  {
    hide Lists, Differ;
    forall i | 0 <= i < |es| && es[i].file == [] ensures !Reusable(es[i], lo) {
      assert TimesOk(es[i]);
      FlatTimes(es[i]);
    }
  }

  // ----- a tree with alien files -----

  /** The tree is the partitioning of the source, but for the files `alien`, which hold nothing of it. */
  ghost predicate Mostly(tree: Tree, src: Source, parts: seq<Part>, alien: set<Path>) {
    && (forall p :: p in alien ==> p in tree && !HasPath(src, parts, p))
    && (forall p :: p !in alien ==> (p in tree <==> HasPath(src, parts, p)))
    && (forall p :: p in tree && p !in alien ==> FileOk(tree[p], src, parts, p))
  }

  /** Such a tree is right exactly without alien files. */
  lemma MostlyRight(tree: Tree, src: Source, parts: seq<Part>, alien: set<Path>)
    requires Mostly(tree, src, parts, alien)
    ensures Partitioned(tree, src, parts) <==> alien == {}
  {
    hide HasPath, FileOk;
    if alien != {} {
      var p :| p in alien;
      assert p in tree && !HasPath(src, parts, p);
    }
  }

  lemma RightIsMostly(tree: Tree, src: Source, parts: seq<Part>)
    requires Partitioned(tree, src, parts)
    ensures Mostly(tree, src, parts, {})
  {
  }

  /** The entry that lists the partition of a row of the source spans its time. */
  lemma RowEntry(es: seq<Entry>, tree: Tree, src: Source, parts: seq<Part>, alien: set<Path>, r: Row) returns (i: nat)
    requires Mostly(tree, src, parts, alien) && Describes(es, tree) && (parts == [] || Nested(parts)) && r in src
    ensures i < |es| && es[i].file == Where(r, parts) && TimesOk(es[i])
    ensures parts != [] ==> es[i].start.Some? && es[i].end.Some? && es[i].start.value <= r.secs < es[i].end.value
    ensures parts == [] ==> es[i].start.None? && es[i].end.None?
  {
    hide PathOf, Nested, Bounds, FileOk, TimesOk;
    assert HasPath(src, parts, Where(r, parts));
    assert Lists(es, Where(r, parts));
    i :| 0 <= i < |es| && es[i].file == Where(r, parts);
    assert TimesOk(es[i]);
    if parts == [] {
      NoParts(r);
      FlatTimes(es[i]);
    } else {
      EntryExact(es[i], r, r.secs, parts);
    }
  }

  lemma FlatTimes(e: Entry)
    requires TimesOk(e) && e.file == []
    ensures e.start.None? && e.end.None?
  {
  }

  /** A row of a reusable partition lies before the changed point. */
  lemma KeptIsEarly(es: seq<Entry>, tree: Tree, parts: seq<Part>, lo: int, r: Row)
    requires Describes(es, tree) && (parts == [] || Nested(parts)) && Where(r, parts) in Kept(es, lo)
    ensures r.secs < lo
  {
    hide PathOf, Nested, Bounds, TimesOk;
    var i := KeptEntry(es, lo, Where(r, parts));
    assert TimesOk(es[i]);
    if parts == [] {
      NoParts(r);
      FlatTimes(es[i]);
    } else {
      EntryExact(es[i], r, r.secs, parts);
    }
  }

  /** A row of the source below the watermark belongs to a reused partition: none is lost in between. */
  lemma BelowIsReused(es: seq<Entry>, tree: Tree, src: Source, parts: seq<Part>, alien: set<Path>, lo: int, from: int,
                      r: Row)
    requires Mostly(tree, src, parts, alien) && Describes(es, tree) && RewriteFrom(es, lo, Some(from))
    requires (parts == [] || Nested(parts)) && r in src && r.secs < from
    ensures Where(r, parts) in Kept(es, lo)
  {
    hide Mostly, Describes, Nested, TimesOk, Where;
    var i := RowEntry(es, tree, src, parts, alien, r);
  }

  // ----- the stream and the reused partitions -----

  ghost predicate Spans(e: Entry, u: int) {
    e.start.Some? && e.end.Some? && e.start.value <= u < e.end.value
  }

  /** Under nested parts, an entry of a right tree spans an instant exactly when it is that instant's partition. */
  lemma EntrySpans(es: seq<Entry>, tree: Tree, src: Source, parts: seq<Part>, i: nat, u: int)
    requires Partitioned(tree, src, parts) && Describes(es, tree) && Nested(parts) && i < |es|
    ensures es[i].start.Some? && es[i].end.Some?
    ensures Spans(es[i], u) <==> PathOf(parts, u) == es[i].file
  {
    hide FileOk, Bounds, PathOf, Nested;
    assert Intact(es[i], tree) && TimesOk(es[i]);
    assert HasPath(src, parts, es[i].file);
    var r :| r in src && Where(r, parts) == es[i].file;
    EntryExact(es[i], r, u, parts);
  }

  lemma WatermarkExists(es: seq<Entry>, tree: Tree, src: Source, parts: seq<Part>, lo: int, from: Option<int>)
    requires Partitioned(tree, src, parts) && Describes(es, tree) && RewriteFrom(es, lo, from) && Nested(parts)
    ensures from.Some?
  {
    hide Partitioned, Describes, PathOf, Nested;
    forall i | 0 <= i < |es| ensures es[i].start.Some? { EntrySpans(es, tree, src, parts, i, 0); }
  }

  /** Next to a right tree no row from the watermark on belongs to a reused partition, so the stream
      meets no reused file. */
  lemma StreamAvoidsReused(es: seq<Entry>, tree: Tree, src: Source, parts: seq<Part>, lo: int, from: Option<int>,
                           r: Row, i: nat)
    requires Partitioned(tree, src, parts) && Describes(es, tree) && RewriteFrom(es, lo, from) && Nested(parts)
    requires i < |es| && Reusable(es[i], lo) && (from.None? || from.value <= r.secs)
    ensures Where(r, parts) != es[i].file
  {
    hide Partitioned, Describes, PathOf, Nested;
    WatermarkExists(es, tree, src, parts, lo, from);
    EntrySpans(es, tree, src, parts, i, r.secs);
    if r.secs < lo {
      // a dirty partition lowered the watermark, and it spans everything from there to the changed point
      var d :| 0 <= d < |es| && !Reusable(es[d], lo) && es[d].start == from;
      EntrySpans(es, tree, src, parts, d, r.secs);
      DistinctFiles(es, tree, d, i);
    }
  }

  lemma KeptIsBelow(es: seq<Entry>, tree: Tree, src: Source, parts: seq<Part>, lo: int, from: Option<int>, r: Row)
    requires Partitioned(tree, src, parts) && Describes(es, tree) && RewriteFrom(es, lo, from)
    requires (parts == [] || Nested(parts)) && Where(r, parts) in Kept(es, lo)
    ensures from.Some? && r.secs < from.value
  {
    hide Partitioned, PathOf, Nested, TimesOk, RewriteFrom;
    var i := KeptEntry(es, lo, Where(r, parts));
    assert TimesOk(es[i]);
    if parts == [] {
      NoParts(r);
      FlatTimes(es[i]);
    } else if from.None? || from.value <= r.secs {
      StreamAvoidsReused(es, tree, src, parts, lo, from, r, i);
    }
  }

  // ----- the tail step -----

  /** The two sources agree wherever a tail build does not look. */
  ghost predicate AgreeUnread(es: seq<Entry>, lo: int, from: Option<int>, a: Source, b: Source, parts: seq<Part>) {
    && (forall r: Row :: Where(r, parts) in Kept(es, lo) ==> a[r] == b[r])
    && (forall r: Row :: from.Some? && r.secs < from.value ==> a[r] == b[r])
  }

  /** Agreement before the changed point is enough. */
  lemma AgreementIsEnough(es: seq<Entry>, tree: Tree, a: Source, b: Source, parts: seq<Part>, lo: int,
                          from: Option<int>)
    requires Describes(es, tree) && (parts == [] || Nested(parts)) && RewriteFrom(es, lo, from) && AgreeBefore(a, b, lo)
    ensures AgreeUnread(es, lo, from, a, b, parts)
  {
    hide Describes, Nested, Where, Kept;
    forall r: Row | Where(r, parts) in Kept(es, lo) ensures a[r] == b[r] { KeptIsEarly(es, tree, parts, lo, r); }
  }

  /** A surviving file that is not a partition of the old source is none of the new one either. */
  lemma AlienStays(es: seq<Entry>, tree: Tree, before: Source, current: Source, parts: seq<Part>, alien: set<Path>,
                   lo: int, from: Option<int>, batches: seq<seq<Row>>, p: Path)
    requires Mostly(tree, before, parts, alien) && Describes(es, tree)
    requires AgreeUnread(es, lo, from, before, current, parts)
    requires QueryOk(batches, current, from, parts) && p !in Paths(Flatten(batches), parts)
    requires p in alien || !Lists(es, p)
    ensures !HasPath(current, parts, p)
  {
    hide Where, FileOk, OrderBy, Flatten, TimesOk, Kept;
    var rows := Flatten(batches);
    assert p !in alien ==> p !in tree;
    assert !HasPath(before, parts, p);
    PathsMember(rows, parts, p);
    forall r: Row | Where(r, parts) == p ensures r !in current {
      assert r !in before && r !in multiset(rows);
    }
  }

  /** A reused partition of the old source is one of the new source. */
  lemma KeptStays(es: seq<Entry>, tree: Tree, before: Source, current: Source, parts: seq<Part>, alien: set<Path>,
                  lo: int, from: Option<int>, p: Path)
    requires Mostly(tree, before, parts, alien) && Describes(es, tree)
    requires AgreeUnread(es, lo, from, before, current, parts)
    requires p in Kept(es, lo) && p !in alien
    ensures p in tree && HasPath(current, parts, p) && FileOk(tree[p], current, parts, p)
  {
    hide Where, Chronological, TimesOk;
    var i := KeptEntry(es, lo, p);
    assert Intact(es[i], tree);
    assert HasPath(before, parts, p);
    var r :| r in before && Where(r, parts) == p;
    assert r in current;
    assert FileOk(tree[p], before, parts, p);
  }

  /** Any other partition is streamed whole. */
  lemma StreamedWhole(es: seq<Entry>, tree: Tree, before: Source, current: Source, parts: seq<Part>, alien: set<Path>,
                      lo: int, from: Option<int>, batches: seq<seq<Row>>, p: Path)
    requires Mostly(tree, before, parts, alien) && Describes(es, tree)
    requires AgreeUnread(es, lo, from, before, current, parts)
    requires RewriteFrom(es, lo, from) && (parts == [] || Nested(parts)) && QueryOk(batches, current, from, parts)
    requires p !in Kept(es, lo)
    ensures p in Paths(Flatten(batches), parts) <==> HasPath(current, parts, p)
    ensures FileOk(Pick(Flatten(batches), parts, p), current, parts, p)
  {
    hide Where, Mostly, Describes, Nested, RewriteFrom, Kept, OrderBy, Pick, FileOk, Flatten;
    var rows := Flatten(batches);
    forall r: Row | Where(r, parts) == p ensures multiset(rows)[r] == current[r] {
      if from.Some? && r.secs < from.value && r in current {
        BelowIsReused(es, tree, before, parts, alien, lo, from.value, r);
      }
    }
    PathsMember(rows, parts, p);
    GroupedFile(rows, parts, p, current);
  }

  /** What is alien after a tail build: the alien files it kept and the strays it found. */
  ghost function AlienAfter(es: seq<Entry>, lo: int, found: Tree, alien: set<Path>): set<Path> {
    alien * Kept(es, lo) + Strays(es, found)
  }

  /** A tail build from a mostly right tree, of sources that agree where it does not look, is mostly right
      again: reused partitions plus streamed tail are the partitioning of the new source, but for the
      alien files that survive. */
  lemma TailStep(es: seq<Entry>, seed: Tree, found: Tree, before: Source, current: Source, parts: seq<Part>,
                 alien: set<Path>, lo: int, from: Option<int>, batches: seq<seq<Row>>)
    requires Mostly(seed, before, parts, alien) && Describes(es, seed)
    requires AgreeUnread(es, lo, from, before, current, parts)
    requires RewriteFrom(es, lo, from) && (parts == [] || Nested(parts)) && QueryOk(batches, current, from, parts)
    requires forall p :: p in Kept(es, lo) ==> p in found && p in seed && found[p] == seed[p]
    requires Paths(Flatten(batches), parts) !! RestOf(es, lo, found).Keys
    ensures Mostly(RestOf(es, lo, found) + Grouped(Flatten(batches), parts), current, parts,
                   AlienAfter(es, lo, found, alien))
  {
    hide Where, Mostly, Describes, Nested, RewriteFrom, Kept, QueryOk, Pick, FileOk, Flatten, HasPath, Paths,
         AgreeUnread, Lists;
    var rest, rows, bad := RestOf(es, lo, found), Flatten(batches), AlienAfter(es, lo, found, alien);
    var out := rest + Grouped(rows, parts);
    GroupedKeys(rows, parts);
    forall p ensures MostlyAt(out, current, parts, bad, p) {
      if p in bad {
        StrayUnlisted(es, lo, found, p);
        assert p in rest && p !in Paths(rows, parts);
        AlienStays(es, seed, before, current, parts, alien, lo, from, batches, p);
      } else if p in Kept(es, lo) {
        KeptStays(es, seed, before, current, parts, alien, lo, from, p);
      } else {
        assert p !in rest;
        StreamedWhole(es, seed, before, current, parts, alien, lo, from, batches, p);
      }
    }
    MostlyAll(out, current, parts, bad);
  }

  lemma StrayUnlisted(es: seq<Entry>, lo: int, found: Tree, p: Path)
    ensures p in Strays(es, found) <==> p in found && !Lists(es, p)
    ensures p in Kept(es, lo) ==> Lists(es, p)
  {
    if p in Kept(es, lo) {
      var i := KeptEntry(es, lo, p);
    }
  }

  ghost predicate MostlyAt(tree: Tree, src: Source, parts: seq<Part>, alien: set<Path>, p: Path) {
    if p in alien then p in tree && !HasPath(src, parts, p)
    else (p in tree <==> HasPath(src, parts, p)) && (p in tree ==> FileOk(tree[p], src, parts, p))
  }

  lemma MostlyAll(tree: Tree, src: Source, parts: seq<Part>, alien: set<Path>)
    requires forall p :: MostlyAt(tree, src, parts, alien, p)
    ensures Mostly(tree, src, parts, alien)
  {
    hide HasPath, FileOk;
    forall p ensures MostlyAt(tree, src, parts, alien, p) {}
    forall p | p in alien ensures p in tree && !HasPath(src, parts, p) { assert MostlyAt(tree, src, parts, alien, p); }
    forall p | p !in alien
      ensures p in tree <==> HasPath(src, parts, p)
    {
      assert MostlyAt(tree, src, parts, alien, p);
    }
    forall p | p in tree && p !in alien ensures FileOk(tree[p], src, parts, p) {
      assert MostlyAt(tree, src, parts, alien, p);
    }
  }
}
