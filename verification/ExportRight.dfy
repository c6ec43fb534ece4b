/**
 Exactly when a partly reused tree is the partitioning of the current source.
 */
module ExportRight {
  import opened Wrappers
  import opened Partitions
  import opened PartitionWriter
  import opened Export

  /** A tree is the partitioning of one source only. */
  lemma PartitionDeterminesSource(tree: Tree, a: Source, b: Source, parts: seq<Part>)
    requires Partitioned(tree, a, parts) && Partitioned(tree, b, parts)
    ensures a == b
  {
    hide Where, Chronological;
    forall r: Row ensures a[r] == b[r] {
      var p := Where(r, parts);
      assert r in a ==> HasPath(a, parts, p);
      assert r in b ==> HasPath(b, parts, p);
      if p in tree { assert FileOk(tree[p], a, parts, p) && FileOk(tree[p], b, parts, p); }
    }
  }

  // ----- the tail, whatever it was built upon -----

  /** Every surviving file is right for the current source, and no current row below the watermark lies
      outside the surviving files. */
  ghost predicate RestRight(rest: Tree, current: Source, parts: seq<Part>, from: Option<int>) {
    && (forall p :: p in rest ==> HasPath(current, parts, p) && FileOk(rest[p], current, parts, p))
    && (forall r: Row :: r in current && from.Some? && r.secs < from.value ==> Where(r, parts) in rest)
  }

  lemma StreamedRight(batches: seq<seq<Row>>, current: Source, from: Option<int>, parts: seq<Part>, p: Path)
    requires QueryOk(batches, current, from, parts)
    requires forall r: Row :: r in current && from.Some? && r.secs < from.value ==> Where(r, parts) != p
    ensures p in Paths(Flatten(batches), parts) <==> HasPath(current, parts, p)
    ensures FileOk(Pick(Flatten(batches), parts, p), current, parts, p)
  {
    hide Where, Pick, FileOk, OrderBy, Flatten, Paths;
    var rows := Flatten(batches);
    forall r: Row | Where(r, parts) == p ensures multiset(rows)[r] == current[r] { }
    PathsMember(rows, parts, p);
    GroupedFile(rows, parts, p, current);
  }

  lemma RestRightIf(rest: Tree, current: Source, parts: seq<Part>, from: Option<int>, batches: seq<seq<Row>>)
    requires QueryOk(batches, current, from, parts) && Paths(Flatten(batches), parts) !! rest.Keys
    requires RestRight(rest, current, parts, from)
    ensures Partitioned(rest + Grouped(Flatten(batches), parts), current, parts)
  {
    hide Where, Pick, FileOk, QueryOk, Flatten, HasPath, Paths;
    var out := rest + Grouped(Flatten(batches), parts);
    GroupedKeys(Flatten(batches), parts);
    forall p
      ensures p in out <==> HasPath(current, parts, p)
      ensures p in out ==> FileOk(out[p], current, parts, p)
    {
      if p !in rest { StreamedRight(batches, current, from, parts, p); }
    }
  }

  lemma RestRightOnlyIf(rest: Tree, current: Source, parts: seq<Part>, from: Option<int>, batches: seq<seq<Row>>)
    requires QueryOk(batches, current, from, parts) && Paths(Flatten(batches), parts) !! rest.Keys
    requires Partitioned(rest + Grouped(Flatten(batches), parts), current, parts)
    ensures RestRight(rest, current, parts, from)
  {
    hide Where, FileOk, HasPath, Flatten, Paths, QueryOk;
    var out := rest + Grouped(Flatten(batches), parts);
    GroupedKeys(Flatten(batches), parts);
    forall p | p in rest ensures HasPath(current, parts, p) && FileOk(rest[p], current, parts, p) {
      assert p in out && out[p] == rest[p];
    }
    forall r: Row | r in current && from.Some? && r.secs < from.value ensures Where(r, parts) in rest {
      BelowStands(rest, current, parts, from, batches, r);
    }
  }

  /** A row the stream did not bring is in a file that was left standing. */
  lemma BelowStands(rest: Tree, current: Source, parts: seq<Part>, from: Option<int>, batches: seq<seq<Row>>, r: Row)
    requires QueryOk(batches, current, from, parts) && r in current && from.Some? && r.secs < from.value
    requires Partitioned(rest + Grouped(Flatten(batches), parts), current, parts)
    ensures Where(r, parts) in rest
  {
    hide Where, Pick, Chronological, OrderBy, Flatten, Paths;
    var rows, p := Flatten(batches), Where(r, parts);
    var out := rest + Grouped(rows, parts);
    PickCounts(rows, parts, p, r);
    GroupedKeys(rows, parts);
    assert HasPath(current, parts, p);
    assert FileOk(out[p], current, parts, p);
  }

  /** A tail build that met no file in its way is right if and only if everything it left standing is right
      and nothing below its watermark is missing.  No assumption is made of where the files come from. */
  lemma RestRightIff(rest: Tree, current: Source, parts: seq<Part>, from: Option<int>, batches: seq<seq<Row>>)
    requires QueryOk(batches, current, from, parts) && Paths(Flatten(batches), parts) !! rest.Keys
    ensures Partitioned(rest + Grouped(Flatten(batches), parts), current, parts) <==>
      RestRight(rest, current, parts, from)
  {
    hide Partitioned, RestRight, QueryOk, Paths, Grouped;
    if RestRight(rest, current, parts, from) {
      RestRightIf(rest, current, parts, from, batches);
    }
    if Partitioned(rest + Grouped(Flatten(batches), parts), current, parts) {
      RestRightOnlyIf(rest, current, parts, from, batches);
    }
  }

  /** The watermark of a rewrite is determined by the manifest and the changed point. */
  lemma WatermarkUnique(es: seq<Entry>, lo: int, a: Option<int>, b: Option<int>)
    requires RewriteFrom(es, lo, a) && RewriteFrom(es, lo, b)
    ensures a == b
  {
  }

  /** What a tail build from the changed point `lo` leaves standing is right, and it misses nothing. */
  ghost predicate TailRight(es: seq<Entry>, lo: int, found: Tree, current: Source, parts: seq<Part>) {
    forall from :: RewriteFrom(es, lo, from) ==> RestRight(RestOf(es, lo, found), current, parts, from)
  }

  lemma TailRightIs(es: seq<Entry>, lo: int, found: Tree, current: Source, parts: seq<Part>, from: Option<int>)
    requires RewriteFrom(es, lo, from)
    ensures TailRight(es, lo, found, current, parts) <==> RestRight(RestOf(es, lo, found), current, parts, from)
  {
    hide RestRight, RewriteFrom, RestOf;
    forall x | RewriteFrom(es, lo, x) ensures x == from { WatermarkUnique(es, lo, x, from); }
  }

  // ----- a tail upon a right tree splices two sources -----

  ghost function Below(s: Source, t: int): Source
    decreases |s|
  {
    if s == multiset{} then multiset{}
    else
      var r :| r in s;
      (if r.secs < t then multiset{r} else multiset{}) + Below(s - multiset{r}, t)
  }

  lemma {:induction false} BelowCounts(s: Source, t: int, x: Row)
    ensures Below(s, t)[x] == if x.secs < t then s[x] else 0
    decreases |s|
  {
    if s != multiset{} {
      var r :| r in s && Below(s, t) == (if r.secs < t then multiset{r} else multiset{}) + Below(s - multiset{r}, t);
      BelowCounts(s - multiset{r}, t, x);
    }
  }

  /** The rows of the old source below the watermark and those of the new one from it on. */
  ghost function Splice(before: Source, current: Source, from: Option<int>): Source {
    if from.None? then current else Below(before, from.value) + (current - Below(current, from.value))
  }

  lemma SpliceCounts(before: Source, current: Source, from: Option<int>, r: Row)
    ensures Splice(before, current, from)[r] == if from.Some? && r.secs < from.value then before[r] else current[r]
  {
    if from.Some? {
      BelowCounts(before, from.value, r);
      BelowCounts(current, from.value, r);
    }
  }

  /** The splice is the current source exactly when the two agree below the watermark. */
  lemma SpliceRight(before: Source, current: Source, from: Option<int>)
    ensures Splice(before, current, from) == current <==> (from.Some? ==> AgreeBefore(before, current, from.value))
  {
    hide Splice;
    var s := Splice(before, current, from);
    forall r: Row ensures s[r] == if from.Some? && r.secs < from.value then before[r] else current[r] {
      SpliceCounts(before, current, from, r);
    }
    if s == current && from.Some? {
      forall r: Row | r.secs < from.value ensures before[r] == current[r] { assert s[r] == before[r]; }
    }
  }

  /** A tail upon a right and untouched tree meets nothing in its way, and shows the splice of the two
      sources at the watermark, whatever the hint was worth. */
  lemma TailSplices(es: seq<Entry>, seed: Tree, before: Source, current: Source, parts: seq<Part>, lo: int,
                    from: Option<int>, batches: seq<seq<Row>>)
    requires Partitioned(seed, before, parts) && Describes(es, seed) && RewriteFrom(es, lo, from)
    requires (parts == [] || Nested(parts)) && QueryOk(batches, current, from, parts)
    ensures Strays(es, seed) == {} && Paths(Flatten(batches), parts) !! RestOf(es, lo, seed).Keys
    ensures Partitioned(RestOf(es, lo, seed) + Grouped(Flatten(batches), parts), Splice(before, current, from), parts)
  {
    hide Partitioned, Nested, RewriteFrom, OrderBy, Where, Flatten, TimesOk, Splice, Mostly, Grouped;
    var t := Splice(before, current, from);
    forall r: Row ensures t[r] == if from.Some? && r.secs < from.value then before[r] else current[r] {
      SpliceCounts(before, current, from, r);
    }
    assert Strays(es, seed) == {};
    assert RestOf(es, lo, seed).Keys <= Kept(es, lo);
    forall p | p in Paths(Flatten(batches), parts) ensures p !in Kept(es, lo) {
      StreamDisjoint(es, seed, before, current, parts, lo, from, batches, p);
    }
    forall r: Row | Where(r, parts) in Kept(es, lo) ensures before[r] == t[r] {
      KeptIsBelow(es, seed, before, parts, lo, from, r);
    }
    forall p | p in Kept(es, lo) ensures p in seed {
      var i := KeptEntry(es, lo, p);
      assert Intact(es[i], seed);
    }
    RightIsMostly(seed, before, parts);
    TailStep(es, seed, seed, before, t, parts, {}, lo, from, batches);
    assert AlienAfter(es, lo, seed, {}) == {};
    MostlyRight(RestOf(es, lo, seed) + Grouped(Flatten(batches), parts), t, parts, {});
  }

  lemma StreamDisjoint(es: seq<Entry>, seed: Tree, before: Source, current: Source, parts: seq<Part>, lo: int,
                       from: Option<int>, batches: seq<seq<Row>>, p: Path)
    requires Partitioned(seed, before, parts) && Describes(es, seed) && RewriteFrom(es, lo, from)
    requires (parts == [] || Nested(parts)) && QueryOk(batches, current, from, parts)
    requires p in Paths(Flatten(batches), parts)
    ensures p !in Kept(es, lo)
  {
    hide Partitioned, Describes, Nested, RewriteFrom, OrderBy, Where, Flatten, Kept;
    var rows := Flatten(batches);
    PathsMember(rows, parts, p);
    var r :| r in multiset(rows) && Where(r, parts) == p;
    if p in Kept(es, lo) { KeptIsBelow(es, seed, before, parts, lo, from, r); }
  }
}
