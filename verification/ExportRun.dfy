/**
 The export build itself and runs of builds.
 */
module ExportRun {
  import opened Wrappers
  import opened Partitions
  import opened PartitionWriter
  import opened Export
  import opened ExportRight

  /** What the source says changed since the seeded output was built. */
  datatype Change = Unchanged | Since(lo: int) | Everything

  datatype Hint = Hint(digest: nat, change: Change)

  datatype Exported = Exported(outputs: seq<Path>, reused: nat, written: nat) | ExportFailed

  type Ask = Option<int> -> seq<seq<Row>>

  /** A hint is truthful when the sources agree as far as it claims: entirely for an equal digest
      or `Unchanged`, before the changed point for `Since`. */
  ghost predicate HintTruthful(hint: Hint, seedDigest: Option<nat>, before: Source, current: Source) {
    && (seedDigest == Some(hint.digest) ==> before == current)
    && (hint.change.Unchanged? ==> before == current)
    && (hint.change.Since? ==> AgreeBefore(before, current, hint.change.lo))
  }

  ghost predicate Undatable(src: Source, parts: seq<Part>) {
    exists r :: r in src && Bounds(Where(r, parts)).Err?
  }

  /** There are rows, and every one has a date. */
  ghost predicate Exportable(src: Source, parts: seq<Part>) {
    src != multiset{} && !Undatable(src, parts)
  }

  function Files(es: seq<Entry>): seq<Path> {
    seq(|es|, i requires 0 <= i < |es| => es[i].file)
  }

  /** The files of the directory that the manifest lists: what a build serves. */
  ghost function Shown(tree: Tree, es: seq<Entry>): Tree {
    map p | p in tree && Lists(es, p) :: tree[p]
  }

  /** A directory whose listed files are intact shows what the manifest was made of, strays or not. */
  lemma AllIntact(es: seq<Entry>, seed: Tree, tree: Tree)
    requires Describes(es, seed) && forall i :: 0 <= i < |es| ==> Intact(es[i], tree)
    ensures Shown(tree, es) == seed
  {
    hide TimesOk;
    forall p ensures Lists(es, p) <==> p in seed {
      if Lists(es, p) {
        var i :| 0 <= i < |es| && es[i].file == p;
        assert Intact(es[i], seed);
      }
    }
    forall p | p in seed ensures p in tree && tree[p] == seed[p] {
      assert Lists(es, p);
      var i :| 0 <= i < |es| && es[i].file == p;
      assert Intact(es[i], tree) && Intact(es[i], seed);
    }
  }

  lemma ShownAll(es: seq<Entry>, tree: Tree)
    requires Describes(es, tree)
    ensures Shown(tree, es) == tree
  {
    hide TimesOk;
  }

  ghost function FileSet(es: seq<Entry>): set<Path> {
    if es == [] then {} else FileSet(es[..|es| - 1]) + {es[|es| - 1].file}
  }

  lemma {:induction false} FileSetCount(es: seq<Entry>)
    requires forall i, j :: 0 <= i < j < |es| ==> Differ(es[i], es[j])
    ensures |FileSet(es)| == |es|
    ensures forall p :: p in FileSet(es) <==> Lists(es, p)
  {
    if es != [] {
      var n := |es| - 1;
      forall i, j | 0 <= i < j < n ensures Differ(es[..n][i], es[..n][j]) { assert Differ(es[i], es[j]); }
      FileSetCount(es[..n]);
      forall i | 0 <= i < n ensures es[..n][i].file != es[n].file { assert Differ(es[i], es[n]); }
      ListsMore(es, n);
      assert es[..n + 1] == es;
    }
  }

  lemma DescribesFiles(es: seq<Entry>, tree: Tree)
    requires Describes(es, tree)
    ensures |FileSet(es)| == |es|
  {
    hide TimesOk, Lists, Intact;
    FileSetCount(es);
  }

  lemma DescribesCount(es: seq<Entry>, tree: Tree)
    requires Describes(es, tree)
    ensures |es| == |tree|
  {
    hide TimesOk;
    FileSetCount(es);
    forall p ensures p in FileSet(es) <==> p in tree {
      if Lists(es, p) {
        var i :| 0 <= i < |es| && es[i].file == p;
        assert Intact(es[i], tree);
      }
    }
    assert FileSet(es) == tree.Keys;
  }

  // ----- what a build amounts to -----

  datatype Mode = Adopt | Tail(lo: int) | Full

  predicate SaysSame(m: SeriesManifest, hint: Hint) {
    m.digest == Some(hint.digest) || hint.change.Unchanged?
  }

  function ModeOf(m: Option<SeriesManifest>, hint: Option<Hint>): Mode {
    if hint.None? || m.None? then Full
    else if m.value.partitions != [] && SaysSame(m.value, hint.value) then Adopt
    else if hint.value.change.Since? then Tail(hint.value.change.lo)
    else Full
  }

  function EntriesOf(m: Option<SeriesManifest>): seq<Entry> {
    if m.Some? then m.value.partitions else []
  }

  /** Some listed partition is missing or was modified. */
  ghost predicate Broken(es: seq<Entry>, tree: Tree) {
    exists i :: 0 <= i < |es| && !Intact(es[i], tree)
  }

  /** Some partition before the changed point is. */
  ghost predicate Damaged(es: seq<Entry>, lo: int, tree: Tree) {
    exists i :: 0 <= i < |es| && Reusable(es[i], lo) && !Intact(es[i], tree)
  }

  /** Nothing to list, or a directory without a readable date. */
  ghost predicate Unlistable(tree: Tree) {
    tree == map[] || exists p :: p in tree && Bounds(p).Err?
  }

  /** A tail build streaming `batches` runs into a file it left standing, or leaves an unlistable tree. */
  ghost predicate FailsAt(rest: Tree, batches: seq<seq<Row>>, parts: seq<Part>) {
    || !(Paths(Flatten(batches), parts) !! rest.Keys)
    || Unlistable(rest + Grouped(Flatten(batches), parts))
  }

  ghost predicate TailFails(es: seq<Entry>, lo: int, found: Tree, query: Ask, parts: seq<Part>) {
    exists from :: RewriteFrom(es, lo, from) && FailsAt(RestOf(es, lo, found), query(from), parts)
  }

  /** The tree a tail build leaves. */
  ghost predicate TailTree(es: seq<Entry>, lo: int, found: Tree, query: Ask, parts: seq<Part>, out: Tree) {
    exists from ::
      && RewriteFrom(es, lo, from)
      && Paths(Flatten(query(from)), parts) !! RestOf(es, lo, found).Keys
      && out == RestOf(es, lo, found) + Grouped(Flatten(query(from)), parts)
  }

  /** The listed files a build in this mode reuses. */
  ghost function ReusedBy(mode: Mode, es: seq<Entry>): set<Path> {
    match mode
    case Adopt => FileSet(es)
    case Tail(lo) => Kept(es, lo)
    case Full => {}
  }

  /** When a build in this mode, of a directory with manifest `es` and content `found`, fails. */
  ghost predicate Fails(mode: Mode, es: seq<Entry>, found: Tree, query: Ask, parts: seq<Part>) {
    match mode
    case Adopt => Broken(es, found)
    case Tail(lo) => Damaged(es, lo, found) || TailFails(es, lo, found, query, parts)
    case Full => Unlistable(Grouped(Flatten(query(None)), parts))
  }

  /** The directory it leaves otherwise, and the partitions it lists. */
  ghost predicate Made(mode: Mode, es: seq<Entry>, found: Tree, query: Ask, parts: seq<Part>, now: seq<Entry>,
                       out: Tree) {
    match mode
    case Adopt => now == es && out == found && !Broken(es, found)
    case Tail(lo) => Describes(now, out) && TailTree(es, lo, found, query, parts, out) && !Damaged(es, lo, found)
    case Full => Describes(now, out) && out == Grouped(Flatten(query(None)), parts)
  }

  /** When what it serves is the partitioning of the current source: an adopting build when the listed
      files were, a tail build when what it leaves standing is, a full build always. */
  ghost predicate Right(mode: Mode, es: seq<Entry>, seed: Tree, found: Tree, current: Source, parts: seq<Part>) {
    match mode
    case Adopt => Partitioned(seed, current, parts)
    case Tail(lo) => TailRight(es, lo, found, current, parts)
    case Full => true
  }

  /** Every query is answered with the rows of the source, in order. */
  ghost predicate AllQueriesOk(query: Ask, src: Source, parts: seq<Part>) {
    forall from :: QueryOk(query(from), src, from, parts)
  }

  /** The two sides of a finished build agree, in every mode and whatever the hint is worth. */
  lemma MadeRightIff(mode: Mode, es: seq<Entry>, seed: Tree, found: Tree, query: Ask, current: Source, parts: seq<Part>,
                     now: seq<Entry>, out: Tree)
    requires AllQueriesOk(query, current, parts) && Made(mode, es, found, query, parts, now, out)
    requires mode.Adopt? ==> Describes(es, seed)
    ensures Describes(now, Shown(out, now))
    ensures mode.Adopt? ==> Shown(out, now) == seed
    ensures !mode.Adopt? ==> Shown(out, now) == out
    ensures Partitioned(Shown(out, now), current, parts) <==> Right(mode, es, seed, found, current, parts)
  {
    hide Partitioned, Describes, QueryOk, RewriteFrom, RestRight, RestOf, Paths, Grouped, Flatten, TailRight, Shown,
         Intact;
    match mode {
      case Adopt => AllIntact(es, seed, found);
      case Tail(lo) =>
        ShownAll(now, out);
        var from :| RewriteFrom(es, lo, from) && Paths(Flatten(query(from)), parts) !! RestOf(es, lo, found).Keys
                    && out == RestOf(es, lo, found) + Grouped(Flatten(query(from)), parts);
        assert QueryOk(query(from), current, from, parts);
        RestRightIff(RestOf(es, lo, found), current, parts, from, query(from));
        TailRightIs(es, lo, found, current, parts, from);
      case Full =>
        ShownAll(now, out);
        assert QueryOk(query(None), current, None, parts);
        FullRewrite(query(None), current, parts);
    }
  }

  /** What a build saves: with the recorded digest or the word that nothing changed it writes nothing; with a
      changed point it reuses all that is over by then; otherwise it writes everything. */
  ghost predicate Thrifty(m: Option<SeriesManifest>, hint: Option<Hint>, reused: nat, written: nat) {
    if m.None? || hint.None? then reused == 0
    else if m.value.partitions != [] && (hint.value.change.Unchanged? || m.value.digest == Some(hint.value.digest)) then
      written == 0 && reused == |m.value.partitions|
    else if hint.value.change.Since? then reused == |Kept(m.value.partitions, hint.value.change.lo)|
    else reused == 0
  }

  class ExportDir {
    const store: PartitionTree
    var manifest: Option<SeriesManifest>

    constructor ()
      ensures manifest == None && store.tree == map[] && fresh(store)
    {
      store := new PartitionTree();
      manifest := None;
    }

    /** Every recorded partition still has the bytes its digest was computed from. */
    method VerifyAll(es: seq<Entry>) returns (ok: bool)
      ensures ok <==> forall i :: 0 <= i < |es| ==> Intact(es[i], store.tree)
    {
      for i := 0 to |es|
        invariant forall j :: 0 <= j < i ==> Intact(es[j], store.tree)
      {
        if !Intact(es[i], store.tree) { return false; }
      }
      return true;
    }

    /** Verify what can be reused, delete what cannot, and find where the rewrite must start. */
    method Sweep(es: seq<Entry>, lo: int, ghost seed: Tree)
      returns (ok: bool, reusable: map<Path, Entry>, from: Option<int>)
      requires Describes(es, seed)
      modifies store
      ensures ok <==> forall i :: 0 <= i < |es| && Reusable(es[i], lo) ==> Intact(es[i], old(store.tree))
      ensures ok ==> Swept(es, lo, old(store.tree), store.tree, reusable, from)
    {
      hide Describes, Swept, Intact;
      reusable, from := map[], Some(lo);
      SweptNothing(lo, store.tree);
      assert es[..0] == [];
      for n := 0 to |es|
        invariant forall i :: 0 <= i < n && Reusable(es[i], lo) ==> Intact(es[i], old(store.tree))
        invariant Swept(es[..n], lo, old(store.tree), store.tree, reusable, from)
      {
        if Reusable(es[n], lo) {
          SweptKeep(es, n, lo, old(store.tree), store.tree, reusable, from, seed);
          if !Intact(es[n], store.tree) { return false, reusable, from; }
          reusable := reusable[es[n].file := es[n]];
        } else {
          SweptDrop(es, n, lo, old(store.tree), store.tree, reusable, from, seed);
          from := LowerTo(from, es[n].start);
          store.tree := store.tree - {es[n].file};
        }
      }
      assert es[..|es|] == es;
      ok := true;
    }

    /** List the tree, reading bounds back from each path; any unreadable path is an error. */
    method Discover(reusable: map<Path, Entry>) returns (r: Result<seq<Entry>>, reused: nat, written: nat)
      requires forall p :: p in reusable ==>
        reusable[p].file == p && Intact(reusable[p], store.tree) && TimesOk(reusable[p])
      ensures r.Ok? <==> forall p :: p in store.tree ==> Bounds(p).Ok?
      ensures r.Ok? ==> Describes(r.value, store.tree) && reused + written == |r.value| == |store.tree|
      ensures r.Ok? ==> reused == |reusable.Keys|
    {
      hide Bounds, Describes, Found, Intact, TimesOk;
      var es: seq<Entry> := [];
      reused, written := 0, 0;
      var todo := store.tree.Keys;
      assert forall p :: p in reusable ==> p in store.tree by {
        forall p | p in reusable ensures p in store.tree { InTree(reusable[p], store.tree); }
      }
      FoundNone(store.tree, reusable);
      while todo != {}
        invariant todo <= store.tree.Keys
        invariant Found(es, store.tree, todo, reusable, reused, written)
        decreases |todo|
      {
        var p :| p in todo;
        if Bounds(p).Err? { return Err, reused, written; }
        FoundMore(es, store.tree, todo, reusable, reused, written, p);
        es := es + [EntryFor(p, store.tree, reusable)];
        if p in reusable { reused := reused + 1; } else { written := written + 1; }
        todo := todo - {p};
      }
      FoundAll(es, store.tree, reusable, reused, written);
      return Ok(es), reused, written;
    }

    /** Serve the listed files as they are, after verifying all of them; other files are not looked at. */
    method ReuseAll(digest: nat) returns (r: Exported)
      requires manifest.Some?
      modifies this`manifest
      ensures r.ExportFailed? <==> Broken(old(manifest).value.partitions, store.tree)
      ensures r.Exported? ==>
        && manifest == Some(old(manifest).value.(digest := Some(digest)))
        && r.outputs == Files(manifest.value.partitions) && r.reused == |r.outputs| && r.written == 0
      ensures r.ExportFailed? ==> manifest == old(manifest)
    {
      hide Intact;
      var es := manifest.value.partitions;
      var ok := VerifyAll(es);
      if !ok { return ExportFailed; }
      manifest := Some(manifest.value.(digest := Some(digest)));
      return Exported(Files(es), |es|, 0);
    }

    /** One build, whatever the hint is worth, whatever the manifest was made of, and whatever happened to
        the files since: when it fails, what it leaves, and when what it serves is right. */
    method ExportSeries(parts: seq<Part>, hint: Option<Hint>, query: Ask, ghost seed: Tree, ghost current: Source)
      returns (r: Exported)
      requires manifest.Some? ==> Describes(manifest.value.partitions, seed)
      requires AllQueriesOk(query, current, parts)
      modifies this, store
      ensures r.ExportFailed? <==>
        Fails(ModeOf(old(manifest), hint), old(EntriesOf(manifest)), old(store.tree), query, parts)
      ensures r.ExportFailed? ==> manifest == old(manifest) || EntriesOf(manifest) == []
      ensures r.Exported? ==>
        && manifest.Some? && manifest.value.digest == (if hint.Some? then Some(hint.value.digest) else None)
        && r.outputs == Files(EntriesOf(manifest)) && r.reused + r.written == |r.outputs|
        && r.reused == |ReusedBy(ModeOf(old(manifest), hint), old(EntriesOf(manifest)))|
        && Made(ModeOf(old(manifest), hint), old(EntriesOf(manifest)), old(store.tree), query, parts,
                EntriesOf(manifest), store.tree)
      ensures r.Exported? ==> Thrifty(old(manifest), hint, r.reused, r.written)
      ensures r.Exported? ==>
        && Describes(EntriesOf(manifest), Shown(store.tree, EntriesOf(manifest)))
        && (Partitioned(Shown(store.tree, EntriesOf(manifest)), current, parts)
            <==> Right(ModeOf(old(manifest), hint), old(EntriesOf(manifest)), seed, old(store.tree), current, parts))
    {
      hide Partitioned, Describes, AllQueriesOk, TailRight, TailFails, TailTree, Damaged, Broken, Unlistable, Shown,
           Grouped, Right;
      ghost var mode, es, found := ModeOf(manifest, hint), EntriesOf(manifest), store.tree;
      match ModeOf(manifest, hint) {
        case Adopt =>
          DescribesFiles(EntriesOf(manifest), seed);
          r := ReuseAll(hint.value.digest);
        case Tail(lo) => r := Reconcile(parts, hint.value, query, seed, current);
        case Full => r := Rewrite(parts, if hint.Some? then Some(hint.value.digest) else None, query, current);
      }
      if r.Exported? { MadeRightIff(mode, es, seed, found, query, current, parts, EntriesOf(manifest), store.tree); }
    }

    /** Reuse the partitions that end at or before the changed point and rewrite from there. */
    method Reconcile(parts: seq<Part>, hint: Hint, query: Ask, ghost seed: Tree, ghost current: Source)
      returns (r: Exported)
      requires hint.change.Since? && manifest.Some? && Describes(manifest.value.partitions, seed)
      requires AllQueriesOk(query, current, parts)
      modifies this, store
      ensures r.ExportFailed? <==> (
        || Damaged(old(manifest).value.partitions, hint.change.lo, old(store.tree))
        || TailFails(old(manifest).value.partitions, hint.change.lo, old(store.tree), query, parts))
      ensures r.ExportFailed? ==> manifest == old(manifest) || (manifest.Some? && manifest.value.partitions == [])
      ensures r.Exported? ==>
        && manifest.Some? && manifest.value.digest == Some(hint.digest)
        && r.outputs == Files(manifest.value.partitions) && r.reused + r.written == |r.outputs|
        && r.reused == |Kept(old(manifest).value.partitions, hint.change.lo)|
        && Describes(manifest.value.partitions, store.tree)
        && TailTree(old(manifest).value.partitions, hint.change.lo, old(store.tree), query, parts, store.tree)
    {
      hide Describes, QueryOk, RewriteFrom, RestOf, Grouped, Paths, Bounds, Intact, Swept, FailsAt, TailFails, TailTree,
           Unlistable;
      var lo, es := hint.change.lo, manifest.value.partitions;
      ghost var found := store.tree;
      var ok, reusable, from := Sweep(es, lo, seed);
      if !ok { return ExportFailed; }
      ghost var rest := store.tree;
      SweptRest(es, lo, found, rest, reusable, from);
      var batches := query(from);
      assert QueryOk(query(from), current, from, parts);
      QueryContiguous(batches, current, from, parts);
      TailFailsIs(es, lo, found, query, parts, from);
      StreamFails(rest, batches, parts);
      ok := store.Stream(batches, parts);
      if !ok { return ExportFailed; }
      StillIntact(rest, batches, parts, reusable);
      r := Finish(Some(hint.digest), reusable);
      TailTreeIs(es, lo, found, query, parts, from);
    }

    /** Clear everything and write it again from one ordered execution. */
    method Rewrite(parts: seq<Part>, digest: Option<nat>, query: Ask, ghost current: Source) returns (r: Exported)
      requires AllQueriesOk(query, current, parts)
      modifies this, store
      ensures r.ExportFailed? <==> Unlistable(Grouped(Flatten(query(None)), parts))
      ensures r.ExportFailed? ==> manifest.None? || manifest.value.partitions == []
      ensures r.Exported? ==>
        && manifest.Some? && manifest.value.digest == digest
        && r.outputs == Files(manifest.value.partitions)
        && r.reused + r.written == |r.outputs| == |store.tree| && r.reused == 0
        && Describes(manifest.value.partitions, store.tree) && store.tree == Grouped(Flatten(query(None)), parts)
    {
      hide QueryOk, Grouped, Paths, Bounds, Describes, Unlistable;
      store.tree := map[];
      manifest := None;
      var batches := query(None);
      assert QueryOk(query(None), current, None, parts);
      QueryContiguous(batches, current, None, parts);
      var ok := store.Stream(batches, parts);
      assert ok;
      assert map[] + Grouped(Flatten(batches), parts) == Grouped(Flatten(batches), parts);
      r := Finish(digest, map[]);
    }

    /** Describe the finished tree in a new manifest; an empty export is reported as an error. */
    method Finish(digest: Option<nat>, reusable: map<Path, Entry>) returns (r: Exported)
      requires forall p :: p in reusable ==>
        reusable[p].file == p && Intact(reusable[p], store.tree) && TimesOk(reusable[p])
      modifies this`manifest
      ensures r.ExportFailed? <==> Unlistable(store.tree)
      ensures r.ExportFailed? ==> manifest == old(manifest) || (manifest.Some? && manifest.value.partitions == [])
      ensures r.Exported? ==>
        && manifest.Some? && manifest.value.digest == digest
        && Describes(manifest.value.partitions, store.tree)
        && r.outputs == Files(manifest.value.partitions)
        && r.reused + r.written == |r.outputs| == |store.tree| && r.reused == |reusable.Keys|
    {
      hide Describes, Bounds;
      var es, reused, written := Discover(reusable);
      if es.Err? { return ExportFailed; }
      manifest := Some(SeriesManifest(digest, es.value));
      if es.value == [] { return ExportFailed; }
      return Exported(Files(es.value), reused, written);
    }
  }

  lemma TailFailsIs(es: seq<Entry>, lo: int, found: Tree, query: Ask, parts: seq<Part>, from: Option<int>)
    requires RewriteFrom(es, lo, from)
    ensures TailFails(es, lo, found, query, parts) <==> FailsAt(RestOf(es, lo, found), query(from), parts)
  {
    hide FailsAt, RewriteFrom, RestOf;
    if TailFails(es, lo, found, query, parts) {
      var x :| RewriteFrom(es, lo, x) && FailsAt(RestOf(es, lo, found), query(x), parts);
      WatermarkUnique(es, lo, x, from);
    }
  }

  lemma TailTreeIs(es: seq<Entry>, lo: int, found: Tree, query: Ask, parts: seq<Part>, from: Option<int>)
    requires RewriteFrom(es, lo, from) && Paths(Flatten(query(from)), parts) !! RestOf(es, lo, found).Keys
    ensures TailTree(es, lo, found, query, parts, RestOf(es, lo, found) + Grouped(Flatten(query(from)), parts))
  {
  }

  lemma StreamFails(rest: Tree, batches: seq<seq<Row>>, parts: seq<Part>)
    ensures (forall p :: p in Paths(Flatten(batches), parts) ==> p !in rest) <==>
      Paths(Flatten(batches), parts) !! rest.Keys
    ensures FailsAt(rest, batches, parts) <==> (
      || !(Paths(Flatten(batches), parts) !! rest.Keys) || Unlistable(rest + Grouped(Flatten(batches), parts)))
  {
    hide Paths, Flatten, Grouped, Unlistable;
  }

  /** The sweep leaves the reusable partitions and the strays, and nothing else. */
  lemma SweptRest(es: seq<Entry>, lo: int, found: Tree, rest: Tree, reusable: map<Path, Entry>, from: Option<int>)
    requires Swept(es, lo, found, rest, reusable, from)
    ensures rest == RestOf(es, lo, found) && RewriteFrom(es, lo, from) && reusable.Keys == Kept(es, lo)
    ensures forall p :: p in reusable ==> reusable[p].file == p && Intact(reusable[p], rest) && TimesOk(reusable[p])
  {
    hide TimesOk, RewriteFrom;
    forall p | p in rest && Lists(es, p) ensures p in Kept(es, lo) {
      var i :| 0 <= i < |es| && es[i].file == p;
      assert Reusable(es[i], lo);
    }
    forall p | p in Kept(es, lo) ensures p in rest { assert p in reusable; }
    assert rest.Keys == RestOf(es, lo, found).Keys;
  }

  lemma QueryContiguous(batches: seq<seq<Row>>, src: Source, from: Option<int>, parts: seq<Part>)
    requires QueryOk(batches, src, from, parts)
    ensures Contiguous(Flatten(batches), parts)
  {
    hide OrderBy, Contiguous;
    OrderedIsContiguous(Flatten(batches), parts);
  }

  lemma StillIntact(kept: Tree, batches: seq<seq<Row>>, parts: seq<Part>, reusable: map<Path, Entry>)
    requires forall p :: p in Paths(Flatten(batches), parts) ==> p !in kept
    requires forall p :: p in reusable ==> reusable[p].file == p && Intact(reusable[p], kept) && TimesOk(reusable[p])
    ensures var tree := kept + Grouped(Flatten(batches), parts);
      forall p :: p in reusable ==> reusable[p].file == p && Intact(reusable[p], tree) && TimesOk(reusable[p])
  {
    hide TimesOk, Pick, Where, Flatten;
  }

  lemma EmptyTree(tree: Tree, src: Source, parts: seq<Part>)
    requires Partitioned(tree, src, parts) && Describes([], tree)
    ensures src == multiset{}
  {
    hide FileOk, Where;
    assert forall p :: p in tree ==> Lists([], p);
    forall r ensures r !in src {
      assert r in src ==> HasPath(src, parts, Where(r, parts));
    }
  }

  function Without(tree: Tree, ps: set<Path>): Tree {
    map p | p in tree && p !in ps :: tree[p]
  }

  /** A reused partition keeps its recorded entry; another gets its content and the bounds of its path. */
  function EntryFor(p: Path, tree: Tree, reusable: map<Path, Entry>): Entry
    requires p in tree && Bounds(p).Ok?
  {
    var b := Bounds(p).value;
    if p in reusable then reusable[p]
    else Entry(p, tree[p], if b.Some? then Some(b.value.0) else None, if b.Some? then Some(b.value.1) else None)
  }

  /** Where the listing stands: what is not in `todo` is described and counted. */
  ghost predicate Found(es: seq<Entry>, tree: Tree, todo: set<Path>, reusable: map<Path, Entry>, reused: nat,
                        written: nat) {
    && Describes(es, Without(tree, todo)) && reused + written == |es| && reused == |reusable.Keys - todo|
    && (forall p :: p in tree && p !in todo ==> Bounds(p).Ok?)
  }

  lemma InTree(e: Entry, tree: Tree)
    requires Intact(e, tree)
    ensures e.file in tree
  {
  }

  lemma FoundNone(tree: Tree, reusable: map<Path, Entry>)
    requires reusable.Keys <= tree.Keys
    ensures Found([], tree, tree.Keys, reusable, 0, 0)
  {
    hide Describes;
    DescribesNone(tree);
    NoneDone(reusable.Keys, tree.Keys);
  }

  lemma FoundMore(es: seq<Entry>, tree: Tree, todo: set<Path>, reusable: map<Path, Entry>, reused: nat, written: nat,
                  p: Path)
    requires Found(es, tree, todo, reusable, reused, written) && p in todo && p in tree && Bounds(p).Ok?
    requires p in reusable ==> reusable[p].file == p && Intact(reusable[p], tree) && TimesOk(reusable[p])
    ensures Found(es + [EntryFor(p, tree, reusable)], tree, todo - {p}, reusable,
                  if p in reusable then reused + 1 else reused, if p in reusable then written else written + 1)
  {
    hide Describes, Without, Bounds;
    DescribesMore(es, tree, todo, EntryFor(p, tree, reusable));
    OneFewer(reusable.Keys, todo, p);
  }

  lemma FoundAll(es: seq<Entry>, tree: Tree, reusable: map<Path, Entry>, reused: nat, written: nat)
    requires Found(es, tree, {}, reusable, reused, written)
    ensures Describes(es, tree) && reused + written == |es| == |tree| && reused == |reusable.Keys|
    ensures forall p :: p in tree ==> Bounds(p).Ok?
  {
    hide Describes, Bounds;
    WithoutNone(tree);
    assert reusable.Keys - {} == reusable.Keys;
    DescribesCount(es, tree);
  }

  lemma NoneDone(keys: set<Path>, todo: set<Path>)
    requires keys <= todo
    ensures |keys - todo| == 0
  {
    assert keys - todo == {};
  }

  lemma OneFewer(keys: set<Path>, todo: set<Path>, p: Path)
    requires p in todo
    ensures |keys - (todo - {p})| == |keys - todo| + if p in keys then 1 else 0
  {
    assert keys - (todo - {p}) == keys - todo + (if p in keys then {p} else {});
  }

  lemma DescribesNone(tree: Tree)
    ensures Describes([], Without(tree, tree.Keys))
  {
  }

  lemma WithoutNone(tree: Tree)
    ensures Without(tree, {}) == tree
  {
  }

  lemma DescribesMore(es: seq<Entry>, tree: Tree, todo: set<Path>, e: Entry)
    requires Describes(es, Without(tree, todo)) && e.file in todo && Intact(e, tree) && TimesOk(e)
    ensures Describes(es + [e], Without(tree, todo - {e.file}))
  {
    hide TimesOk;
    var out, less, more := es + [e], Without(tree, todo), Without(tree, todo - {e.file});
    forall i | 0 <= i < |out| ensures Intact(out[i], more) && TimesOk(out[i]) {
      if i < |es| { assert Intact(es[i], less) && TimesOk(es[i]); }
    }
    forall i, j | 0 <= i < j < |out| ensures Differ(out[i], out[j]) {
      if j < |es| { assert Differ(es[i], es[j]); } else { assert Intact(es[i], less); }
    }
    forall p | p in more ensures Lists(out, p) {
      if p == e.file {
        assert out[|es|].file == p;
      } else {
        assert Lists(es, p);
        var i :| 0 <= i < |es| && es[i].file == p;
        assert out[i].file == p;
      }
    }
  }

  function LowerTo(from: Option<int>, start: Option<int>): Option<int> {
    if from.Some? && start.Some? then Some(if from.value <= start.value then from.value else start.value) else None
  }

  /** The entries `es` have been verified or deleted. */
  ghost predicate Swept(es: seq<Entry>, lo: int, tree0: Tree, tree: Tree, reusable: map<Path, Entry>,
                        from: Option<int>) {
    && RewriteFrom(es, lo, from)
    && reusable.Keys == Kept(es, lo)
    && (forall p :: p in reusable ==> reusable[p].file == p && Intact(reusable[p], tree) && TimesOk(reusable[p]))
    && (forall p :: p in tree ==> p in tree0 && tree[p] == tree0[p])
    && (forall p :: p in tree0 && p !in tree ==> Lists(es, p))
    && (forall i :: 0 <= i < |es| && !Reusable(es[i], lo) ==> es[i].file !in tree)
  }

  lemma SweptNothing(lo: int, tree: Tree)
    ensures Swept([], lo, tree, tree, map[], Some(lo))
  {
  }

  lemma SweepStep(es: seq<Entry>, lo: int, n: nat, from: Option<int>)
    requires n < |es| && RewriteFrom(es[..n], lo, from)
    ensures Kept(es[..n + 1], lo) == Kept(es[..n], lo) + if Reusable(es[n], lo) then {es[n].file} else {}
    ensures RewriteFrom(es[..n + 1], lo, if Reusable(es[n], lo) then from else LowerTo(from, es[n].start))
  {
    var a, b := es[..n], es[..n + 1];
    assert b == a + [es[n]];
    assert forall i :: 0 <= i < n ==> a[i] == b[i];
    assert b[n] == es[n];
  }

  lemma SweptKeep(es: seq<Entry>, n: nat, lo: int, tree0: Tree, tree: Tree, reusable: map<Path, Entry>,
                  from: Option<int>, seed: Tree)
    requires Describes(es, seed) && n < |es| && Reusable(es[n], lo)
    requires Swept(es[..n], lo, tree0, tree, reusable, from)
    ensures Intact(es[n], tree) <==> Intact(es[n], tree0)
    ensures Intact(es[n], tree) ==> Swept(es[..n + 1], lo, tree0, tree, reusable[es[n].file := es[n]], from)
  {
    hide TimesOk, RewriteFrom, Kept, Lists;
    SweepStep(es, lo, n, from);
    NotYetListed(es, seed, n);
    ListsMore(es, n);
    assert TimesOk(es[n]);
    var a, b := es[..n], es[..n + 1];
    forall i | 0 <= i < |b| && !Reusable(b[i], lo) ensures b[i].file !in tree {
      assert b[i] == a[i];
    }
  }

  lemma SweptDrop(es: seq<Entry>, n: nat, lo: int, tree0: Tree, tree: Tree, reusable: map<Path, Entry>,
                  from: Option<int>, seed: Tree)
    requires Describes(es, seed) && n < |es| && !Reusable(es[n], lo)
    requires Swept(es[..n], lo, tree0, tree, reusable, from)
    ensures Swept(es[..n + 1], lo, tree0, tree - {es[n].file}, reusable, LowerTo(from, es[n].start))
  {
    hide TimesOk, RewriteFrom, Kept, Lists;
    SweepStep(es, lo, n, from);
    KeptElsewhere(es, seed, lo, n);
    ListsMore(es, n);
    var a, b, less := es[..n], es[..n + 1], tree - {es[n].file};
    forall i | 0 <= i < |b| && !Reusable(b[i], lo) ensures b[i].file !in less {
      if i < n { assert b[i] == a[i]; }
    }
    assert Kept(b, lo) == Kept(a, lo);
    forall p | p in reusable ensures Intact(reusable[p], less) { assert p != es[n].file; }
    forall p | p in tree0 && p !in less ensures Lists(b, p) {
      assert p in tree ==> p == es[n].file;
      assert Lists(b, p) <==> Lists(a, p) || p == es[n].file;
    }
  }

  lemma NotYetListed(es: seq<Entry>, seed: Tree, n: nat)
    requires Describes(es, seed) && n < |es|
    ensures !Lists(es[..n], es[n].file)
  {
    hide TimesOk;
    forall i | 0 <= i < n ensures es[..n][i].file != es[n].file { assert Differ(es[i], es[n]); }
  }

  lemma KeptElsewhere(es: seq<Entry>, seed: Tree, lo: int, n: nat)
    requires Describes(es, seed) && n < |es|
    ensures es[n].file !in Kept(es[..n], lo)
  {
    hide TimesOk;
    forall i | 0 <= i < n ensures es[..n][i].file != es[n].file { assert Differ(es[i], es[n]); }
  }

  lemma ListsMore(es: seq<Entry>, n: nat)
    requires n < |es|
    ensures forall p :: Lists(es[..n + 1], p) <==> Lists(es[..n], p) || p == es[n].file
  {
    forall p ensures Lists(es[..n + 1], p) <==> Lists(es[..n], p) || p == es[n].file {
      if Lists(es[..n], p) {
        var i :| 0 <= i < n && es[..n][i].file == p;
        assert es[..n + 1][i].file == p;
      }
      if p == es[n].file { assert es[..n + 1][n].file == p; }
      if Lists(es[..n + 1], p) {
        var i :| 0 <= i < n + 1 && es[..n + 1][i].file == p;
        if i < n { assert es[..n][i].file == p; }
      }
    }
  }

  // ----- a stray is served -----

  /** The directory of the year 2001. */
  const STRAY: Path := [(Year, 2001)]

  lemma StrayHasDate()
    ensures Bounds(STRAY).Ok? && Bounds([]).Ok?
  {
    hide Bounds, PathOf;
    DawnStart([Year]);
    StrayPath();
    FlatBounds();
  }

  lemma StrayPath()
    ensures PathOf([Year], 978307200) == STRAY
  {
    Dawn(Year);
  }

  lemma FlatBounds()
    ensures Bounds([]) == Ok(None)
  {
  }

  /** Without parts there is one file, never reusable, and what else lies there is stray. */
  lemma OnlyStray(seed: Tree, es: seq<Entry>, src: Source, lo: int)
    requires Partitioned(seed, src, []) && Describes(es, seed)
    ensures Strays(es, seed[STRAY := []]) == {STRAY} && Kept(es, lo) == {}
    ensures forall i :: 0 <= i < |es| ==> !Reusable(es[i], lo)
  {
    hide FileOk, Bounds, PathOf;
    forall p | p in seed ensures p == [] {
      assert HasPath(src, [], p);
      var r :| r in src && Where(r, []) == p;
      NoParts(r);
    }
    forall i | 0 <= i < |es| ensures es[i].file == [] && !Reusable(es[i], lo) {
      assert Intact(es[i], seed) && TimesOk(es[i]);
      FlatBounds();
    }
    forall p | p in seed ensures Lists(es, p) {}
  }

  lemma NoTailFailure(es: seq<Entry>, lo: int, found: Tree, query: Ask)
    requires Strays(es, found) == {STRAY} && Kept(es, lo) == {}
    ensures !TailFails(es, lo, found, query, [])
    ensures STRAY in RestOf(es, lo, found)
  {
    hide Bounds, PathOf, Kept, RewriteFrom, Grouped;
    StrayHasDate();
    var rest := RestOf(es, lo, found);
    forall p ensures p in rest <==> p == STRAY { StrayUnlisted(es, lo, found, p); }
    forall from ensures !FailsAt(rest, query(from), []) {
      var rows := Flatten(query(from));
      forall p | p in Paths(rows, []) ensures p == [] {
        PathsMember(rows, [], p);
        var r :| r in multiset(rows) && Where(r, []) == p;
        NoParts(r);
      }
      GroupedKeys(rows, []);
      assert STRAY in rest + Grouped(rows, []);
    }
  }

  lemma FlatListable(src: Source, query: Ask)
    requires src != multiset{} && AllQueriesOk(query, src, [])
    ensures !Unlistable(Grouped(Flatten(query(None)), []))
    ensures Partitioned(Grouped(Flatten(query(None)), []), src, [])
  {
    hide Bounds, PathOf, QueryOk, FileOk, Grouped;
    assert QueryOk(query(None), src, None, []);
    FullRewrite(query(None), src, []);
    FlatBounds();
    var tree := Grouped(Flatten(query(None)), []);
    forall p | p in tree ensures p == [] {
      assert HasPath(src, [], p);
      var r :| r in src && Where(r, []) == p;
      NoParts(r);
    }
    var r :| r in src;
    assert HasPath(src, [], Where(r, []));
  }

  lemma ListedFile(es: seq<Entry>, tree: Tree, p: Path)
    requires Describes(es, tree) && p in tree
    ensures p in Files(es)
  {
    hide TimesOk;
    assert Lists(es, p);
    var i :| 0 <= i < |es| && es[i].file == p;
    assert Files(es)[i] == p;
  }

  lemma AlienFile(tree: Tree, src: Source)
    requires STRAY in tree
    ensures !Partitioned(tree, src, [])
  {
    hide FileOk, PathOf;
    if HasPath(src, [], STRAY) {
      var r :| r in src && Where(r, []) == STRAY;
      NoParts(r);
    }
  }

  /** Export any source without partitions, drop an empty file into a dated directory beside it, and build
      again with a truthful `Since`: the build succeeds, lists the stray, and is not the partitioning. */
  method StrayServed(src: Source, query: Ask, lo: int) returns (dir: ExportDir, r: Exported)
    requires src != multiset{} && AllQueriesOk(query, src, [])
    ensures fresh(dir) && fresh(dir.store) && r.Exported? && STRAY in r.outputs && dir.manifest.Some?
    ensures STRAY in dir.store.tree && Describes(EntriesOf(dir.manifest), dir.store.tree)
    ensures r.outputs == Files(EntriesOf(dir.manifest)) && !Partitioned(dir.store.tree, src, [])
  {
    hide Partitioned, AllQueriesOk, Bounds, Describes, PathOf, TailRight, TailFails, Strays, Kept, RestOf, Unlistable,
         Intact;
    FlatListable(src, query);
    dir := new ExportDir();
    r := dir.ExportSeries([], None, query, map[], src);
    ghost var seed, es := dir.store.tree, EntriesOf(dir.manifest);
    OnlyStray(seed, es, src, lo);
    dir.store.tree := dir.store.tree[STRAY := []];
    NoTailFailure(es, lo, dir.store.tree, query);
    r := dir.ExportSeries([], Some(Hint(0, Since(lo))), query, seed, src);
    ListedFile(EntriesOf(dir.manifest), dir.store.tree, STRAY);
    AlienFile(dir.store.tree, src);
  }

  /** And it stays: the manifest now lists the stray, so no file waits unlisted, and yet the next build with
      a truthful `Unchanged` adopts the directory and serves it again. */
  method StrayStays(src: Source, query: Ask, lo: int) returns (dir: ExportDir, r: Exported)
    requires src != multiset{} && AllQueriesOk(query, src, [])
    ensures fresh(dir) && r.Exported? && STRAY in r.outputs && dir.manifest.Some?
    ensures Strays(EntriesOf(dir.manifest), dir.store.tree) == {} && !Partitioned(dir.store.tree, src, [])
  {
    hide Partitioned, AllQueriesOk, Bounds, PathOf, TailRight, TailFails, Kept, RestOf, Unlistable, TimesOk;
    dir, r := StrayServed(src, query, lo);
    ghost var seed, es := dir.store.tree, EntriesOf(dir.manifest);
    ListedFile(es, seed, STRAY);
    assert forall p :: p in seed ==> Lists(es, p);
    r := dir.ExportSeries([], Some(Hint(0, Unchanged)), query, seed, src);
  }

  // ----- runs of builds -----

  /** One build: what happened to the directory before it, the hint its source gives, its current rows,
      and how the engine answers its queries. */
  datatype Request = Request(tamper: Tree -> Tree, hint: Option<Hint>, src: Source, query: Ask)

  function DigestOf(req: Request): Option<nat> {
    if req.hint.Some? then Some(req.hint.value.digest) else None
  }

  /** Each hint is truthful about the rows of the previous build. */
  ghost predicate TruthfulAfter(prev: Request, next: Request) {
    next.hint.Some? ==> HintTruthful(next.hint.value, DigestOf(prev), prev.src, next.src)
  }

  /** A directory between two builds: its manifest, all its files, and the listed files of `alien` origin. */
  datatype State = State(manifest: Option<SeriesManifest>, tree: Tree, alien: set<Path>) {
    ghost function Listed(): Tree {
      Shown(tree, EntriesOf(manifest))
    }
  }

  /** A full build leaves no alien files, an adopting build the ones it finds listed, and a tail build those
      of them that end at or before the changed point, with the strays. */
  ghost function NextAlien(mode: Mode, es: seq<Entry>, found: Tree, alien: set<Path>): set<Path> {
    match mode
    case Adopt => alien
    case Tail(lo) => AlienAfter(es, lo, found, alien)
    case Full => {}
  }

  ghost predicate Ran(s: State, req: Request, parts: seq<Part>, t: State) {
    var mode, es, found := ModeOf(s.manifest, req.hint), EntriesOf(s.manifest), req.tamper(s.tree);
    && t.manifest.Some? && t.manifest.value.digest == DigestOf(req)
    && Made(mode, es, found, req.query, parts, EntriesOf(t.manifest), t.tree)
    && t.alien == NextAlien(mode, es, found, s.alien)
  }

  /** The listed files are those of the rows, and the alien ones. */
  ghost predicate Holds(s: State, src: Source, parts: seq<Part>) {
    Describes(EntriesOf(s.manifest), s.Listed()) && Mostly(s.Listed(), src, parts, s.alien)
  }

  ghost predicate FailsFrom(s: State, req: Request, parts: seq<Part>) {
    Fails(ModeOf(s.manifest, req.hint), EntriesOf(s.manifest), req.tamper(s.tree), req.query, parts)
  }

  /** Something is wrong before the build starts: with the rows, with a listed file, with a file waiting
      unlisted, or with what earlier builds listed. */
  ghost predicate Troubled(s: State, req: Request, parts: seq<Part>) {
    || !Exportable(req.src, parts) || s.alien != {}
    || Broken(EntriesOf(s.manifest), req.tamper(s.tree)) || Strays(EntriesOf(s.manifest), req.tamper(s.tree)) != {}
  }

  /** Any run of builds with truthful hints, whatever happens to the files between them: after each success
      the listed tree is right exactly when no alien file is listed, and the first failure is of a build
      that was in trouble from the start. */
  method RunBuilds(dir: ExportDir, parts: seq<Part>, reqs: seq<Request>) returns (done: nat, ghost run: seq<State>)
    requires parts == [] || Nested(parts)
    requires dir.manifest == None
    requires forall i :: 0 <= i < |reqs| ==> AllQueriesOk(reqs[i].query, reqs[i].src, parts)
    requires forall i, j :: 0 <= i < |reqs| && j == i + 1 && j < |reqs| ==> TruthfulAfter(reqs[i], reqs[j])
    modifies dir, dir.store
    ensures done <= |reqs| && |run| == done + 1 && run[0] == State(None, old(dir.store.tree), {})
    ensures forall i, j :: 0 <= i < done && j == i + 1 ==> Ran(run[i], reqs[i], parts, run[j])
    ensures forall i, j :: 0 <= i < done && j == i + 1 ==> Holds(run[j], reqs[i].src, parts)
    ensures forall i, j :: 0 <= i < done && j == i + 1 ==>
      (Partitioned(run[j].Listed(), reqs[i].src, parts) <==> run[j].alien == {})
    ensures done == |reqs| ==> run[done].manifest == dir.manifest && run[done].tree == dir.store.tree
    ensures done < |reqs| ==> FailsFrom(run[done], reqs[done], parts) && Troubled(run[done], reqs[done], parts)
  {
    hide AllQueriesOk, Nested, HintTruthful, Describes, Partitioned, Mostly, Made, Fails, Right, Shown, Broken, Strays,
         NextAlien;
    done, run := 0, [State(None, dir.store.tree, {})];
    while done < |reqs|
      invariant done <= |reqs| && |run| == done + 1 && run[0] == State(None, old(dir.store.tree), {})
      invariant run[done].manifest == dir.manifest && run[done].tree == dir.store.tree
      invariant done == 0 ==> dir.manifest == None
      invariant done > 0 ==> dir.manifest.Some? && dir.manifest.value.digest == DigestOf(reqs[done - 1])
      invariant done > 0 ==> Holds(run[done], reqs[done - 1].src, parts)
      invariant forall i, j :: 0 <= i < done && j == i + 1 ==> Ran(run[i], reqs[i], parts, run[j])
      invariant forall i, j :: 0 <= i < done && j == i + 1 ==> Holds(run[j], reqs[i].src, parts)
    {
      var req := reqs[done];
      ghost var s := run[done];
      ghost var prev := if done > 0 then reqs[done - 1].src else req.src;
      assert done > 0 ==> TruthfulAfter(reqs[done - 1], reqs[done]);
      dir.store.tree := req.tamper(dir.store.tree);
      var r := dir.ExportSeries(parts, req.hint, req.query, s.Listed(), req.src);
      if r.ExportFailed? {
        FailureTroubled(s, req, prev, parts);
        RunRight(run, reqs, parts);
        return;
      }
      ghost var t := State(dir.manifest, dir.store.tree,
                           NextAlien(ModeOf(s.manifest, req.hint), EntriesOf(s.manifest), req.tamper(s.tree), s.alien));
      StepHolds(s, req, prev, parts, t);
      run := run + [t];
      done := done + 1;
    }
    RunRight(run, reqs, parts);
  }

  lemma RunRight(run: seq<State>, reqs: seq<Request>, parts: seq<Part>)
    requires 0 < |run| <= |reqs| + 1
    requires forall i, j :: 0 <= i < |run| - 1 && j == i + 1 ==> Holds(run[j], reqs[i].src, parts)
    ensures forall i, j :: 0 <= i < |run| - 1 && j == i + 1 ==>
      (Partitioned(run[j].Listed(), reqs[i].src, parts) <==> run[j].alien == {})
  {
    hide Partitioned, Mostly, Describes, Shown;
    forall i, j | 0 <= i < |run| - 1 && j == i + 1
      ensures Partitioned(run[j].Listed(), reqs[i].src, parts) <==> run[j].alien == {}
    {
      assert Holds(run[j], reqs[i].src, parts);
      MostlyRight(run[j].Listed(), reqs[i].src, parts, run[j].alien);
    }
  }

  /** One successful build carries the law on. */
  lemma StepHolds(s: State, req: Request, prev: Source, parts: seq<Part>, t: State)
    requires (parts == [] || Nested(parts)) && AllQueriesOk(req.query, req.src, parts)
    requires Ran(s, req, parts, t) && (s.manifest.Some? ==> Holds(s, prev, parts))
    requires s.manifest.Some? && req.hint.Some? ==> HintTruthful(req.hint.value, s.manifest.value.digest, prev, req.src)
    ensures Holds(t, req.src, parts)
  {
    hide Partitioned, Describes, Mostly, QueryOk, Nested, TailRight, Shown, Flatten, Broken, TailTree, Intact,
         AgreeBefore;
    var es, found := EntriesOf(s.manifest), req.tamper(s.tree);
    var mode, out, now := ModeOf(s.manifest, req.hint), t.tree, EntriesOf(t.manifest);
    MadeRightIff(mode, es, s.Listed(), found, req.query, req.src, parts, now, out);
    match mode {
      case Adopt =>
      case Tail(lo) => TailHolds(s, req, prev, parts, lo, out);
      case Full => RightIsMostly(out, req.src, parts);
    }
  }

  lemma TailHolds(s: State, req: Request, prev: Source, parts: seq<Part>, lo: int, out: Tree)
    requires (parts == [] || Nested(parts)) && AllQueriesOk(req.query, req.src, parts) && Holds(s, prev, parts)
    requires AgreeBefore(prev, req.src, lo)
    requires !Damaged(EntriesOf(s.manifest), lo, req.tamper(s.tree))
    requires TailTree(EntriesOf(s.manifest), lo, req.tamper(s.tree), req.query, parts, out)
    ensures Mostly(out, req.src, parts, AlienAfter(EntriesOf(s.manifest), lo, req.tamper(s.tree), s.alien))
  {
    hide Describes, Mostly, QueryOk, Nested, Flatten, RewriteFrom, RestOf, Grouped, Paths, Shown, AgreeBefore,
         AgreeUnread, AlienAfter;
    var es, seed, found := EntriesOf(s.manifest), s.Listed(), req.tamper(s.tree);
    var from :| RewriteFrom(es, lo, from) && Paths(Flatten(req.query(from)), parts) !! RestOf(es, lo, found).Keys
                && out == RestOf(es, lo, found) + Grouped(Flatten(req.query(from)), parts);
    assert QueryOk(req.query(from), req.src, from, parts);
    AgreementIsEnough(es, seed, prev, req.src, parts, lo, from);
    UndamagedKept(es, lo, seed, found);
    TailStep(es, seed, found, prev, req.src, parts, s.alien, lo, from, req.query(from));
  }

  lemma UndamagedKept(es: seq<Entry>, lo: int, seed: Tree, found: Tree)
    requires Describes(es, seed) && !Damaged(es, lo, found)
    ensures forall p :: p in Kept(es, lo) ==> p in found && p in seed && found[p] == seed[p]
  {
    hide TimesOk, Lists;
    forall p | p in Kept(es, lo) ensures p in found && p in seed && found[p] == seed[p] {
      var i :| 0 <= i < |es| && Reusable(es[i], lo) && es[i].file == p;
      assert Intact(es[i], found) && Intact(es[i], seed);
    }
  }

  /** A build that is in no trouble does not fail. */
  lemma FailureTroubled(s: State, req: Request, prev: Source, parts: seq<Part>)
    requires (parts == [] || Nested(parts)) && AllQueriesOk(req.query, req.src, parts)
    requires s.manifest.Some? ==> Holds(s, prev, parts)
    requires s.manifest.Some? && req.hint.Some? ==> HintTruthful(req.hint.value, s.manifest.value.digest, prev, req.src)
    requires FailsFrom(s, req, parts)
    ensures Troubled(s, req, parts)
  {
    hide Partitioned, Describes, Mostly, QueryOk, Nested, TailFails, Shown, Flatten, Unlistable, Intact, AgreeBefore,
         Exportable, Strays, Grouped;
    if !Troubled(s, req, parts) {
      match ModeOf(s.manifest, req.hint) {
        case Adopt =>
        case Tail(lo) => TailWorks(s, req, prev, parts, lo);
        case Full => FullWorks(req, parts);
      }
    }
  }

  lemma FullWorks(req: Request, parts: seq<Part>)
    requires AllQueriesOk(req.query, req.src, parts) && Exportable(req.src, parts)
    ensures !Unlistable(Grouped(Flatten(req.query(None)), parts))
  {
    hide QueryOk, Grouped, Flatten, Exportable;
    assert QueryOk(req.query(None), req.src, None, parts);
    FullRewrite(req.query(None), req.src, parts);
    RightListable(Grouped(Flatten(req.query(None)), parts), req.src, parts);
  }

  /** A right tree can be listed exactly when there are rows and every one has a date. */
  lemma RightListable(tree: Tree, src: Source, parts: seq<Part>)
    requires Partitioned(tree, src, parts)
    ensures Unlistable(tree) <==> !Exportable(src, parts)
  {
    hide FileOk, Bounds, Where;
    forall p | p in tree && Bounds(p).Err? ensures Undatable(src, parts) {
      assert HasPath(src, parts, p);
      var r :| r in src && Where(r, parts) == p;
    }
    forall r | r in src ensures Where(r, parts) in tree { assert HasPath(src, parts, Where(r, parts)); }
    if src == multiset{} {
      forall p ensures p !in tree { assert !HasPath(src, parts, p); }
    } else {
      var r :| r in src;
    }
  }

  lemma TailWorks(s: State, req: Request, prev: Source, parts: seq<Part>, lo: int)
    requires (parts == [] || Nested(parts)) && AllQueriesOk(req.query, req.src, parts) && Holds(s, prev, parts)
    requires AgreeBefore(prev, req.src, lo) && !Troubled(s, req, parts)
    ensures !Damaged(EntriesOf(s.manifest), lo, req.tamper(s.tree))
    ensures !TailFails(EntriesOf(s.manifest), lo, req.tamper(s.tree), req.query, parts)
  {
    hide Partitioned, Describes, Mostly, QueryOk, Nested, Exportable, Strays, RewriteFrom, RestOf, FailsAt, Shown,
         Intact;
    var es, found := EntriesOf(s.manifest), req.tamper(s.tree);
    forall from | RewriteFrom(es, lo, from) ensures !FailsAt(RestOf(es, lo, found), req.query(from), parts) {
      TailWorksFrom(s, req, prev, parts, lo, from);
    }
  }

  lemma TailWorksFrom(s: State, req: Request, prev: Source, parts: seq<Part>, lo: int, from: Option<int>)
    requires (parts == [] || Nested(parts)) && AllQueriesOk(req.query, req.src, parts) && Holds(s, prev, parts)
    requires AgreeBefore(prev, req.src, lo) && !Troubled(s, req, parts) && RewriteFrom(EntriesOf(s.manifest), lo, from)
    ensures !FailsAt(RestOf(EntriesOf(s.manifest), lo, req.tamper(s.tree)), req.query(from), parts)
  {
    hide Partitioned, Describes, Mostly, QueryOk, Nested, Exportable, RewriteFrom, Shown, Intact, Kept, AgreeBefore,
         Paths, Grouped, Flatten, Unlistable;
    var es, seed, found, batches := EntriesOf(s.manifest), s.Listed(), req.tamper(s.tree), req.query(from);
    var rest := RestOf(es, lo, found);
    assert QueryOk(req.query(from), req.src, from, parts);
    MostlyRight(seed, prev, parts, {});
    forall p | p in Paths(Flatten(batches), parts) ensures p !in rest {
      StreamDisjoint(es, seed, prev, req.src, parts, lo, from, batches, p);
      StrayUnlisted(es, lo, found, p);
    }
    assert !Damaged(es, lo, found);
    assert TailTree(es, lo, found, req.query, parts, rest + Grouped(Flatten(batches), parts));
    TailHolds(s, req, prev, parts, lo, rest + Grouped(Flatten(batches), parts));
    assert AlienAfter(es, lo, found, {}) == {};
    MostlyRight(rest + Grouped(Flatten(batches), parts), req.src, parts, {});
    RightListable(rest + Grouped(Flatten(batches), parts), req.src, parts);
  }
}
