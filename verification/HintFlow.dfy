/**
 Between the reduction and the export: what a change hint is worth.

 A chain build reports its change relative to what the level had published, while the tree an export
 patches was seeded by an earlier build of that export.  Where the two are the same state the hint is
 truthful; a second output over the same levels shows that they need not be, and that the digest an
 export records does not tell.
 */
module HintFlow {
  import opened Wrappers
  import opened Partitions
  import opened PartitionWriter
  import opened Export
  import opened ExportRight
  import opened ExportRun
  import SizeTier
  import Aggregate
  import SegmentCache
  import SourceSet
  import ResDirectory
  import Rollup
  import LevelBuild
  import RollupChain

  /** The output columns reconstructed from a level's partials. */
  type View = Aggregate.Content -> Source

  /** The digest of a level's artifacts. */
  type Digest = ResDirectory.Artifacts -> nat

  type Engine = (Source, Option<int>) -> seq<seq<Row>>

  ghost predicate Injective(dig: Digest) {
    forall a, b :: dig(a) == dig(b) ==> a == b
  }

  /** Reconstruction keeps the bucket start as the row's time. */
  ghost predicate Local(view: View) {
    forall a, b, lo :: SegmentCache.AgreeBelow(a, b, lo) ==> AgreeBefore(view(a), view(b), lo)
  }

  ghost predicate Answers(engine: Engine, parts: seq<Part>) {
    forall src, from :: QueryOk(engine(src, from), src, from, parts)
  }

  function AskOf(engine: Engine, src: Source): Ask {
    from => engine(src, from)
  }

  function ChangeOf(c: Rollup.LevelChange): Change {
    match c
    case Nothing => Unchanged
    case Since(lo) => Since(lo)
    case Everything => Everything
  }

  /** The hint published with a built level. */
  function HintOf(b: LevelBuild.Built, dig: Digest): Hint
    requires b.Built?
  {
    Hint(dig(b.output), ChangeOf(b.change))
  }

  /** What the export of a level built from `now` must show. */
  ghost function Rows(now: SourceSet.Sources, g: Aggregate.Grid, view: View): Source
    requires g.Valid()
  {
    view(SourceSet.Direct(now.Keys, g))
  }

  // ----- one build -----

  /** The tree shows the rows of the artifacts `from`, and its manifest records their digest. */
  ghost predicate Seeded(m: SeriesManifest, seed: Tree, from: ResDirectory.Artifacts, view: View, dig: Digest,
                         parts: seq<Part>) {
    m.digest == Some(dig(from)) && Consistent(seed, m, view(from.Content()), parts)
  }

  /** What an export can test: its manifest carries the digest of what the level has published. */
  ghost predicate Anchored(m: SeriesManifest, head: Option<ResDirectory.Artifacts>, dig: Digest) {
    head.Some? && m.digest == Some(dig(head.value))
  }

  /** To an anchored seed the hint is truthful. */
  lemma AnchoredIsTruthful(digest: Option<nat>, from: ResDirectory.Artifacts, head: Option<ResDirectory.Artifacts>,
                           b: LevelBuild.Built, view: View, dig: Digest)
    requires Injective(dig) && Local(view) && digest == Some(dig(from)) && head == Some(from)
    requires b.Built? && RollupChain.Reports(head, b.change, b.output)
    ensures HintTruthful(HintOf(b, dig), digest, view(from.Content()), view(b.output.Content()))
  {
    hide SegmentCache.AgreeBelow, AgreeBefore;
  }

  /** When a build keeps an export seeded: it is full, or starts anchored from a seeded tree with nothing
      stray in the way of a tail. */
  ghost predicate Carries(mode: Mode, m: Option<SeriesManifest>, seed: Tree, found: Tree,
                          head: Option<ResDirectory.Artifacts>, view: View, dig: Digest, parts: seq<Part>) {
    mode.Full? || (
      && m.Some? && head.Some? && Anchored(m.value, head, dig) && Seeded(m.value, seed, head.value, view, dig, parts)
      && (mode.Tail? ==> Strays(m.value.partitions, found) == {}))
  }

  /** What the export of a built level saves, by what the level reports. */
  ghost predicate Saves(m: Option<SeriesManifest>, b: LevelBuild.Built, dig: Digest, r: Exported)
    requires b.Built? && r.Exported?
  {
    m.Some? && m.value.partitions != [] ==>
      && (b.change.Nothing? || m.value.digest == Some(dig(b.output)) ==> r.written == 0)
      && (b.change.Since? && m.value.digest != Some(dig(b.output)) ==>
          r.reused == |Kept(m.value.partitions, b.change.lo)|)
  }

  /** Build the levels of an output and export it, whatever its directory holds: when the export fails,
      what it leaves, when that is right, and when it is seeded by what was just built. */
  method ExportLevel(dirs: seq<ResDirectory.ResDir>, grids: seq<Aggregate.Grid>, level: nat, dir: ExportDir,
                     now: SourceSet.Sources, policy: Rollup.Policy, sizeOf: Aggregate.Content -> SizeTier.U64,
                     view: View, dig: Digest, engine: Engine, parts: seq<Part>, ghost seed: Tree)
    returns (b: LevelBuild.Built, r: Exported)
    requires RollupChain.Chain(dirs, grids) && RollupChain.AllOk(dirs, grids) && level < |dirs|
    requires SourceSet.Truthful(now)
    requires Injective(dig) && Local(view) && Answers(engine, parts) && (parts == [] || Nested(parts))
    requires dir.manifest.Some? ==> Describes(dir.manifest.value.partitions, seed)
    modifies dirs, dir, dir.store
    ensures RollupChain.AllOk(dirs, grids)
    ensures forall j :: level < j < |dirs| ==> dirs[j].files == old(dirs[j].files)
    ensures RollupChain.Raised(old(dirs[level].files), dirs[level].files, b, now, policy.lateness, grids[level])
    ensures b.Built? ==> RollupChain.Settled(RollupChain.FilesOf(dirs), level, now, policy.lateness)
    ensures old(RollupChain.Settled(RollupChain.FilesOf(dirs), level, now, policy.lateness)) ==>
      RollupChain.Repeats(old(dirs[level].files), b)
    ensures old(RollupChain.AllAlive(dirs)) ==> RollupChain.AllAlive(dirs) && b.Built?
    ensures r.Exported? ==> b.Built?
    ensures b.Built? ==> (r.ExportFailed? <==>
      Fails(ModeOf(old(dir.manifest), Some(HintOf(b, dig))), old(EntriesOf(dir.manifest)), old(dir.store.tree),
            AskOf(engine, view(b.content)), parts))
    ensures r.Exported? ==> Saves(old(dir.manifest), b, dig, r)
    ensures r.Exported? ==>
      && dir.manifest.Some? && dir.manifest.value.digest == Some(dig(b.output))
      && Made(ModeOf(old(dir.manifest), Some(HintOf(b, dig))), old(EntriesOf(dir.manifest)), old(dir.store.tree),
              AskOf(engine, view(b.content)), parts, EntriesOf(dir.manifest), dir.store.tree)
    ensures r.Exported? ==>
      (Partitioned(Shown(dir.store.tree, EntriesOf(dir.manifest)), Rows(now, grids[level], view), parts)
       <==> Right(ModeOf(old(dir.manifest), Some(HintOf(b, dig))), old(EntriesOf(dir.manifest)), seed,
                  old(dir.store.tree), Rows(now, grids[level], view), parts))
    ensures r.Exported? && Carries(ModeOf(old(dir.manifest), Some(HintOf(b, dig))), old(dir.manifest), seed,
                                   old(dir.store.tree), old(RollupChain.HeadOf(dirs[level].files)), view, dig,
                                   parts) ==>
      Seeded(dir.manifest.value, Shown(dir.store.tree, EntriesOf(dir.manifest)), b.output, view, dig, parts)
  {
    hide RollupChain.AllOk, RollupChain.Chain, RollupChain.Settled, RollupChain.Repeats, RollupChain.AllAlive,
         SourceSet.Direct, RollupChain.HeadOf, RollupChain.Reports, Describes, Partitioned, Shown, Made, Fails, Right,
         Carries, Injective, Local, Nested, Answers, SourceSet.Truthful, AllQueriesOk, ModeOf, RollupChain.Current,
         Seeded;
    ghost var m, found := dir.manifest, dir.store.tree;
    b := RollupChain.BuildChain(dirs, grids, level, now, policy, sizeOf);
    if !b.Built? { return b, ExportFailed; }
    var src := view(b.content);
    Asked(engine, src, parts);
    r := dir.ExportSeries(parts, Some(HintOf(b, dig)), AskOf(engine, src), seed, src);
    if r.Exported? && Carries(ModeOf(m, Some(HintOf(b, dig))), m, seed, found,
                              old(RollupChain.HeadOf(dirs[level].files)), view, dig, parts) {
      Carried(m, seed, found, old(RollupChain.HeadOf(dirs[level].files)), b, view, dig, engine, parts,
              dir.manifest.value, dir.store.tree);
    }
  }

  lemma Asked(engine: Engine, src: Source, parts: seq<Part>)
    requires Answers(engine, parts)
    ensures AllQueriesOk(AskOf(engine, src), src, parts)
  {
    hide QueryOk;
  }

  lemma Carried(m: Option<SeriesManifest>, seed: Tree, found: Tree, head: Option<ResDirectory.Artifacts>,
                b: LevelBuild.Built, view: View, dig: Digest, engine: Engine, parts: seq<Part>, now: SeriesManifest,
                out: Tree)
    requires Injective(dig) && Local(view) && Answers(engine, parts) && (parts == [] || Nested(parts))
    requires b.Built? && b.content == b.output.Content() && RollupChain.Reports(head, b.change, b.output)
    requires now.digest == Some(dig(b.output))
    requires Carries(ModeOf(m, Some(HintOf(b, dig))), m, seed, found, head, view, dig, parts)
    requires Made(ModeOf(m, Some(HintOf(b, dig))), EntriesOf(m), found, AskOf(engine, view(b.content)), parts,
                  now.partitions, out)
    ensures Seeded(now, Shown(out, now.partitions), b.output, view, dig, parts)
  {
    hide Describes, Partitioned, Shown, Made, Right, Injective, Local, Nested, Answers, AllQueriesOk,
         RollupChain.Reports, HintTruthful, Mostly, Strays, Kept;
    var hint, src := HintOf(b, dig), view(b.content);
    var mode, es, ask := ModeOf(m, Some(hint)), EntriesOf(m), AskOf(engine, src);
    Asked(engine, src, parts);
    if mode.Full? {
      FullIsRight(es, seed, found, ask, src, parts, now.partitions, out);
    } else {
      AnchoredIsTruthful(m.value.digest, head.value, head, b, view, dig);
      ShownAll(es, seed);
      RightIsMostly(seed, view(head.value.Content()), parts);
      var s, req := State(m, seed, {}), Request(_ => found, Some(hint), src, ask);
      var t := State(Some(now), out, NextAlien(mode, es, found, {}));
      StepHolds(s, req, view(head.value.Content()), parts, t);
      MostlyRight(t.Listed(), src, parts, t.alien);
    }
  }

  lemma FullIsRight(es: seq<Entry>, seed: Tree, found: Tree, ask: Ask, src: Source, parts: seq<Part>, now: seq<Entry>,
                    out: Tree)
    requires AllQueriesOk(ask, src, parts) && Made(Full, es, found, ask, parts, now, out)
    ensures Describes(now, Shown(out, now)) && Partitioned(Shown(out, now), src, parts)
  {
    hide Describes, Partitioned, Shown, Made, AllQueriesOk;
    MadeRightIff(Full, es, seed, found, ask, src, parts, now, out);
  }

  // ----- an output nobody else touches -----

  /** What an output is: its manifest, and the rows its files show. */
  datatype Face = Face(manifest: Option<SeriesManifest>, rows: Source)

  /** The directory shows this face, and nothing besides. */
  ghost predicate Faces(manifest: Option<SeriesManifest>, tree: Tree, face: Face, parts: seq<Part>) {
    manifest == face.manifest && (manifest.Some? ==> Consistent(tree, manifest.value, face.rows, parts))
  }

  /** The rows a build with this hint will show: the current ones, the ones it has, or the ones it has below
      the watermark and the current ones from there. */
  ghost predicate Shows(before: Face, hint: Hint, current: Source, rows: Source) {
    match ModeOf(before.manifest, Some(hint))
    case Adopt => rows == before.rows
    case Tail(lo) =>
      exists from :: RewriteFrom(EntriesOf(before.manifest), lo, from) && rows == Splice(before.rows, current, from)
    case Full => rows == current
  }

  /** A build of an untouched output fails exactly when the rows it would show cannot be listed, and
      otherwise shows them. */
  lemma BuildShows(before: Face, tree: Tree, hint: Hint, ask: Ask, current: Source, parts: seq<Part>)
    returns (rows: Source)
    requires Faces(before.manifest, tree, before, parts) && AllQueriesOk(ask, current, parts)
    requires (parts == [] || Nested(parts))
    ensures Shows(before, hint, current, rows)
    ensures Fails(ModeOf(before.manifest, Some(hint)), EntriesOf(before.manifest), tree, ask, parts) <==>
      !Exportable(rows, parts)
    ensures Exportable(rows, parts) ==>
      forall now, out ::
        Made(ModeOf(before.manifest, Some(hint)), EntriesOf(before.manifest), tree, ask, parts, now, out) ==>
        Describes(now, out) && Partitioned(out, rows, parts) && now != []
  {
    hide Describes, Partitioned, Nested, Exportable, QueryOk, Grouped, Flatten, Splice, RewriteFrom, RestOf, Unlistable,
         TailFails, TailTree, Damaged, Paths;
    match ModeOf(before.manifest, Some(hint)) {
      case Adopt =>
        rows := before.rows;
        Unbroken(EntriesOf(before.manifest), tree);
        ListedExportable(EntriesOf(before.manifest), tree, rows, parts);
      case Tail(lo) =>
        var es := EntriesOf(before.manifest);
        Unbroken(es, tree);
        var from := Watermark(es, lo);
        rows := Splice(before.rows, current, from);
        assert QueryOk(ask(from), current, from, parts);
        TailSplices(es, tree, before.rows, current, parts, lo, from, ask(from));
        var after := RestOf(es, lo, tree) + Grouped(Flatten(ask(from)), parts);
        RightListable(after, rows, parts);
        TailFailsIs(es, lo, tree, ask, parts, from);
        forall now, out | Exportable(rows, parts) && Made(Tail(lo), es, tree, ask, parts, now, out)
          ensures Describes(now, out) && Partitioned(out, rows, parts) && now != []
        {
          TailTreeOnly(es, lo, tree, ask, parts, from, out);
          ListsSomething(now, out, rows, parts);
        }
      case Full =>
        rows := current;
        assert QueryOk(ask(None), current, None, parts);
        FullRewrite(ask(None), current, parts);
        RightListable(Grouped(Flatten(ask(None)), parts), current, parts);
        forall now, out | Exportable(rows, parts) && Made(Full, EntriesOf(before.manifest), tree, ask, parts, now, out)
          ensures Describes(now, out) && Partitioned(out, rows, parts) && now != []
        {
          ListsSomething(now, out, rows, parts);
        }
    }
  }

  lemma Unbroken(es: seq<Entry>, tree: Tree)
    requires Describes(es, tree)
    ensures !Broken(es, tree) && forall lo :: !Damaged(es, lo, tree)
  {
    hide TimesOk, Lists, Reusable;
  }

  lemma ListsSomething(es: seq<Entry>, tree: Tree, rows: Source, parts: seq<Part>)
    requires Describes(es, tree) && Partitioned(tree, rows, parts) && Exportable(rows, parts)
    ensures es != []
  {
    hide Describes, Partitioned, Undatable;
    if es == [] { EmptyTree(tree, rows, parts); }
  }

  lemma ListedExportable(es: seq<Entry>, tree: Tree, rows: Source, parts: seq<Part>)
    requires Describes(es, tree) && Partitioned(tree, rows, parts) && es != []
    ensures Exportable(rows, parts)
  {
    hide Partitioned, Bounds, Exportable;
    RightListable(tree, rows, parts);
    forall p | p in tree ensures Bounds(p).Ok? {
      assert Lists(es, p);
      var i :| 0 <= i < |es| && es[i].file == p;
      assert TimesOk(es[i]);
    }
    assert Intact(es[0], tree);
  }

  lemma TailTreeOnly(es: seq<Entry>, lo: int, found: Tree, ask: Ask, parts: seq<Part>, from: Option<int>, out: Tree)
    requires TailTree(es, lo, found, ask, parts, out) && RewriteFrom(es, lo, from)
    ensures out == RestOf(es, lo, found) + Grouped(Flatten(ask(from)), parts)
  {
    hide RewriteFrom, RestOf, Grouped, Flatten, Paths;
    var x :| RewriteFrom(es, lo, x) && Paths(Flatten(ask(x)), parts) !! RestOf(es, lo, found).Keys
             && out == RestOf(es, lo, found) + Grouped(Flatten(ask(x)), parts);
    WatermarkUnique(es, lo, x, from);
  }

  /** There always is a watermark. */
  lemma Watermark(es: seq<Entry>, lo: int) returns (from: Option<int>)
    ensures RewriteFrom(es, lo, from)
  {
    if i :| 0 <= i < |es| && !Reusable(es[i], lo) && es[i].start.None? {
      from := None;
    } else {
      var t := lo;
      for n := 0 to |es|
        invariant t <= lo && forall i :: 0 <= i < n && !Reusable(es[i], lo) ==> t <= es[i].start.value
        invariant t == lo || exists i :: 0 <= i < |es| && !Reusable(es[i], lo) && es[i].start == Some(t)
      {
        if !Reusable(es[n], lo) && es[n].start.value < t { t := es[n].start.value; }
      }
      from := Some(t);
    }
  }

  /** One build of one output: its levels are raised, and the output shows what its hint makes it show. */
  method TakeTurn(dirs: seq<ResDirectory.ResDir>, grids: seq<Aggregate.Grid>, level: nat, dir: ExportDir,
                  now: SourceSet.Sources, policy: Rollup.Policy, sizeOf: Aggregate.Content -> SizeTier.U64,
                  view: View, dig: Digest, engine: Engine, parts: seq<Part>, ghost before: Face)
    returns (b: LevelBuild.Built, r: Exported, ghost rows: Source)
    requires RollupChain.Chain(dirs, grids) && RollupChain.AllOk(dirs, grids) && level < |dirs|
    requires SourceSet.Truthful(now)
    requires Injective(dig) && Local(view) && Answers(engine, parts) && (parts == [] || Nested(parts))
    requires Faces(dir.manifest, dir.store.tree, before, parts)
    modifies dirs, dir, dir.store
    ensures RollupChain.AllOk(dirs, grids)
    ensures forall j :: level < j < |dirs| ==> dirs[j].files == old(dirs[j].files)
    ensures RollupChain.Raised(old(dirs[level].files), dirs[level].files, b, now, policy.lateness, grids[level])
    ensures b.Built? ==> RollupChain.Settled(RollupChain.FilesOf(dirs), level, now, policy.lateness)
    ensures old(RollupChain.Settled(RollupChain.FilesOf(dirs), level, now, policy.lateness)) ==>
      RollupChain.Repeats(old(dirs[level].files), b)
    ensures old(RollupChain.AllAlive(dirs)) ==> RollupChain.AllAlive(dirs) && b.Built?
    ensures b.Built? ==> Shows(before, HintOf(b, dig), view(b.content), rows)
    ensures r.Exported? <==> b.Built? && Exportable(rows, parts)
    ensures r.Exported? ==>
      && dir.manifest.Some? && dir.manifest.value.digest == Some(dig(b.output)) && dir.manifest.value.partitions != []
      && Faces(dir.manifest, dir.store.tree, Face(dir.manifest, rows), parts)
  {
    hide RollupChain.AllOk, RollupChain.Chain, RollupChain.Settled, RollupChain.Repeats, RollupChain.AllAlive,
         SourceSet.Direct, RollupChain.HeadOf, RollupChain.Raised, Describes, Partitioned, Shown, Made, Fails, Right,
         Carries, Injective, Local, Nested, Answers, SourceSet.Truthful, AllQueriesOk, ModeOf, Seeded, Exportable,
         Shows;
    ghost var tree := dir.store.tree;
    rows := multiset{};
    b, r := ExportLevel(dirs, grids, level, dir, now, policy, sizeOf, view, dig, engine, parts, tree);
    if b.Built? {
      Asked(engine, view(b.content), parts);
      rows := BuildShows(before, tree, HintOf(b, dig), AskOf(engine, view(b.content)), view(b.content), parts);
    }
  }

  // ----- any number of outputs over one chain -----

  /** One build of one output. */
  datatype Turn = Turn(out: nat, now: SourceSet.Sources, policy: Rollup.Policy)

  /** What every level has published and every output shows. */
  datatype World = World(heads: seq<Option<ResDirectory.Artifacts>>, outs: seq<Face>)

  ghost predicate HeadIs(head: Option<ResDirectory.Artifacts>, now: SourceSet.Sources, g: Aggregate.Grid) {
    g.Valid() && head.Some? && head.value.Content() == SourceSet.Direct(now.Keys, g)
  }

  /** The build `b` of output `out`, which is at `level`, took the world from `w` to `t`: its levels hold the
      sources, coarser ones and other outputs are as they were, the change it reports is true of what the
      level had published, and the output records the new digest and shows what the hint makes it show. */
  ghost predicate Turned(w: World, out: nat, level: nat, now: SourceSet.Sources, b: LevelBuild.Built, t: World,
                         grids: seq<Aggregate.Grid>, view: View, dig: Digest)
  {
    && out < |w.outs| == |t.outs| && level < |w.heads| == |t.heads| == |grids| && b.Built?
    && (forall j :: 0 <= j <= level ==> HeadIs(t.heads[j], now, grids[j]))
    && (forall j :: level < j < |grids| ==> t.heads[j] == w.heads[j])
    && t.heads[level] == Some(b.output) && RollupChain.Reports(w.heads[level], b.change, b.output)
    && t.outs == w.outs[out := t.outs[out]]
    && t.outs[out].manifest.Some? && t.outs[out].manifest.value.digest == Some(dig(b.output))
    && Shows(w.outs[out], HintOf(b, dig), view(b.output.Content()), t.outs[out].rows)
  }

  /** The output shows the rows of the artifacts whose digest it records. */
  ghost predicate Faithful(face: Face, view: View, dig: Digest) {
    face.manifest.Some? ==> forall a :: face.manifest.value.digest == Some(dig(a)) ==> face.rows == view(a.Content())
  }

  /** What the turn finds decides whether its output is right. */
  ghost predicate Reaches(before: Face, hint: Hint, current: Source) {
    match ModeOf(before.manifest, Some(hint))
    case Adopt => before.rows == current
    case Tail(lo) =>
      forall from :: RewriteFrom(EntriesOf(before.manifest), lo, Some(from)) ==> AgreeBefore(before.rows, current, from)
    case Full => true
  }

  lemma ShowsRight(before: Face, hint: Hint, current: Source, rows: Source)
    requires Shows(before, hint, current, rows)
    ensures rows == current <==> Reaches(before, hint, current)
  {
    hide RewriteFrom, Splice, AgreeBefore;
    var mode := ModeOf(before.manifest, Some(hint));
    if mode.Tail? {
      var es := EntriesOf(before.manifest);
      var from :| RewriteFrom(es, mode.lo, from) && rows == Splice(before.rows, current, from);
      SpliceRight(before.rows, current, from);
      forall x | RewriteFrom(es, mode.lo, Some(x))
        ensures from == Some(x)
      {
        WatermarkUnique(es, mode.lo, from, Some(x));
      }
    }
  }

  /** An output is right after its turn exactly when what the turn found agrees with the current rows as far
      as it was left standing. */
  lemma TurnRightIff(w: World, out: nat, level: nat, now: SourceSet.Sources, b: LevelBuild.Built, t: World,
                     grids: seq<Aggregate.Grid>, view: View, dig: Digest)
    requires Turned(w, out, level, now, b, t, grids, view, dig)
    ensures grids[level].Valid()
    ensures t.outs[out].rows == Rows(now, grids[level], view)
       <==> Reaches(w.outs[out], HintOf(b, dig), Rows(now, grids[level], view))
  {
    hide Shows, Reaches, SourceSet.Direct, RollupChain.Reports;
    assert HeadIs(t.heads[level], now, grids[level]);
    ShowsRight(w.outs[out], HintOf(b, dig), Rows(now, grids[level], view), t.outs[out].rows);
  }

  /** When a turn leaves its output faithful: it is full, or anchored to begin with. */
  ghost predicate Sure(w: World, out: nat, level: nat, b: LevelBuild.Built, dig: Digest)
    requires out < |w.outs| && level < |w.heads| && b.Built?
  {
    var m := w.outs[out].manifest;
    ModeOf(m, Some(HintOf(b, dig))).Full? || (m.Some? && Anchored(m.value, w.heads[level], dig))
  }

  /** A full turn leaves its output faithful and right, and so does an anchored one if it was faithful. */
  lemma TurnFaithful(w: World, out: nat, level: nat, now: SourceSet.Sources, b: LevelBuild.Built, t: World,
                     grids: seq<Aggregate.Grid>, view: View, dig: Digest)
    requires Injective(dig) && Local(view) && Turned(w, out, level, now, b, t, grids, view, dig)
    requires Sure(w, out, level, b, dig)
    requires ModeOf(w.outs[out].manifest, Some(HintOf(b, dig))).Full? || Faithful(w.outs[out], view, dig)
    ensures grids[level].Valid() && Faithful(t.outs[out], view, dig)
    ensures t.outs[out].rows == Rows(now, grids[level], view)
  {
    hide Shows, Splice, AgreeBefore, SourceSet.Direct, Local, Injective, HintTruthful, RewriteFrom;
    TurnRightIff(w, out, level, now, b, t, grids, view, dig);
    assert HeadIs(t.heads[level], now, grids[level]);
    var before, hint, current := w.outs[out], HintOf(b, dig), Rows(now, grids[level], view);
    if !ModeOf(before.manifest, Some(hint)).Full? {
      var head := w.heads[level];
      AnchoredIsTruthful(before.manifest.value.digest, head.value, head, b, view, dig);
      TruthfulReaches(before, hint, current);
    }
    SameDigest(t.outs[out], b.output, view, dig);
  }

  lemma TruthfulReaches(before: Face, hint: Hint, current: Source)
    requires before.manifest.Some? && HintTruthful(hint, before.manifest.value.digest, before.rows, current)
    requires !ModeOf(before.manifest, Some(hint)).Full?
    ensures Reaches(before, hint, current)
  {
  }

  lemma SameDigest(face: Face, a: ResDirectory.Artifacts, view: View, dig: Digest)
    requires Injective(dig) && face.manifest.Some? && face.manifest.value.digest == Some(dig(a))
    requires face.rows == view(a.Content())
    ensures Faithful(face, view, dig)
  {
  }

  // ----- runs of turns -----

  /** A run: `run[k + 1]` is the world after turn `k`, which built `builds[k]`. */
  ghost predicate IsRun(run: seq<World>, builds: seq<LevelBuild.Built>, turns: seq<Turn>, levels: seq<nat>,
                        grids: seq<Aggregate.Grid>, view: View, dig: Digest)
  {
    && |builds| <= |turns| && |run| == |builds| + 1
    && (forall k :: 0 <= k < |turns| ==> turns[k].out < |levels|)
    && (forall k, n :: 0 <= k < |builds| && n == k + 1 ==>
          Turned(run[k], turns[k].out, levels[turns[k].out], turns[k].now, builds[k], run[n], grids, view, dig))
  }

  /** Every turn of output `i` among the first `n`, since the last full one, found it anchored, and there
      was a full one. */
  ghost predicate SureSince(run: seq<World>, builds: seq<LevelBuild.Built>, turns: seq<Turn>, levels: seq<nat>,
                            grids: seq<Aggregate.Grid>, view: View, dig: Digest, i: nat, n: nat)
    requires IsRun(run, builds, turns, levels, grids, view, dig) && n <= |builds| && i < |levels|
    decreases n
  {
    n > 0 && (
      if turns[n - 1].out != i then SureSince(run, builds, turns, levels, grids, view, dig, i, n - 1)
      else
        assert Turned(run[n - 1], turns[n - 1].out, levels[i], turns[n - 1].now, builds[n - 1], run[n], grids, view,
                      dig);
        || ModeOf(run[n - 1].outs[i].manifest, Some(HintOf(builds[n - 1], dig))).Full?
        || (&& Sure(run[n - 1], i, levels[i], builds[n - 1], dig)
            && SureSince(run, builds, turns, levels, grids, view, dig, i, n - 1)))
  }

  /** Over any run, an output whose every build since its last full one was anchored is faithful, and was
      right when it was built. */
  lemma {:induction false} RunFaithful(run: seq<World>, builds: seq<LevelBuild.Built>, turns: seq<Turn>,
                                       levels: seq<nat>, grids: seq<Aggregate.Grid>, view: View, dig: Digest, i: nat,
                                       n: nat)
    requires IsRun(run, builds, turns, levels, grids, view, dig) && n <= |builds| && i < |levels|
    requires Injective(dig) && Local(view) && SureSince(run, builds, turns, levels, grids, view, dig, i, n)
    ensures i < |run[n].outs| && Faithful(run[n].outs[i], view, dig)
    ensures n > 0 && turns[n - 1].out == i ==>
      && levels[i] < |grids| && grids[levels[i]].Valid()
      && run[n].outs[i].rows == Rows(turns[n - 1].now, grids[levels[i]], view)
    decreases n
  {
    hide Faithful, Injective, Local, SourceSet.Direct, Shows, RollupChain.Reports;
    var k := n - 1;
    assert Turned(run[k], turns[k].out, levels[turns[k].out], turns[k].now, builds[k], run[n], grids, view, dig);
    if turns[k].out != i {
      RunFaithful(run, builds, turns, levels, grids, view, dig, i, k);
    } else {
      if !ModeOf(run[k].outs[i].manifest, Some(HintOf(builds[k], dig))).Full? {
        RunFaithful(run, builds, turns, levels, grids, view, dig, i, k);
      }
      TurnFaithful(run[k], i, levels[i], turns[k].now, builds[k], run[n], grids, view, dig);
    }
  }

  /** The turn reads the time of this row again. */
  ghost predicate Rereads(before: Face, hint: Hint, x: Row) {
    match ModeOf(before.manifest, Some(hint))
    case Adopt => false
    case Tail(lo) => forall from :: RewriteFrom(EntriesOf(before.manifest), lo, Some(from)) ==> from <= x.secs
    case Full => true
  }

  lemma ShowsRow(before: Face, hint: Hint, current: Source, rows: Source, x: Row)
    requires Shows(before, hint, current, rows)
    ensures rows[x] == if Rereads(before, hint, x) then current[x] else before.rows[x]
  {
    hide RewriteFrom, Splice;
    var mode := ModeOf(before.manifest, Some(hint));
    if mode.Tail? {
      var es := EntriesOf(before.manifest);
      var from :| RewriteFrom(es, mode.lo, from) && rows == Splice(before.rows, current, from);
      SpliceCounts(before.rows, current, from, x);
      forall y | RewriteFrom(es, mode.lo, Some(y))
        ensures from == Some(y)
      {
        WatermarkUnique(es, mode.lo, from, Some(y));
      }
    }
  }

  /** No turn of output `i` from `k` to `n` reads the time of row `x`. */
  ghost predicate Unread(run: seq<World>, builds: seq<LevelBuild.Built>, turns: seq<Turn>, dig: Digest, i: nat, k: nat,
                         n: nat, x: Row)
    requires n <= |builds| <= |turns| && |run| == |builds| + 1
  {
    forall q :: k <= q < n && turns[q].out == i ==>
      i < |run[q].outs| && builds[q].Built? && !Rereads(run[q].outs[i], HintOf(builds[q], dig), x)
  }

  /** What an output once shows of a row it goes on showing, however its level moves and whatever digests it
      records, until a build of it reads that time again: only a full build, or a tail whose watermark is
      at or below the row. */
  lemma {:induction false} StaysShown(run: seq<World>, builds: seq<LevelBuild.Built>, turns: seq<Turn>,
                                      levels: seq<nat>, grids: seq<Aggregate.Grid>, view: View, dig: Digest, i: nat,
                                      k: nat, n: nat, x: Row)
    requires IsRun(run, builds, turns, levels, grids, view, dig) && k <= n <= |builds| && i < |run[k].outs|
    requires Unread(run, builds, turns, dig, i, k, n, x)
    ensures i < |run[n].outs| && run[n].outs[i].rows[x] == run[k].outs[i].rows[x]
    decreases n - k
  {
    hide Rereads, Shows, SourceSet.Direct, RollupChain.Reports;
    if k < n {
      var q := n - 1;
      StaysShown(run, builds, turns, levels, grids, view, dig, i, k, q, x);
      var o := turns[q].out;
      assert Turned(run[q], o, levels[o], turns[q].now, builds[q], run[n], grids, view, dig);
      if o == i {
        ShowsRow(run[q].outs[i], HintOf(builds[q], dig), view(builds[q].output.Content()), run[n].outs[i].rows, x);
      }
    }
  }

  ghost function HeadsOf(fs: seq<ResDirectory.Files>): seq<Option<ResDirectory.Artifacts>> {
    seq(|fs|, i requires 0 <= i < |fs| => RollupChain.HeadOf(fs[i]))
  }

  lemma TurnedIs(was: seq<ResDirectory.Files>, fs: seq<ResDirectory.Files>, outs: seq<Face>, out: nat, level: nat,
                 now: SourceSet.Sources, lateness: int, b: LevelBuild.Built, face: Face, grids: seq<Aggregate.Grid>,
                 view: View, dig: Digest)
    requires out < |outs| && level < |grids| == |was| == |fs| && b.Built? && RollupChain.FilesOk(fs, grids)
    requires forall j :: level < j < |fs| ==> fs[j] == was[j]
    requires grids[level].Valid() && RollupChain.Raised(was[level], fs[level], b, now, lateness, grids[level])
    requires RollupChain.Settled(fs, level, now, lateness)
    requires face.manifest.Some? && face.manifest.value.digest == Some(dig(b.output))
    requires Shows(outs[out], HintOf(b, dig), view(b.content), face.rows)
    ensures Turned(World(HeadsOf(was), outs), out, level, now, b, World(HeadsOf(fs), outs[out := face]), grids, view,
                   dig)
  {
    hide SourceSet.Direct, ResDirectory.DiskOk, RollupChain.HeadOf, RollupChain.Current, RollupChain.Reports, Shows,
         RollupChain.FoldedFrom;
    forall j | 0 <= j <= level ensures HeadIs(HeadsOf(fs)[j], now, grids[j]) {
      assert RollupChain.LevelOk(fs[j], grids[j]) && RollupChain.Current(fs[j], now, lateness);
      RollupChain.CurrentHead(fs[j], now, lateness, grids[j]);
    }
  }

  ghost predicate Apart(outs: seq<ExportDir>) {
    forall i, j :: 0 <= i < j < |outs| ==> outs[i] != outs[j] && outs[i].store != outs[j].store
  }

  ghost function Stores(outs: seq<ExportDir>): set<PartitionTree> {
    set i | 0 <= i < |outs| :: outs[i].store
  }

  ghost predicate AllFaces(outs: seq<ExportDir>, faces: seq<Face>, parts: seq<Part>)
    reads outs, Stores(outs)
  {
    |outs| == |faces| && forall i :: 0 <= i < |outs| ==> Faces(outs[i].manifest, outs[i].store.tree, faces[i], parts)
  }

  ghost predicate Playable(turns: seq<Turn>, levels: seq<nat>, depth: nat) {
    && (forall i :: 0 <= i < |levels| ==> levels[i] < depth)
    && (forall k :: 0 <= k < |turns| ==> turns[k].out < |levels| && SourceSet.Truthful(turns[k].now))
  }

  /** The build `b` raised its levels, and the rows its output should then show cannot be listed. */
  ghost predicate Stuck(w: World, turn: Turn, levels: seq<nat>, b: LevelBuild.Built, view: View, dig: Digest,
                        parts: seq<Part>) {
    && turn.out < |levels| && turn.out < |w.outs| && levels[turn.out] < |w.heads|
    && b.Built? && RollupChain.Reports(w.heads[levels[turn.out]], b.change, b.output)
    && exists rows ::
         Shows(w.outs[turn.out], HintOf(b, dig), view(b.output.Content()), rows) && !Exportable(rows, parts)
  }

  lemma StuckIs(w: World, turn: Turn, levels: seq<nat>, b: LevelBuild.Built, was: seq<ResDirectory.Files>,
                fs: seq<ResDirectory.Files>, rows: Source, grids: seq<Aggregate.Grid>, view: View, dig: Digest,
                parts: seq<Part>)
    requires turn.out < |levels| && turn.out < |w.outs| && levels[turn.out] < |was| == |fs| == |grids|
    requires w.heads == HeadsOf(was) && b.Built? && grids[levels[turn.out]].Valid()
    requires RollupChain.Raised(was[levels[turn.out]], fs[levels[turn.out]], b, turn.now, turn.policy.lateness,
                                grids[levels[turn.out]])
    requires Shows(w.outs[turn.out], HintOf(b, dig), view(b.content), rows) && !Exportable(rows, parts)
    ensures Stuck(w, turn, levels, b, view, dig, parts)
  {
    hide RollupChain.Reports, RollupChain.HeadOf, Shows, Exportable, SourceSet.Direct;
  }

  /** The world as it is. */
  ghost predicate Mirrors(w: World, dirs: seq<ResDirectory.ResDir>, outs: seq<ExportDir>, parts: seq<Part>)
    reads dirs, outs, Stores(outs)
  {
    w.heads == HeadsOf(RollupChain.FilesOf(dirs)) && AllFaces(outs, w.outs, parts)
  }

  /** One turn of a run. */
  method PlayTurn(dirs: seq<ResDirectory.ResDir>, grids: seq<Aggregate.Grid>, outs: seq<ExportDir>, levels: seq<nat>,
                  turn: Turn, sizeOf: Aggregate.Content -> SizeTier.U64, view: View, dig: Digest, engine: Engine,
                  parts: seq<Part>, ghost w: World)
    returns (ok: bool, b: LevelBuild.Built, ghost t: World)
    requires RollupChain.Chain(dirs, grids) && RollupChain.AllOk(dirs, grids)
    requires |levels| == |outs| && Apart(outs) && Mirrors(w, dirs, outs, parts)
    requires turn.out < |levels| && levels[turn.out] < |dirs| && SourceSet.Truthful(turn.now)
    requires Injective(dig) && Local(view) && Answers(engine, parts) && (parts == [] || Nested(parts))
    modifies dirs, outs, Stores(outs)
    ensures RollupChain.AllOk(dirs, grids)
    ensures ok ==> Mirrors(t, dirs, outs, parts)
    ensures ok ==> Turned(w, turn.out, levels[turn.out], turn.now, b, t, grids, view, dig)
    ensures old(RollupChain.AllAlive(dirs)) ==>
      RollupChain.AllAlive(dirs) && (!ok ==> Stuck(w, turn, levels, b, view, dig, parts))
  {
    hide RollupChain.AllOk, RollupChain.Chain, RollupChain.Settled, RollupChain.Repeats, RollupChain.AllAlive,
         SourceSet.Direct, RollupChain.HeadOf, RollupChain.Raised, Consistent, Injective, Local, Nested, Answers,
         SourceSet.Truthful, Exportable, Shows, Turned, Stuck, HeadsOf;
    var i, level := turn.out, levels[turn.out];
    RollupChain.ChainAt(dirs, grids, level);
    var r;
    ghost var rows;
    ghost var was := RollupChain.FilesOf(dirs);
    b, r, rows := TakeTurn(dirs, grids, level, outs[i], turn.now, turn.policy, sizeOf, view, dig, engine, parts,
                           w.outs[i]);
    ok, t := r.Exported?, w;
    ghost var fs := RollupChain.FilesOf(dirs);
    if ok {
      ghost var face := Face(outs[i].manifest, rows);
      RollupChain.AllOkIs(dirs, grids);
      TurnedIs(was, fs, w.outs, i, level, turn.now, turn.policy.lateness, b, face, grids, view, dig);
      t := World(HeadsOf(fs), w.outs[i := face]);
    } else if b.Built? {
      StuckIs(w, turn, levels, b, was, fs, rows, grids, view, dig, parts);
    }
  }

  /** Build any outputs over one chain of levels, in any order and over any sources, from nothing.  The run
      is one of turns; when no process dies it stops only at a build whose rows cannot be listed. */
  method RunOutputs(dirs: seq<ResDirectory.ResDir>, grids: seq<Aggregate.Grid>, outs: seq<ExportDir>, levels: seq<nat>,
                    turns: seq<Turn>, sizeOf: Aggregate.Content -> SizeTier.U64, view: View, dig: Digest,
                    engine: Engine, parts: seq<Part>)
    returns (ghost run: seq<World>, ghost builds: seq<LevelBuild.Built>, last: LevelBuild.Built)
    requires RollupChain.Chain(dirs, grids) && RollupChain.AllOk(dirs, grids)
    requires |levels| == |outs| && Apart(outs) && Playable(turns, levels, |dirs|)
    requires Injective(dig) && Local(view) && Answers(engine, parts) && (parts == [] || Nested(parts))
    requires forall i :: 0 <= i < |outs| ==> outs[i].manifest == None
    modifies dirs, outs, Stores(outs)
    ensures IsRun(run, builds, turns, levels, grids, view, dig)
    ensures run[0].heads == old(HeadsOf(RollupChain.FilesOf(dirs)))
    ensures |builds| == |turns| ==> Mirrors(run[|turns|], dirs, outs, parts)
    ensures |builds| < |turns| && old(RollupChain.AllAlive(dirs)) ==>
      Stuck(run[|builds|], turns[|builds|], levels, last, view, dig, parts)
  {
    hide RollupChain.AllOk, RollupChain.Chain, RollupChain.AllAlive, Injective, Local, Nested, Answers, Turned, Stuck,
         HeadsOf, Apart, SourceSet.Truthful, Consistent;
    RollupChain.SameLength(dirs, grids);
    last := LevelBuild.BuildFailed;
    run, builds := [World(HeadsOf(RollupChain.FilesOf(dirs)), seq(|outs|, _ => Face(None, multiset{})))], [];
    for k := 0 to |turns|
      invariant |builds| == k && IsRun(run, builds, turns, levels, grids, view, dig)
      invariant run[0].heads == old(HeadsOf(RollupChain.FilesOf(dirs)))
      invariant Mirrors(run[k], dirs, outs, parts)
      invariant RollupChain.AllOk(dirs, grids)
      invariant old(RollupChain.AllAlive(dirs)) ==> RollupChain.AllAlive(dirs)
    {
      var ok;
      ghost var t;
      ok, last, t := PlayTurn(dirs, grids, outs, levels, turns[k], sizeOf, view, dig, engine, parts, run[k]);
      if !ok { return; }
      run, builds := run + [t], builds + [last];
    }
  }

  // ----- two outputs -----

  lemma SettledPrefix(fs: seq<ResDirectory.Files>, n: nat, k: nat, now: SourceSet.Sources, lateness: int)
    requires k <= n < |fs| && RollupChain.Settled(fs, n, now, lateness)
    ensures RollupChain.Settled(fs, k, now, lateness)
  {
    hide RollupChain.Current, RollupChain.FoldedFrom, RollupChain.HeadOf;
  }

  /** Two outputs over one chain, `x` at a level at least as coarse as that of `y`, both built from `now`. */
  method SeedTwo(dirs: seq<ResDirectory.ResDir>, grids: seq<Aggregate.Grid>, hi: nat, lo: nat, now: SourceSet.Sources,
                 policy: Rollup.Policy, sizeOf: Aggregate.Content -> SizeTier.U64, view: View, dig: Digest,
                 engine: Engine, parts: seq<Part>) returns (x: ExportDir, y: ExportDir)
    requires RollupChain.Chain(dirs, grids) && RollupChain.AllOk(dirs, grids) && RollupChain.AllAlive(dirs)
    requires lo <= hi < |dirs|
    requires SourceSet.Truthful(now) && grids[lo].Valid() && grids[hi].Valid()
    requires Injective(dig) && Local(view) && Answers(engine, parts) && (parts == [] || Nested(parts))
    requires Exportable(Rows(now, grids[lo], view), parts) && Exportable(Rows(now, grids[hi], view), parts)
    modifies dirs
    ensures fresh(x) && fresh(y) && fresh(x.store) && fresh(y.store) && x != y && x.store != y.store
    ensures RollupChain.AllOk(dirs, grids) && RollupChain.AllAlive(dirs)
    ensures x.manifest.Some? && Consistent(x.store.tree, x.manifest.value, Rows(now, grids[hi], view), parts)
    ensures HeadIs(RollupChain.HeadOf(dirs[hi].files), now, grids[hi])
    ensures Anchored(x.manifest.value, RollupChain.HeadOf(dirs[hi].files), dig)
    ensures y.manifest.Some? && Consistent(y.store.tree, y.manifest.value, Rows(now, grids[lo], view), parts)
    ensures y.manifest.value.partitions != []
  {
    hide RollupChain.AllOk, RollupChain.Chain, RollupChain.Settled, RollupChain.AllAlive, SourceSet.Direct,
         RollupChain.HeadOf, RollupChain.Current, RollupChain.Reports, Consistent, Injective, Local, Nested, Answers,
         SourceSet.Truthful, Exportable;
    x := new ExportDir();
    y := new ExportDir();
    var b, r;
    ghost var rows;
    b, r, rows := TakeTurn(dirs, grids, hi, x, now, policy, sizeOf, view, dig, engine, parts, Face(None, multiset{}));
    SettledPrefix(RollupChain.FilesOf(dirs), hi, lo, now, policy.lateness);
    ghost var head := RollupChain.HeadOf(dirs[hi].files);
    b, r, rows := TakeTurn(dirs, grids, lo, y, now, policy, sizeOf, view, dig, engine, parts, Face(None, multiset{}));
    assert RollupChain.HeadOf(dirs[hi].files) == head;
  }

  /** An anchored output moves on with its level. */
  method MoveOn(dirs: seq<ResDirectory.ResDir>, grids: seq<Aggregate.Grid>, level: nat, dir: ExportDir,
                first: SourceSet.Sources, second: SourceSet.Sources, policy: Rollup.Policy,
                sizeOf: Aggregate.Content -> SizeTier.U64, view: View, dig: Digest, engine: Engine, parts: seq<Part>)
    requires RollupChain.Chain(dirs, grids) && RollupChain.AllOk(dirs, grids) && RollupChain.AllAlive(dirs)
    requires level < |dirs|
    requires SourceSet.Truthful(second) && HeadIs(RollupChain.HeadOf(dirs[level].files), first, grids[level])
    requires Injective(dig) && Local(view) && Answers(engine, parts) && (parts == [] || Nested(parts))
    requires Exportable(Rows(second, grids[level], view), parts)
    requires dir.manifest.Some?
    requires Consistent(dir.store.tree, dir.manifest.value, Rows(first, grids[level], view), parts)
    requires Anchored(dir.manifest.value, RollupChain.HeadOf(dirs[level].files), dig)
    modifies dirs, dir, dir.store
    ensures RollupChain.AllOk(dirs, grids) && RollupChain.AllAlive(dirs)
    ensures RollupChain.Settled(RollupChain.FilesOf(dirs), level, second, policy.lateness)
    ensures dir.manifest.Some?
    ensures Consistent(dir.store.tree, dir.manifest.value, Rows(second, grids[level], view), parts)
  {
    hide RollupChain.AllOk, RollupChain.Chain, RollupChain.Settled, RollupChain.AllAlive, SourceSet.Direct,
         RollupChain.HeadOf, RollupChain.Current, RollupChain.Reports, Consistent, Injective, Local, Nested, Answers,
         SourceSet.Truthful, Exportable, Shows, Reaches, HintTruthful;
    RollupChain.SameLength(dirs, grids);
    ghost var head := RollupChain.HeadOf(dirs[level].files);
    ghost var before := Face(dir.manifest, Rows(first, grids[level], view));
    var b, r;
    ghost var rows;
    b, r, rows := TakeTurn(dirs, grids, level, dir, second, policy, sizeOf, view, dig, engine, parts, before);
    ShowsRight(before, HintOf(b, dig), view(b.content), rows);
    if !ModeOf(before.manifest, Some(HintOf(b, dig))).Full? {
      AnchoredIsTruthful(before.manifest.value.digest, head.value, head, b, view, dig);
      TruthfulReaches(before, HintOf(b, dig), view(b.content));
    } else {
      FullReaches(before, HintOf(b, dig), view(b.content));
    }
  }

  lemma FullReaches(before: Face, hint: Hint, current: Source)
    requires ModeOf(before.manifest, Some(hint)).Full?
    ensures Reaches(before, hint, current)
  {
  }

  /** Build an output `again + 1` times over levels that are settled already: it shows what it did. */
  method BuildAgain(dirs: seq<ResDirectory.ResDir>, grids: seq<Aggregate.Grid>, level: nat, dir: ExportDir,
                    now: SourceSet.Sources, again: nat, policy: Rollup.Policy,
                    sizeOf: Aggregate.Content -> SizeTier.U64, view: View, dig: Digest, engine: Engine,
                    parts: seq<Part>, ghost shown: Source)
    returns (b: LevelBuild.Built, r: Exported)
    requires RollupChain.Chain(dirs, grids) && RollupChain.AllOk(dirs, grids) && RollupChain.AllAlive(dirs)
    requires level < |dirs|
    requires SourceSet.Truthful(now) && RollupChain.Settled(RollupChain.FilesOf(dirs), level, now, policy.lateness)
    requires Injective(dig) && Local(view) && Answers(engine, parts) && (parts == [] || Nested(parts))
    requires dir.manifest.Some? && dir.manifest.value.partitions != [] && Exportable(shown, parts)
    requires Consistent(dir.store.tree, dir.manifest.value, shown, parts)
    modifies dirs, dir, dir.store
    ensures r.Exported? && b.Built? && grids[level].Valid() && b.content == SourceSet.Direct(now.Keys, grids[level])
    ensures dir.manifest.Some? && Anchored(dir.manifest.value, RollupChain.HeadOf(dirs[level].files), dig)
    ensures Consistent(dir.store.tree, dir.manifest.value, shown, parts)
  {
    hide RollupChain.AllOk, RollupChain.Chain, RollupChain.Settled, RollupChain.AllAlive, SourceSet.Direct,
         RollupChain.HeadOf, RollupChain.Current, RollupChain.Reports, Consistent, Injective, Local, Nested, Answers,
         SourceSet.Truthful, Exportable;
    RollupChain.ChainAt(dirs, grids, level);
    b, r := LevelBuild.BuildFailed, ExportFailed;
    for n := 0 to again + 1
      invariant RollupChain.AllOk(dirs, grids) && RollupChain.AllAlive(dirs)
      invariant RollupChain.Settled(RollupChain.FilesOf(dirs), level, now, policy.lateness)
      invariant dir.manifest.Some? && Consistent(dir.store.tree, dir.manifest.value, shown, parts)
      invariant dir.manifest.value.partitions != []
      invariant n > 0 ==>
        && r.Exported? && b.Built? && b.content == SourceSet.Direct(now.Keys, grids[level])
        && Anchored(dir.manifest.value, RollupChain.HeadOf(dirs[level].files), dig)
    {
      ghost var rows;
      b, r, rows := TakeTurn(dirs, grids, level, dir, now, policy, sizeOf, view, dig, engine, parts,
                             Face(dir.manifest, shown));
    }
  }

  /** Two outputs over one chain, `x` at a level at least as coarse as that of `y`, both built from `first`.
      The sources move on to `second`; `x` is built and is right, and the levels have now reported their
      change.  `y` is built next, and any number of times after that: every build succeeds, every one but
      the first starts anchored, and it still shows the old rows. */
  method TwoOutputs(dirs: seq<ResDirectory.ResDir>, grids: seq<Aggregate.Grid>, hi: nat, lo: nat,
                    first: SourceSet.Sources, second: SourceSet.Sources, again: nat, policy: Rollup.Policy,
                    sizeOf: Aggregate.Content -> SizeTier.U64, view: View, dig: Digest, engine: Engine,
                    parts: seq<Part>)
    returns (x: ExportDir, y: ExportDir, b: LevelBuild.Built, r: Exported)
    requires RollupChain.Chain(dirs, grids) && RollupChain.AllOk(dirs, grids) && RollupChain.AllAlive(dirs)
    requires lo <= hi < |dirs|
    requires SourceSet.Truthful(first) && SourceSet.Truthful(second) && grids[lo].Valid() && grids[hi].Valid()
    requires Injective(dig) && Local(view) && Answers(engine, parts) && (parts == [] || Nested(parts))
    requires Exportable(Rows(first, grids[lo], view), parts) && Exportable(Rows(first, grids[hi], view), parts)
    requires Exportable(Rows(second, grids[hi], view), parts)
    requires Rows(first, grids[lo], view) != Rows(second, grids[lo], view)
    modifies dirs
    ensures x.manifest.Some? && Partitioned(x.store.tree, Rows(second, grids[hi], view), parts)
    ensures r.Exported? && b.Built? && b.content == SourceSet.Direct(second.Keys, grids[lo])
    ensures y.manifest.Some? && Anchored(y.manifest.value, RollupChain.HeadOf(dirs[lo].files), dig)
    ensures Partitioned(y.store.tree, Rows(first, grids[lo], view), parts)
    ensures !Partitioned(y.store.tree, Rows(second, grids[lo], view), parts)
  {
    hide RollupChain.AllOk, RollupChain.Chain, RollupChain.Settled, RollupChain.AllAlive, SourceSet.Direct,
         RollupChain.HeadOf, RollupChain.Current, RollupChain.Reports, Partitioned, Describes, Injective, Local, Nested,
         Answers, SourceSet.Truthful, Exportable;
    RollupChain.SameLength(dirs, grids);
    x, y := SeedTwo(dirs, grids, hi, lo, first, policy, sizeOf, view, dig, engine, parts);
    MoveOn(dirs, grids, hi, x, first, second, policy, sizeOf, view, dig, engine, parts);
    SettledPrefix(RollupChain.FilesOf(dirs), hi, lo, second, policy.lateness);
    b, r := BuildAgain(dirs, grids, lo, y, second, again, policy, sizeOf, view, dig, engine, parts,
                       Rows(first, grids[lo], view));
    if Partitioned(y.store.tree, Rows(second, grids[lo], view), parts) {
      PartitionDeterminesSource(y.store.tree, Rows(first, grids[lo], view), Rows(second, grids[lo], view), parts);
    }
  }
}
