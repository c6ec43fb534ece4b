/**
 Coarser resolutions, chains of resolutions, and histories of builds.

 Every output file is a build of its own over shared directories: it brings each resolution
 up to its own up to date, finest first, whatever other builds did or failed to do before.
 */
module RollupChain {
  import opened Wrappers
  import opened Int64
  import opened Aggregate
  import opened SegmentCache
  import opened SourceSet
  import opened ResDirectory
  import opened Rollup
  import opened LevelBuild
  import SizeTier

  /** The more inclusive of two dirty ranges. */
  function MinChange(a: LevelChange, b: LevelChange): LevelChange {
    if a.Everything? || b.Everything? then Everything
    else if a.Nothing? then b
    else if b.Nothing? then a
    else Since(if a.lo <= b.lo then a.lo else b.lo)
  }

  function AlignChange(a: LevelChange, g: Grid): LevelChange
    requires g.Valid()
  {
    if a.Since? then Since(g.Floor(a.lo)) else a
  }

  function SourceChange(before: Sources, now: Sources, lo: Option<int>, g: Grid): LevelChange
    requires g.Valid()
  {
    if before == now then Nothing
    else if lo.Some? then Since(g.Bucket(lo.value))
    else Everything
  }

  /** The change reaches the bucket. */
  ghost predicate Touches(c: LevelChange, b: int) {
    match c
    case Nothing => false
    case Since(lo) => lo <= b
    case Everything => true
  }

  /** The combined change reaches exactly what either does. */
  lemma MinChangeMeans(a: LevelChange, b: LevelChange, x: int)
    ensures Touches(MinChange(a, b), x) <==> Touches(a, x) || Touches(b, x)
  {
  }

  /** The aligned change reaches exactly the windows in which the change reaches a point. */
  lemma AlignChangeMeans(a: LevelChange, g: Grid, b: int)
    requires g.Valid() && (b - g.origin) % g.width == 0
    ensures Touches(AlignChange(a, g), b) <==> exists x :: b <= x < b + g.width && Touches(a, x)
  {
    if a.Since? {
      var f := g.Floor(a.lo);
      FloorMeans(a.lo, g, f);
      AlignedApart(f, b, g);
      if f <= b { assert Touches(a, b + g.width - 1); }
    } else {
      assert Touches(a, b) <==> a.Everything?;
    }
  }

  /** Window starts are at least a width apart. */
  lemma AlignedApart(a: int, b: int, g: Grid)
    requires g.Valid() && (a - g.origin) % g.width == 0 && (b - g.origin) % g.width == 0
    ensures a > b ==> a >= b + g.width
  {
    var w, p, q := g.width, (a - g.origin) / g.width, (b - g.origin) / g.width;
    assert a - g.origin == p * w && b - g.origin == q * w;
    if p > q { MulLe(q + 1, p, w); } else { MulLe(p, q, w); }
  }

  /** The change of the sources reaches exactly the windows in or before which a changed version begins. */
  lemma SourceChangeMeans(before: Sources, now: Sources, lo: Option<int>, g: Grid, b: int)
    requires g.Valid() && Truthful(before) && Truthful(now) && before != now && IsDirtyLo(before, now, lo)
    requires (b - g.origin) % g.width == 0 && (b + g.width) * g.tick > I64_MIN
    ensures Touches(SourceChange(before, now, lo, g), b) <==>
      exists v :: v in before.Keys + now.Keys && Noted(before, now, v)
        && NotedMin(before, now, v) < (b + g.width) * g.tick
  {
    hide Truthful;
    if lo.Some? {
      var f := g.Bucket(lo.value);
      FloorMeans(lo.value / g.tick, g, f);
      AlignedApart(f, b, g);
      TickMeans(lo.value, g.tick, b + g.width);
      assert f <= b <==> lo.value < (b + g.width) * g.tick;
    }
  }

  lemma AgreeLower(a: Content, b: Content, hi: int, lo: int)
    requires AgreeBelow(a, b, hi) && lo <= hi
    ensures AgreeBelow(a, b, lo)
  {
  }

  /** Honouring the source difference is enough, however much more the finer level reports. */
  lemma CoarseTransfers(files: Files, m: Manifest, before: Sources, now: Sources, lo: Option<int>,
                        finer: LevelChange, dirty: LevelChange, g: Grid)
    requires g.Valid() && Truthful(before) && Truthful(now) && IsDirtyLo(before, now, lo)
    requires Working(files, m, Direct(before.Keys, g), g)
    requires dirty == MinChange(finer, SourceChange(before, now, lo, g))
    requires dirty.Since? ==> m.sealedHi.Some? ==> m.sealedHi.value <= dirty.lo
    requires dirty.Everything? ==> m.sealedHi.None?
    ensures Working(files, m, Direct(now.Keys, g), g)
    ensures dirty.Nothing? ==> before == now
    ensures dirty.Since? ==> AgreeBelow(Direct(before.Keys, g), Direct(now.Keys, g), dirty.lo)
  {
    hide ManifestOk, Direct;
    if before != now && dirty.Since? {
      UnreachedBuckets(before, now, g, lo.value);
      AgreeLower(Direct(before.Keys, g), Direct(now.Keys, g), g.Bucket(lo.value), dirty.lo);
    }
    if dirty.Since? {
      SealedTransfers(m.segments, m.sealedHi, dirty.lo, Direct(before.Keys, g), Direct(now.Keys, g));
    } else if dirty.Everything? {
      AllClean(m.segments, m.sealedHi, None);
    }
  }

  lemma FinerIsEnough(finer: Artifacts, now: Sources, fine: Grid, g: Grid)
    requires Refines(fine, g) && finer.Content() == Direct(now.Keys, fine)
    ensures RollUp(finer.Content(), g) == Direct(now.Keys, g)
  {
    hide AllRows, RollUp, Reduce;
    RollUpIsReduce(AllRows(now.Keys), fine, g);
  }

  lemma Readopt(m: Manifest, now: Sources, g: Grid)
    requires g.Valid() && ManifestOk(m, g) && Truthful(now) && Direct(now.Keys, g) == Direct(m.sources.Keys, g)
    ensures ManifestOk(m.(sources := now), g)
  {
    hide Direct, Sealed;
  }

  /** What a coarser build takes to have changed. */
  function CoarseChange(before: Sources, now: Sources, lo: Option<int>, finerChanged: LevelChange, g: Grid): LevelChange
    requires g.Valid()
  {
    MinChange(AlignChange(finerChanged, g), SourceChange(before, now, lo, g))
  }

  /** The members an advance over this change relies on are there. */
  ghost predicate Reachable(files: Files, segs: seq<Segment>, change: LevelChange) {
    match change
    case Nothing => Present(files, segs)
    case Since(lo) => Needed(files, segs, Some(lo))
    case Everything => Needed(files, segs, None)
  }

  /** The members the coarser build will have to read are there. */
  ghost predicate CoarseHealthy(files: Files, finer: Artifacts, finerRebuilt: bool, finerChanged: LevelChange,
                                now: Sources, lateness: int, g: Grid)
    requires g.Valid()
  {
    match Usable(files, lateness)
    case None => true
    case Some(m) =>
      if finerRebuilt then true
      else if m.sourceDigest == Some(finer) then Present(files, m.segments) && Hot in files
      else forall lo :: IsDirtyLo(m.sources, now, lo) ==>
        Reachable(files, m.segments, CoarseChange(m.sources, now, lo, finerChanged, g))
  }

  lemma CoarseHealthyIs(files: Files, m: Manifest, finer: Artifacts, finerChanged: LevelChange, now: Sources,
                        lateness: int, lo: Option<int>, g: Grid)
    requires g.Valid() && Usable(files, lateness) == Some(m) && m.sourceDigest != Some(finer)
    requires Truthful(m.sources) && Truthful(now) && IsDirtyLo(m.sources, now, lo)
    ensures CoarseHealthy(files, finer, false, finerChanged, now, lateness, g)
       <==> Reachable(files, m.segments, CoarseChange(m.sources, now, lo, finerChanged, g))
  {
    hide Reachable, IsDirtyLo;
    if m.sources != now {
      forall x | IsDirtyLo(m.sources, now, x) ensures x == lo { DirtyLoUnique(m.sources, now, lo, x); }
    }
  }

  /** Make hot again what a change reaches, if there is one. */
  method Reopen(dir: ResDir, m0: Manifest, change: LevelChange, g: Grid, sizeOf: Content -> SizeTier.U64,
                ghost before: Content)
    returns (o: Outcome, m: Manifest, stale: seq<nat>)
    requires g.Valid() && Working(dir.files, m0, before, g)
    modifies dir
    ensures DiskOk(dir.files, g)
    ensures o.Failed? ==> !Reachable(old(dir.files), m0.segments, change)
    ensures o.Done? ==> Working(dir.files, m, before, g) && Discarded(stale, m.segments, m.nextSeq)
    ensures o.Done? ==> (Present(dir.files, m.segments) <==> Reachable(old(dir.files), m0.segments, change))
    ensures o.Done? && change.Since? ==> (m.sealedHi.Some? ==> m.sealedHi.value <= change.lo)
    ensures o.Done? && change.Everything? ==> m.sealedHi.None?
    ensures m.format == m0.format && m.lateness == m0.lateness
    ensures o.Done? ==> Accounted(m0.segments, m.segments, stale) && Spent(m0.nextSeq, m.nextSeq, m.segments, stale)
    ensures o.Done? ==> Adds(old(dir.files), dir.files, m0.nextSeq, m.nextSeq)
    ensures o.Done? && change.Since? ==> KeepsSealed(m0.sealedHi, m.sealedHi, Some(change.lo), before)
    ensures o.Done? && change.Nothing? ==> m == m0
    ensures old(dir.budget).None? ==> !o.Crashed? && dir.budget.None?
  {
    hide ManifestOk, Sealed, Needed, Present, Accounted, Spent, Adds, KeepsSealed;
    if change.Nothing? {
      AccountedSame(m0.segments, m0.nextSeq, []);
      AddsNothing(dir.files, m0.nextSeq);
      return Done, m0, [];
    }
    o, m, stale := Unseal(dir, m0, if change.Since? then Some(change.lo) else None, g, sizeOf, before);
  }

  /** What reopening a coarser level leaves: the exact change, nothing sealed below it given up, and every name
      accounted for. */
  ghost predicate CoarseOpened(was: Files, prior: Manifest, files: Files, m: Manifest, stale: seq<nat>,
                               change: LevelChange, finerChanged: LevelChange, now: Sources, g: Grid)
    requires g.Valid()
  {
    && IsCoarseChange(prior.sources, now, finerChanged, change, g)
    && (change.Since? ==> KeepsSealed(prior.sealedHi, m.sealedHi, Some(change.lo), Direct(prior.sources.Keys, g)))
    && Accounted(prior.segments, m.segments, stale) && Spent(prior.nextSeq, m.nextSeq, m.segments, stale)
    && Adds(was, files, prior.nextSeq, m.nextSeq)
  }

  ghost predicate IsCoarseChange(before: Sources, now: Sources, finerChanged: LevelChange, change: LevelChange, g: Grid)
    requires g.Valid()
  {
    forall lo :: IsDirtyLo(before, now, lo) ==> change == CoarseChange(before, now, lo, finerChanged, g)
  }

  lemma CoarseChangeIs(before: Sources, now: Sources, finerChanged: LevelChange, change: LevelChange, lo: Option<int>,
                       g: Grid)
    requires g.Valid() && Truthful(before) && Truthful(now) && IsDirtyLo(before, now, lo)
    requires change == CoarseChange(before, now, lo, finerChanged, g)
    ensures IsCoarseChange(before, now, finerChanged, change, g)
  {
    hide IsDirtyLo;
    if before != now {
      forall x | IsDirtyLo(before, now, x) ensures x == lo { DirtyLoUnique(before, now, lo, x); }
    }
  }

  /** Bring the directory to where the coarser build can fold: reopened where the change reaches, or wiped. */
  method Prepare(dir: ResDir, g: Grid, finer: Artifacts, finerRebuilt: bool, finerChanged: LevelChange, now: Sources,
                 policy: Policy, sizeOf: Content -> SizeTier.U64)
    returns (o: Outcome, m: Manifest, stale: seq<nat>, change: LevelChange)
    requires g.Valid() && Truthful(now) && DiskOk(dir.files, g)
    requires !Folded(Usable(dir.files, policy.lateness), finer, finerRebuilt)
    modifies dir
    ensures DiskOk(dir.files, g)
    ensures o.Failed? ==> !CoarseHealthy(old(dir.files), finer, finerRebuilt, finerChanged, now, policy.lateness, g)
    ensures o.Done? ==> Working(dir.files, m, Direct(now.Keys, g), g) && Discarded(stale, m.segments, m.nextSeq)
    ensures o.Done? ==> m.format == SEALED_FORMAT && m.lateness == policy.lateness
    ensures o.Done? ==> (Present(dir.files, m.segments)
      <==> CoarseHealthy(old(dir.files), finer, finerRebuilt, finerChanged, now, policy.lateness, g))
    ensures o.Done? ==> ChangeTruthful(Usable(old(dir.files), policy.lateness), change, now, g)
    ensures o.Done? ==>
      var prior := Usable(old(dir.files), policy.lateness);
      if finerRebuilt || prior.None?
      then dir.files == map[] && m == FreshManifest(policy) && stale == [] && change == Everything
      else CoarseOpened(old(dir.files), prior.value, dir.files, m, stale, change, finerChanged, now, g)
    ensures old(dir.budget).None? ==> !o.Crashed? && dir.budget.None?
  {
    hide ManifestOk, Direct, Sealed, IsDirtyLo, Present, Backed, Named, Recorded, Truthful, AgreeBelow, Reachable,
         Accounted, Spent, Adds, KeepsSealed, IsCoarseChange, MinChange, Layout, NextFresh;
    var prior := Usable(dir.files, policy.lateness);
    m, stale, change := FreshManifest(policy), [], Everything;
    if !finerRebuilt && prior.Some? {
      var lo := DirtyLoUs(prior.value.sources, now);
      change := CoarseChange(prior.value.sources, now, lo, finerChanged, g);
      ManifestWorks(dir.files, prior.value, g);
      CoarseHealthyIs(dir.files, prior.value, finer, finerChanged, now, policy.lateness, lo, g);
      CoarseChangeIs(prior.value.sources, now, finerChanged, change, lo, g);
      o, m, stale := Reopen(dir, prior.value, change, g, sizeOf, Direct(prior.value.sources.Keys, g));
      if o.Done? {
        CoarseTransfers(dir.files, m, prior.value.sources, now, lo, AlignChange(finerChanged, g), change, g);
      }
    } else {
      var alive := dir.Wipe();
      DiskFewer(old(dir.files), dir.files, g);
      FreshWork(g, Direct(now.Keys, g), policy);
      o := if alive then Done else Crashed;
    }
  }

  /** The level was folded from this very output. */
  predicate Folded(prior: Option<Manifest>, finer: Artifacts, finerRebuilt: bool) {
    !finerRebuilt && prior.Some? && prior.value.sourceDigest == Some(finer)
  }

  /** What a finished coarser build reports and leaves, by the manifest it started from. */
  ghost predicate CoarseFollows(was: Files, prior: Option<Manifest>, files: Files, m: Manifest, r: Built,
                                finer: Artifacts, finerRebuilt: bool, finerChanged: LevelChange, now: Sources,
                                policy: Policy, g: Grid, sizeOf: Content -> SizeTier.U64)
    requires g.Valid() && r.Built?
  {
    if finerRebuilt || prior.None? then
      && r.change == Everything && r.rebuilt && Grew(FreshManifest(policy), m, Direct(now.Keys, g), policy, g, sizeOf)
      && Clears(map[], [], [], files, m.segments)
    else
      && !r.rebuilt && Clears(was, prior.value.segments, [], files, m.segments)
      && if prior.value.sourceDigest == Some(finer) then r.change == Nothing && m.segments == prior.value.segments
         else IsCoarseChange(prior.value.sources, now, finerChanged, r.change, g)
  }

  lemma CoarseFollowsBuilt(was: Files, prior: Option<Manifest>, mid: Files, m: Manifest, stale: seq<nat>, files: Files,
                           out: Manifest, full: Content, s: Manifest, trail: seq<seq<Segment>>, r: Built,
                           finer: Artifacts, finerRebuilt: bool, finerChanged: LevelChange, now: Sources,
                           policy: Policy, g: Grid, sizeOf: Content -> SizeTier.U64)
    requires g.Valid() && r.Built? && r.rebuilt == (finerRebuilt || prior.None?) && !Folded(prior, finer, finerRebuilt)
    requires Grown(m, s, trail, out, full, policy, g, sizeOf) && AgreeFrom(full, Direct(now.Keys, g), m.sealedHi)
    requires Clears(mid, m.segments, stale, files, out.segments)
    requires if finerRebuilt || prior.None?
             then mid == map[] && m == FreshManifest(policy) && stale == [] && r.change == Everything
             else CoarseOpened(was, prior.value, mid, m, stale, r.change, finerChanged, now, g)
    ensures CoarseFollows(was, prior, files, out, r, finer, finerRebuilt, finerChanged, now, policy, g, sizeOf)
  {
    hide Grown, AgreeFrom, Direct, IsCoarseChange, KeepsSealed;
    assert Grew(m, out, Direct(now.Keys, g), policy, g, sizeOf);
    if !finerRebuilt && prior.Some? {
      hide Grew;
      OpenedClears(was, prior.value, mid, m, stale, files, out.segments);
    }
  }

  lemma CoarseFollowsSame(was: Files, files: Files, prior: Manifest, m: Manifest, r: Built, finer: Artifacts,
                          finerChanged: LevelChange, now: Sources, policy: Policy, g: Grid,
                          sizeOf: Content -> SizeTier.U64)
    requires g.Valid() && r.Built? && r.change == Nothing && !r.rebuilt && prior.sourceDigest == Some(finer)
    requires m.segments == prior.segments && forall n: nat :: Seg(n) in files ==> Seg(n) in was
    ensures CoarseFollows(was, Some(prior), files, m, r, finer, false, finerChanged, now, policy, g, sizeOf)
  {
    hide Grew, Direct, IsCoarseChange;
  }

  /** Build a coarser resolution by folding the next finer one. */
  method BuildFromFiner(dir: ResDir, g: Grid, fine: Grid, finer: Artifacts, finerContent: Content,
                        finerRebuilt: bool, finerChanged: LevelChange, now: Sources, policy: Policy,
                        sizeOf: Content -> SizeTier.U64) returns (r: Built)
    requires SecondGrid(g) && Refines(fine, g) && Truthful(now) && DiskOk(dir.files, g)
    requires finer.Content() == finerContent == Direct(now.Keys, fine)
    modifies dir
    ensures DiskOk(dir.files, g)
    ensures r.Built? ==> Delivers(dir.files, r, now, policy.lateness, g)
    ensures r.Built? ==> Usable(dir.files, policy.lateness).value.sourceDigest == Some(finer)
    ensures r.Built? ==> ChangeTruthful(Usable(old(dir.files), policy.lateness), r.change, now, g)
    ensures r.Built? ==> CoarseFollows(old(dir.files), Usable(old(dir.files), policy.lateness), dir.files,
                                       Usable(dir.files, policy.lateness).value, r, finer, finerRebuilt, finerChanged,
                                       now, policy, g, sizeOf)
    ensures r.Built? && Folded(Usable(old(dir.files), policy.lateness), finer, finerRebuilt) ==>
      r.change == Nothing && !r.rebuilt && r.output == Usable(old(dir.files), policy.lateness).value.Output()
    ensures !r.BuildCrashed? ==>
      (r.Built? <==> CoarseHealthy(old(dir.files), finer, finerRebuilt, finerChanged, now, policy.lateness, g))
    ensures r.Built? ==> Complete(dir.files)
    ensures old(dir.budget).None? ==> !r.BuildCrashed? && dir.budget.None?
  {
    hide ManifestOk, Direct, Sealed, ReadAll, IsDirtyLo, Present, Backed, Named, Recorded, Discarded,
         Slice, Truthful, AgreeBelow, RollUp, Reachable, ChangeTruthful, Working, CoarseFollows, CoarseOpened, Grown,
         Clears, AgreeFrom;
    FinerIsEnough(finer, now, fine, g);
    ghost var prior, was := Usable(dir.files, policy.lateness), dir.files;
    var rebuilt := finerRebuilt || Usable(dir.files, policy.lateness).None?;
    if Folded(Usable(dir.files, policy.lateness), finer, finerRebuilt) {
      r := ReuseCoarse(dir, g, finer, now, policy, Usable(dir.files, policy.lateness).value);
      NothingTruthful(prior, now, g);
      if r.Built? {
        CoarseFollowsSame(was, dir.files, prior.value, Usable(dir.files, policy.lateness).value, r, finer, finerChanged,
                          now, policy, g, sizeOf);
      }
      return;
    }
    var o, m, stale, change := Prepare(dir, g, finer, finerRebuilt, finerChanged, now, policy, sizeOf);
    if o.Failed? { return BuildFailed; }
    if o.Crashed? { return BuildCrashed; }
    ghost var mid := dir.files;
    var full := FoldTo(finerContent, g);
    AgreeSame(full, m.sealedHi);
    var out, content;
    ghost var sealed, trail;
    o, out, content, sealed, trail := Advance(dir, m, full, policy, g, sizeOf, now, Some(finer), stale,
                                              Direct(now.Keys, g));
    if o.Failed? { return BuildFailed; }
    if o.Crashed? { return BuildCrashed; }
    OutputContent(out, g);
    r := Built(content, out.Output(), change, rebuilt);
    CoarseFollowsBuilt(was, prior, mid, m, stale, dir.files, out, full, sealed, trail, r, finer, finerRebuilt,
                       finerChanged,
                       now, policy, g, sizeOf);
  }

  lemma AgreeSame(full: Content, lo: Option<int>)
    ensures AgreeFrom(full, full, lo)
  {
  }

  lemma NothingTruthful(prior: Option<Manifest>, now: Sources, g: Grid)
    requires g.Valid() && prior.Some? && Direct(prior.value.sources.Keys, g) == Direct(now.Keys, g)
    ensures ChangeTruthful(prior, Nothing, now, g)
  {
  }

  /** The finer output is what this level was folded from, so only the bookkeeping is renewed. */
  method ReuseCoarse(dir: ResDir, g: Grid, finer: Artifacts, now: Sources, policy: Policy, m0: Manifest)
    returns (r: Built)
    requires g.Valid() && Truthful(now) && DiskOk(dir.files, g)
    requires Usable(dir.files, policy.lateness) == Some(m0) && m0.sourceDigest == Some(finer)
    requires RollUp(finer.Content(), g) == Direct(now.Keys, g)
    modifies dir
    ensures DiskOk(dir.files, g)
    ensures r.Built? ==> Delivers(dir.files, r, now, policy.lateness, g)
    ensures r.Built? ==> Usable(dir.files, policy.lateness).value.sourceDigest == Some(finer)
    ensures r.Built? ==> r.change == Nothing && !r.rebuilt && r.output == m0.Output()
    ensures Direct(m0.sources.Keys, g) == Direct(now.Keys, g)
    ensures r.Built? ==> Usable(dir.files, policy.lateness).value.segments == m0.segments
    ensures forall n: nat :: Seg(n) in dir.files ==> Seg(n) in old(dir.files)
    ensures !r.BuildCrashed? ==> (r.Built? <==> Present(old(dir.files), m0.segments) && Hot in old(dir.files))
    ensures r.Built? ==> Complete(dir.files)
    ensures old(dir.budget).None? ==> !r.BuildCrashed? && dir.budget.None?
  {
    hide Direct, Sealed, ReadAll, RollUp;
    var m := m0.(sources := now);
    assert ManifestOk(m0, g);
    Readopt(m0, now, g);
    if m0.sources != now {
      var alive := dir.WriteAtomic(ManifestFile, Json(m));
      if !alive {
        DiskFrame(old(dir.files), dir.files, Tmp(ManifestFile), g);
        return BuildCrashed;
      }
      DiskPublish(old(dir.files), dir.files, m, g);
      SegsFrame(old(dir.files), dir.files, ManifestFile, m.segments);
    }
    var list := dir.ListMembers(m);
    if list.Err? { return BuildFailed; }
    ManifestServes(m, g);
    OutputContent(m, g);
    return Built(ReadAll(list.value), m.Output(), Nothing, false);
  }

  // ----- chains and histories -----

  /** Nested resolutions, finest first, one directory each. */
  ghost predicate Chain(dirs: seq<ResDir>, grids: seq<Grid>) {
    && |dirs| == |grids|
    && (forall i, j :: 0 <= i < j < |dirs| ==> dirs[i] != dirs[j])
    && (forall i :: 0 <= i < |grids| ==> SecondGrid(grids[i]))
    && (forall i, j :: 0 <= i < |grids| && j == i + 1 && j < |grids| ==> Refines(grids[i], grids[j]))
  }

  /** The contents of the directories. */
  ghost function FilesOf(dirs: seq<ResDir>): seq<Files>
    reads dirs
  {
    seq(|dirs|, i requires 0 <= i < |dirs| reads dirs => dirs[i].files)
  }

  ghost predicate LevelOk(files: Files, g: Grid) {
    g.Valid() && DiskOk(files, g)
  }

  ghost predicate FilesOk(fs: seq<Files>, grids: seq<Grid>)
    requires |fs| == |grids|
  {
    forall i :: 0 <= i < |fs| ==> LevelOk(fs[i], grids[i])
  }

  ghost predicate AllOk(dirs: seq<ResDir>, grids: seq<Grid>)
    requires |dirs| == |grids|
    reads dirs
  {
    FilesOk(FilesOf(dirs), grids)
  }

  /** No level has lost a file. */
  ghost predicate AllWhole(dirs: seq<ResDir>)
    reads dirs
  {
    forall i :: 0 <= i < |dirs| ==> Whole(dirs[i].files)
  }

  /** And no process dies. */
  ghost predicate AllAlive(dirs: seq<ResDir>)
    reads dirs
  {
    forall i :: 0 <= i < |dirs| ==> Alive(dirs[i])
  }

  ghost predicate Alive(dir: ResDir)
    reads dir
  {
    dir.budget.None? && Whole(dir.files)
  }

  lemma WholeIsCoarseHealthy(files: Files, finer: Artifacts, finerRebuilt: bool, finerChanged: LevelChange,
                             now: Sources, lateness: int, g: Grid)
    requires g.Valid() && Whole(files)
    ensures CoarseHealthy(files, finer, finerRebuilt, finerChanged, now, lateness, g)
  {
    hide IsDirtyLo;
  }

  /** The output a level has published. */
  function HeadOf(files: Files): Option<Artifacts> {
    if ManifestFile in files && files[ManifestFile].Json? then Some(files[ManifestFile].manifest.Output()) else None
  }

  /** The change is true of the output the level had published before. */
  ghost predicate Reports(was: Option<Artifacts>, change: LevelChange, now: Artifacts) {
    match change
    case Nothing => was.Some? && was.value.Content() == now.Content()
    case Since(lo) => was.Some? && AgreeBelow(was.value.Content(), now.Content(), lo)
    case Everything => true
  }

  lemma TruthfulReports(files: Files, change: LevelChange, out: Artifacts, now: Sources, lateness: int, g: Grid)
    requires g.Valid() && DiskOk(files, g) && out.Content() == Direct(now.Keys, g)
    requires ChangeTruthful(Usable(files, lateness), change, now, g)
    ensures Reports(HeadOf(files), change, out)
  {
    hide ManifestOk, Direct, AgreeBelow;
    var m := Usable(files, lateness);
    if m.Some? { OutputContent(m.value, g); }
  }

  /** The level has published these sources, for this lateness. */
  ghost predicate Current(files: Files, now: Sources, lateness: int) {
    UpToDate(Usable(files, lateness), now)
  }

  /** The levels `0..n` have published these sources, each coarser one folded from the output below it. */
  ghost predicate Settled(fs: seq<Files>, n: nat, now: Sources, lateness: int)
    requires n < |fs|
  {
    && (forall i :: 0 <= i <= n ==> Current(fs[i], now, lateness))
    && (forall i, j :: 0 <= i < n && j == i + 1 ==> FoldedFrom(fs[j], HeadOf(fs[i]), lateness))
  }

  ghost predicate FoldedFrom(coarse: Files, below: Option<Artifacts>, lateness: int) {
    below.Some? && Folded(Usable(coarse, lateness), below.value, false)
  }

  lemma CurrentHead(files: Files, now: Sources, lateness: int, g: Grid)
    requires g.Valid() && DiskOk(files, g) && Current(files, now, lateness)
    ensures HeadOf(files) == Some(Usable(files, lateness).value.Output())
    ensures HeadOf(files).value.Content() == Direct(now.Keys, g)
  {
    hide ManifestOk, Direct;
    OutputContent(Usable(files, lateness).value, g);
  }

  /** What building one level for a chain does to it. */
  ghost predicate Raised(was: Files, files: Files, r: Built, now: Sources, lateness: int, g: Grid)
    requires g.Valid()
  {
    r.Built? ==>
      && r.content == r.output.Content() == Direct(now.Keys, g)
      && HeadOf(files) == Some(r.output) && Current(files, now, lateness)
      && Reports(HeadOf(was), r.change, r.output)
  }

  /** The level had this output before, and the build says so. */
  ghost predicate Repeats(was: Files, r: Built) {
    r.Built? ==> r.change == Nothing && !r.rebuilt && HeadOf(was) == Some(r.output)
  }

  method BuildFinest(dir: ResDir, g: Grid, now: Sources, policy: Policy, sizeOf: Content -> SizeTier.U64)
    returns (r: Built)
    requires SecondGrid(g) && DiskOk(dir.files, g) && Truthful(now)
    modifies dir
    ensures DiskOk(dir.files, g) && Raised(old(dir.files), dir.files, r, now, policy.lateness, g)
    ensures old(Current(dir.files, now, policy.lateness)) ==> Repeats(old(dir.files), r)
    ensures old(Alive(dir)) ==> Alive(dir) && r.Built?
  {
    hide DiskOk, Direct, ChangeTruthful, Reports, Healthy, Complete, Usable, HeadOf;
    if Alive(dir) { WholeIsHealthy(dir.files, now, policy.lateness, g); }
    r := BuildFromSource(dir, g, now, policy, sizeOf);
    if r.Built? {
      TruthfulReports(old(dir.files), r.change, r.output, now, policy.lateness, g);
      CurrentHead(dir.files, now, policy.lateness, g);
    }
  }

  /** One step of the chain: fold the level just built into the next. */
  method BuildCoarser(dir: ResDir, g: Grid, fine: Grid, finer: Built, now: Sources, policy: Policy,
                      sizeOf: Content -> SizeTier.U64) returns (r: Built)
    requires SecondGrid(g) && Refines(fine, g) && DiskOk(dir.files, g) && Truthful(now)
    requires finer.Built? && finer.content == finer.output.Content() == Direct(now.Keys, fine)
    modifies dir
    ensures DiskOk(dir.files, g) && Raised(old(dir.files), dir.files, r, now, policy.lateness, g)
    ensures r.Built? ==> FoldedFrom(dir.files, Some(finer.output), policy.lateness)
    ensures !finer.rebuilt && old(FoldedFrom(dir.files, Some(finer.output), policy.lateness)) ==>
      Repeats(old(dir.files), r)
    ensures old(Alive(dir)) ==> Alive(dir) && r.Built?
  {
    hide DiskOk, Direct, RollUp, ChangeTruthful, Reports, CoarseHealthy, Complete, Usable, HeadOf, Truthful;
    if Alive(dir) {
      WholeIsCoarseHealthy(dir.files, finer.output, finer.rebuilt, finer.change, now, policy.lateness, g);
    }
    if Usable(dir.files, policy.lateness).Some? { UsableHead(dir.files, policy.lateness); }
    r := BuildFromFiner(dir, g, fine, finer.output, finer.content, finer.rebuilt, finer.change, now, policy, sizeOf);
    if r.Built? {
      TruthfulReports(old(dir.files), r.change, r.output, now, policy.lateness, g);
      CurrentHead(dir.files, now, policy.lateness, g);
    }
  }

  /** Where a chain build stands after level `i`, having started from `was`. */
  ghost predicate Reached(was: seq<Files>, fs: seq<Files>, i: nat, upTo: nat, r: Built, now: Sources, lateness: int,
                          grids: seq<Grid>)
    requires i <= upTo < |grids| == |was| == |fs|
  {
    && FilesOk(fs, grids)
    && (forall j :: i < j < |fs| ==> fs[j] == was[j])
    && Raised(was[i], fs[i], r, now, lateness, grids[i])
    && (r.Built? ==> Settled(fs, i, now, lateness))
    && (Settled(was, upTo, now, lateness) ==> Repeats(was[i], r))
  }

  lemma ReachedFinest(was: seq<Files>, now: Sources, upTo: nat, f: Files, r: Built, lateness: int, grids: seq<Grid>)
    requires upTo < |grids| == |was| && FilesOk(was, grids) && LevelOk(f, grids[0])
    requires Raised(was[0], f, r, now, lateness, grids[0])
    requires Current(was[0], now, lateness) ==> Repeats(was[0], r)
    ensures Reached(was, was[0 := f], 0, upTo, r, now, lateness, grids)
  {
    hide LevelOk, Current, FoldedFrom, HeadOf, Reports, Repeats, Direct;
  }

  lemma ReachedNext(was: seq<Files>, fs: seq<Files>, i: nat, upTo: nat, finer: Built, now: Sources, f: Files, r: Built,
                    lateness: int, grids: seq<Grid>)
    requires i < upTo < |grids| == |was| == |fs| && Reached(was, fs, i, upTo, finer, now, lateness, grids)
    requires finer.Built?
    requires LevelOk(f, grids[i + 1]) && Raised(was[i + 1], f, r, now, lateness, grids[i + 1])
    requires r.Built? ==> FoldedFrom(f, Some(finer.output), lateness)
    requires !finer.rebuilt && FoldedFrom(was[i + 1], Some(finer.output), lateness) ==> Repeats(was[i + 1], r)
    ensures Reached(was, fs[i + 1 := f], i + 1, upTo, r, now, lateness, grids)
  {
    hide LevelOk, Current, FoldedFrom, HeadOf, Reports, Direct;
    var out := fs[i + 1 := f];
    if r.Built? {
      forall k, j | 0 <= k < i + 1 && j == k + 1 ensures FoldedFrom(out[j], HeadOf(out[k]), lateness) {
        if k < i { assert FoldedFrom(fs[j], HeadOf(fs[k]), lateness); }
      }
    }
    if Settled(was, upTo, now, lateness) {
      assert FoldedFrom(was[i + 1], HeadOf(was[i]), lateness);
    }
  }

  lemma ReachedFailed(was: seq<Files>, fs: seq<Files>, i: nat, upTo: nat, r: Built, now: Sources, lateness: int,
                      grids: seq<Grid>)
    requires i < upTo < |grids| == |was| == |fs| && Reached(was, fs, i, upTo, r, now, lateness, grids) && !r.Built?
    ensures Reached(was, fs, i + 1, upTo, r, now, lateness, grids)
  {
    hide Current, FoldedFrom, HeadOf, Reports, Direct, DiskOk;
    assert LevelOk(fs[i + 1], grids[i + 1]);
  }

  /** Bring the levels `0..upTo` up to date, finest first, for one output file.  The change reported for the
      last of them is true of what that level had published; when the levels are settled on the same
      sources already it is `Nothing`, at every resolution. */
  method BuildChain(dirs: seq<ResDir>, grids: seq<Grid>, upTo: nat, now: Sources, policy: Policy,
                    sizeOf: Content -> SizeTier.U64) returns (r: Built)
    requires Chain(dirs, grids) && AllOk(dirs, grids) && upTo < |dirs| && Truthful(now)
    modifies dirs
    ensures AllOk(dirs, grids)
    ensures forall j :: upTo < j < |dirs| ==> dirs[j].files == old(dirs[j].files)
    ensures Raised(old(dirs[upTo].files), dirs[upTo].files, r, now, policy.lateness, grids[upTo])
    ensures r.Built? ==> Settled(FilesOf(dirs), upTo, now, policy.lateness)
    ensures old(Settled(FilesOf(dirs), upTo, now, policy.lateness)) ==> Repeats(old(dirs[upTo].files), r)
    ensures old(AllAlive(dirs)) ==> AllAlive(dirs) && r.Built?
  {
    hide DiskOk, Raised, Repeats, Whole, HeadOf, Current, FoldedFrom, Truthful, Refines, SecondGrid, Chain, FilesOk,
         Settled;
    ChainAt(dirs, grids, 0);
    ghost var was := FilesOf(dirs);
    OkAt(was, grids, 0);
    r := BuildFinest(dirs[0], grids[0], now, policy, sizeOf);
    ReachedFinest(was, now, upTo, dirs[0].files, r, policy.lateness, grids);
    assert FilesOf(dirs) == was[0 := dirs[0].files];
    for i := 0 to upTo
      invariant Reached(was, FilesOf(dirs), i, upTo, r, now, policy.lateness, grids)
      invariant old(AllAlive(dirs)) ==> AllAlive(dirs) && r.Built?
    {
      ChainAt(dirs, grids, i + 1);
      ghost var fs, finer := FilesOf(dirs), r;
      OkAt(fs, grids, i + 1);
      if r.Built? {
        BuiltIs(was, fs, i, upTo, r, now, policy.lateness, grids);
        r := BuildCoarser(dirs[i + 1], grids[i + 1], grids[i], r, now, policy, sizeOf);
        ReachedNext(was, fs, i, upTo, finer, now, dirs[i + 1].files, r, policy.lateness, grids);
        assert FilesOf(dirs) == fs[i + 1 := dirs[i + 1].files];
      } else {
        ReachedFailed(was, fs, i, upTo, r, now, policy.lateness, grids);
      }
    }
    forall j | upTo < j < |dirs| ensures dirs[j].files == old(dirs[j].files) {
      assert FilesOf(dirs)[j] == was[j];
    }
  }

  lemma OkAt(fs: seq<Files>, grids: seq<Grid>, i: nat)
    requires |fs| == |grids| && FilesOk(fs, grids) && i < |fs|
    ensures grids[i].Valid() && DiskOk(fs[i], grids[i])
  {
    assert LevelOk(fs[i], grids[i]);
  }

  lemma BuiltIs(was: seq<Files>, fs: seq<Files>, i: nat, upTo: nat, r: Built, now: Sources, lateness: int,
                grids: seq<Grid>)
    requires i <= upTo < |grids| == |was| == |fs| && Reached(was, fs, i, upTo, r, now, lateness, grids) && r.Built?
    ensures grids[i].Valid() && r.content == r.output.Content() == Direct(now.Keys, grids[i])
  {
    hide Direct, HeadOf;
    assert LevelOk(fs[i], grids[i]);
  }

  lemma SameLength(dirs: seq<ResDir>, grids: seq<Grid>)
    requires Chain(dirs, grids)
    ensures |dirs| == |grids|
  {
  }

  lemma AllOkIs(dirs: seq<ResDir>, grids: seq<Grid>)
    requires |dirs| == |grids| && AllOk(dirs, grids)
    ensures FilesOk(FilesOf(dirs), grids)
  {
  }

  lemma ChainAt(dirs: seq<ResDir>, grids: seq<Grid>, i: nat)
    requires Chain(dirs, grids) && i < |dirs|
    ensures |dirs| == |grids| && SecondGrid(grids[i]) && grids[i].Valid() && (i > 0 ==> Refines(grids[i - 1], grids[i]))
    ensures forall j :: 0 <= j < |dirs| && j != i ==> dirs[j] != dirs[i]
  {
    forall j | 0 <= j < |dirs| && j != i ensures dirs[j] != dirs[i] {
      assert if j < i then dirs[j] != dirs[i] else dirs[i] != dirs[j];
    }
  }

  lemma UsableHead(files: Files, lateness: int)
    requires Usable(files, lateness).Some?
    ensures HeadOf(files) == Some(Usable(files, lateness).value.Output())
  {
  }

  /** One build of one output file, with the operations each directory survives. */
  datatype Request = Request(upTo: nat, now: Sources, policy: Policy, budgets: seq<Option<nat>>)

  ghost predicate NoneDies(req: Request) {
    forall j :: 0 <= j < |req.budgets| ==> req.budgets[j].None?
  }

  method SetBudgets(dirs: seq<ResDir>, grids: seq<Grid>, budgets: seq<Option<nat>>)
    requires Chain(dirs, grids) && AllOk(dirs, grids) && |budgets| == |dirs|
    modifies dirs`budget
    ensures AllOk(dirs, grids)
    ensures forall j :: 0 <= j < |dirs| ==> dirs[j].budget == budgets[j]
  {
    hide DiskOk;
    for j := 0 to |dirs|
      invariant FilesOf(dirs) == old(FilesOf(dirs))
      invariant forall i :: 0 <= i < j ==> dirs[i].budget == budgets[i]
    {
      dirs[j].budget := budgets[j];
      assert FilesOf(dirs) == old(FilesOf(dirs));
    }
  }

  ghost predicate Fits(req: Request, dirs: seq<ResDir>) {
    req.upTo < |dirs| && |req.budgets| == |dirs| && Truthful(req.now)
  }

  ghost predicate Answers(r: Built, req: Request, grids: seq<Grid>) {
    r.Built? ==> req.upTo < |grids| && grids[req.upTo].Valid() && r.content == Direct(req.now.Keys, grids[req.upTo])
  }

  /** One build of a history, which may die at any step. */
  method Answer(dirs: seq<ResDir>, grids: seq<Grid>, req: Request, sizeOf: Content -> SizeTier.U64) returns (r: Built)
    requires Chain(dirs, grids) && AllOk(dirs, grids) && Fits(req, dirs)
    modifies dirs
    ensures AllOk(dirs, grids) && Answers(r, req, grids)
    ensures old(AllWhole(dirs)) && NoneDies(req) ==> AllWhole(dirs) && r.Built?
  {
    hide DiskOk, Direct, Whole, Truthful, Settled, Reports, HeadOf;
    SetBudgets(dirs, grids, req.budgets);
    r := BuildChain(dirs, grids, req.upTo, req.now, req.policy, sizeOf);
  }

  /** Any history of builds of any output files over changing sources, each of which may die at
      any step: every directory stays sound and every build that answers, answers right.  If none dies,
      every build answers. */
  method History(dirs: seq<ResDir>, grids: seq<Grid>, reqs: seq<Request>, sizeOf: Content -> SizeTier.U64)
    returns (out: seq<Built>)
    requires Chain(dirs, grids) && AllOk(dirs, grids)
    requires forall i :: 0 <= i < |reqs| ==> Fits(reqs[i], dirs)
    modifies dirs
    ensures AllOk(dirs, grids) && |out| == |reqs|
    ensures forall i :: 0 <= i < |reqs| ==> Answers(out[i], reqs[i], grids)
    ensures old(AllWhole(dirs)) && (forall i :: 0 <= i < |reqs| ==> NoneDies(reqs[i]))
            ==> forall i :: 0 <= i < |reqs| ==> out[i].Built?
  {
    hide Chain, AllOk, AllWhole, NoneDies, Fits, Answers;
    SameLength(dirs, grids);
    out := [];
    ghost var calm := AllWhole(dirs) && forall i :: 0 <= i < |reqs| ==> NoneDies(reqs[i]);
    for n := 0 to |reqs|
      invariant AllOk(dirs, grids) && |out| == n
      invariant forall i :: 0 <= i < n ==> Answers(out[i], reqs[i], grids)
      invariant calm ==> AllWhole(dirs) && forall i :: 0 <= i < n ==> out[i].Built?
    {
      assert calm ==> NoneDies(reqs[n]);
      assert Fits(reqs[n], dirs);
      var r := Answer(dirs, grids, reqs[n], sizeOf);
      out := out + [r];
    }
  }

  // ----- a crash while wiping can strand the directory -----

  /** What decides a build after a wipe: with `m` published before, the manifest went, or is not usable
      under the policy, or disagrees with the hot file that survived, or everything the build will read
      survived, which for other sources is every segment starting below the dirty bucket. */
  ghost predicate Survives(rest: Files, m: Manifest, now: Sources, policy: Policy, g: Grid)
    requires g.Valid()
  {
    || ManifestFile !in rest
    || m.format != SEALED_FORMAT || m.lateness != policy.lateness
    || (m.hotDigest.Some? && Hot in rest && rest[Hot] != Parquet(m.hotDigest.value))
    || (now == m.sources && Present(rest, m.segments) && Hot in rest)
    || (now != m.sources && forall lo :: IsDirtyLo(m.sources, now, lo) ==> Needed(rest, m.segments, DirtyBucket(lo, g)))
  }

  /** A wipe that may die anywhere, then a build of any sources under any policy that does not: the build
      succeeds exactly when what survived allows it, and if it is of the surviving manifest's own
      sources a failure changes nothing, so it is final. */
  method WipeThenBuild(dir: ResDir, g: Grid, now: Sources, policy: Policy, sizeOf: Content -> SizeTier.U64,
                       ghost m: Manifest)
    returns (r: Built, ghost rest: Files)
    requires SecondGrid(g) && Truthful(now) && DiskOk(dir.files, g)
    requires ManifestFile in dir.files && dir.files[ManifestFile] == Json(m)
    modifies dir
    ensures forall n :: n in rest ==> n in old(dir.files) && rest[n] == old(dir.files)[n]
    ensures old(dir.budget).None? ==> rest == map[]
    ensures |old(dir.files)| > 1 && old(dir.budget) == Some(1) && old(dir.order) == [Hot] && Hot in old(dir.files) ==>
      rest == old(dir.files) - {Hot}
    ensures !r.BuildCrashed? && (r.Built? <==> Survives(rest, m, now, policy, g))
    ensures r.Built? ==> r.content == Direct(now.Keys, g)
    ensures r.BuildFailed? && now == m.sources ==> dir.files == rest
    ensures DiskOk(dir.files, g) && dir.budget.None?
  {
    hide ManifestOk, Direct, IsDirtyLo, Needed, ChangeTruthful, Follows;
    var alive := dir.Wipe();
    rest := dir.files;
    DiskFewer(old(dir.files), rest, g);
    dir.budget := None;
    r := BuildFromSource(dir, g, now, policy, sizeOf);
  }

  /** A dead end: publish any sources under one policy, let the rebuild another lateness asks for die after
      wiping the hot file, and go back to the first policy.  Every further build of those sources fails. */
  method Strand(g: Grid, now: Sources, policy: Policy, other: Policy, sizeOf: Content -> SizeTier.U64, again: nat)
    returns (dir: ResDir, r: Built)
    requires SecondGrid(g) && Truthful(now) && other.lateness != policy.lateness
    ensures fresh(dir) && DiskOk(dir.files, g) && dir.budget.None? && r == BuildFailed
    ensures UpToDate(Usable(dir.files, policy.lateness), now)
  {
    hide ManifestOk, Direct, IsDirtyLo, Needed, ChangeTruthful, Follows;
    dir := new ResDir();
    r := BuildFromSource(dir, g, now, policy, sizeOf);
    TwoFiles(dir.files);
    dir.budget, dir.order := Some(1), [Hot];
    r := BuildFromSource(dir, g, now, other, sizeOf);
    dir.budget := None;
    ghost var stranded := dir.files;
    r := BuildFromSource(dir, g, now, policy, sizeOf);
    for i := 0 to again
      invariant r == BuildFailed && dir.files == stranded && DiskOk(stranded, g) && dir.budget.None?
    {
      r := BuildFromSource(dir, g, now, policy, sizeOf);
    }
  }

  lemma TwoFiles(files: Files)
    requires ManifestFile in files && Hot in files
    ensures |files| > 1
  {
    assert {ManifestFile, Hot} <= files.Keys;
    assert |files.Keys - {ManifestFile, Hot}| == |files.Keys| - 2;
  }
}
