/**
 Incremental fixed-window reduction: which work a change needs, and why doing only that is enough.
 */
module Planner {
  import opened Wrappers
  import opened Int64
  import opened Aggregate
  import opened Locality
  import opened Impact
  import opened Frontier
  import opened PartialStore

  function Rank(p: PatchReason): nat {
    match p
    case AfterAppend => 0
    case AfterDisorder => 1
    case AfterMembership => 2
    case AfterRepair => 3
  }

  datatype FullReason = RecipeChanged | SchemaChanged | GlobalChange | PartialState(reason: RawReason)

  datatype Decision =
    | Reuse(resolution: Resolution)
    | RebuildDirty(ranges: seq<TimeInterval>, reason: PatchReason, prior: Resolution)
    | RebuildAll(why: FullReason)

  datatype PlanError =
    | Unclassifiable
    | AlignmentOverflow
    | NoRebuildReason
    | UnexplainedIdentity
    | DirtyWithoutAdvance
    | NoChangeReason
    | Unresolved
    | Unpatched

  datatype Attempt<+T> = Done(value: T) | Failed(error: PlanError)

  datatype Request = Request(recipe: string, prior: string, state: string, width: I64, origin: I64)

  // ----- the reason for a patch -----

  function ReasonFor(kind: ChangeKind, d: Disposition): Option<PatchReason> {
    if !kind.AddedChunk? then Some(AfterMembership)
    else
      match d
      case NoRows => None
      case Append(_) => Some(AfterAppend)
      case UnsealedDisorder(_) => Some(AfterDisorder)
      case Repair(_, _, _) => Some(AfterRepair)
  }

  function Stronger(current: Option<PatchReason>, candidate: PatchReason): PatchReason {
    if current.Some? && Rank(current.value) >= Rank(candidate) then current.value else candidate
  }

  /** Change `ch` is relevant and asks for a patch because of `p`. */
  ghost predicate Asks(c: Contract, s: SettledState, ch: LogicalChange, p: PatchReason) {
    && c.DependsOn(ch.source) && Classify(s, ch.extent).As?
    && ReasonFor(ch.kind, Classify(s, ch.extent).disposition) == Some(p)
  }

  ghost predicate AskedFor(c: Contract, s: SettledState, chs: seq<LogicalChange>, p: PatchReason) {
    exists i :: 0 <= i < |chs| && Asks(c, s, chs[i], p)
  }

  ghost predicate Strongest(c: Contract, s: SettledState, chs: seq<LogicalChange>, p: PatchReason) {
    AskedFor(c, s, chs, p) && forall q :: AskedFor(c, s, chs, q) ==> Rank(q) <= Rank(p)
  }

  predicate Refuses(c: Contract, s: SettledState, ch: LogicalChange) {
    c.DependsOn(ch.source) && Classify(s, ch.extent).Refused?
  }

  ghost predicate AnyRefused(c: Contract, s: SettledState, chs: seq<LogicalChange>) {
    exists i :: 0 <= i < |chs| && Refuses(c, s, chs[i])
  }

  /** Which reason a relevant change asks for, told by its kind and the times it contains. */
  lemma AsksByTimes(c: Contract, s: SettledState, ch: LogicalChange)
    requires s.Valid() && c.DependsOn(ch.source) && Classify(s, ch.extent).As?
    ensures !ch.kind.AddedChunk? ==> forall p :: Asks(c, s, ch, p) <==> p == AfterMembership
    ensures ch.kind.AddedChunk? && ch.extent.Empty? ==> forall p :: !Asks(c, s, ch, p)
    ensures ch.kind.AddedChunk? && ch.extent.Bounded? ==>
      && (Asks(c, s, ch, AfterRepair) <==> exists x :: Has(ch.extent.iv, x) && Sealed(s, x))
      && (Asks(c, s, ch, AfterAppend) <==> forall x :: Has(ch.extent.iv, x) ==> Unseen(s, x))
      && (Asks(c, s, ch, AfterDisorder) <==> !Asks(c, s, ch, AfterRepair) && !Asks(c, s, ch, AfterAppend))
      && !Asks(c, s, ch, AfterMembership)
  {
    if ch.extent.Bounded? {
      ClassifyByTimes(s, ch.extent.iv);
      assert Has(ch.extent.iv, ch.extent.iv.min);
    }
  }

  lemma AskedSnoc(c: Contract, s: SettledState, chs: seq<LogicalChange>, n: nat, p: PatchReason)
    requires n < |chs|
    ensures AskedFor(c, s, chs[..n + 1], p) <==> AskedFor(c, s, chs[..n], p) || Asks(c, s, chs[n], p)
  {
    hide Asks;
    var a, b := chs[..n], chs[..n + 1];
    if AskedFor(c, s, a, p) {
      var i :| 0 <= i < |a| && Asks(c, s, a[i], p);
      assert b[i] == a[i];
    }
    if Asks(c, s, chs[n], p) { assert b[n] == chs[n]; }
    if AskedFor(c, s, b, p) {
      var i :| 0 <= i < |b| && Asks(c, s, b[i], p);
      if i < n { assert a[i] == b[i]; }
    }
  }

  /** `selected` is the strongest reason asked for, or nothing is asked. */
  ghost predicate Best(c: Contract, s: SettledState, chs: seq<LogicalChange>, selected: Option<PatchReason>) {
    if selected.Some? then Strongest(c, s, chs, selected.value) else forall p :: !AskedFor(c, s, chs, p)
  }

  lemma BestSnoc(c: Contract, s: SettledState, chs: seq<LogicalChange>, n: nat, selected: Option<PatchReason>,
                 reason: Option<PatchReason>)
    requires n < |chs| && Best(c, s, chs[..n], selected)
    requires reason.Some? ==> Asks(c, s, chs[n], reason.value)
    requires reason.None? ==> forall p :: !Asks(c, s, chs[n], p)
    ensures Best(c, s, chs[..n + 1], if reason.Some? then Some(Stronger(selected, reason.value)) else selected)
  {
    hide AskedFor, Classify;
    var all, next := chs[..n + 1], if reason.Some? then Some(Stronger(selected, reason.value)) else selected;
    forall q ensures AskedFor(c, s, all, q) <==> AskedFor(c, s, chs[..n], q) || Asks(c, s, chs[n], q) {
      AskedSnoc(c, s, chs, n, q);
    }
    assert next.Some? ==> Strongest(c, s, all, next.value);
  }

  /** Classify every relevant change and keep the strongest reason. */
  method ClassifyRelevant(c: Contract, s: SettledState, chs: seq<LogicalChange>)
    returns (r: Attempt<Option<PatchReason>>)
    ensures r.Failed? <==> AnyRefused(c, s, chs)
    ensures r.Failed? ==> r.error == Unclassifiable
    ensures r.Done? ==> Best(c, s, chs, r.value)
  {
    hide Classify, Best;
    var selected: Option<PatchReason> := None;
    NobodyAsks(c, s, chs[..0]);
    for n := 0 to |chs|
      invariant forall i :: 0 <= i < n ==> !Refuses(c, s, chs[i])
      invariant Best(c, s, chs[..n], selected)
    {
      var ch := chs[n];
      var reason: Option<PatchReason> := None;
      if c.DependsOn(ch.source) {
        var verdict := Classify(s, ch.extent);
        if verdict.Refused? {
          assert Refuses(c, s, chs[n]);
          return Failed(Unclassifiable);
        }
        reason := ReasonFor(ch.kind, verdict.disposition);
      }
      BestSnoc(c, s, chs, n, selected, reason);
      if reason.Some? {
        selected := Some(Stronger(selected, reason.value));
      }
    }
    assert chs[..|chs|] == chs;
    return Done(selected);
  }

  lemma NobodyAsks(c: Contract, s: SettledState, chs: seq<LogicalChange>)
    requires chs == []
    ensures Best(c, s, chs, None)
  {
  }

  /** Repair outranks membership, membership outranks disorder, and append is chosen only when nothing else is asked. */
  lemma StrongestMeans(c: Contract, s: SettledState, chs: seq<LogicalChange>, p: PatchReason)
    requires Strongest(c, s, chs, p)
    ensures p == AfterRepair <==> AskedFor(c, s, chs, AfterRepair)
    ensures p == AfterMembership <==> AskedFor(c, s, chs, AfterMembership) && !AskedFor(c, s, chs, AfterRepair)
    ensures p == AfterDisorder ==> !AskedFor(c, s, chs, AfterRepair) && !AskedFor(c, s, chs, AfterMembership)
    ensures p == AfterAppend <==> forall q :: AskedFor(c, s, chs, q) ==> q == AfterAppend
  {
    hide AskedFor;
    assert forall q :: AskedFor(c, s, chs, q) ==> Rank(q) <= Rank(p);
  }

  /** The chosen reason does not depend on the order of the changes. */
  lemma StrongestAnyOrder(c: Contract, s: SettledState, a: seq<LogicalChange>, b: seq<LogicalChange>, p: PatchReason,
                          q: PatchReason)
    requires multiset(a) == multiset(b) && Strongest(c, s, a, p) && Strongest(c, s, b, q)
    ensures p == q
  {
    hide Asks;
    AskedEither(c, s, a, b, p);
    AskedEither(c, s, b, a, q);
  }

  lemma AskedEither(c: Contract, s: SettledState, a: seq<LogicalChange>, b: seq<LogicalChange>, p: PatchReason)
    requires multiset(a) == multiset(b) && AskedFor(c, s, a, p)
    ensures AskedFor(c, s, b, p)
  {
    hide Asks;
    var i :| 0 <= i < |a| && Asks(c, s, a[i], p);
    assert a[i] in multiset(b);
    var j :| 0 <= j < |b| && b[j] == a[i];
  }

  // ----- the plan -----

  /** The declared changes account for every row that differs between the two states. */
  ghost predicate Truthful(c: Contract, cs: ChangeSet, req: Request, world: World) {
    !cs.recipeChanged && !cs.schemaChanged ==>
      ExtentsCover(c, cs.changes, world(req.recipe, req.prior), world(req.recipe, req.state))
  }

  /** The manifest that answers the request at `state`. */
  ghost function Answer(req: Request, state: string, world: World): PartialManifest
    requires req.width > 0
  {
    PartialManifest(req.recipe, state, req.width, req.origin, Full(world, req.recipe, state, req.width, req.origin))
  }

  /** The request's windows tile the contract's windows. */
  ghost predicate Tiles(c: Contract, req: Request) {
    && c.Valid() && c.locality.FixedWindow? && req.width > 0
    && Refines(Grid(req.width, req.origin, 1), WindowGrid(c.locality))
  }

  ghost function RawDirty(req: Request, ranges: seq<TimeInterval>, world: World): Content
    requires req.width > 0
  {
    Reduce(Within(world(req.recipe, req.state), ranges), Grid(req.width, req.origin, 1))
  }

  /** What the caller may rely on when told to rebuild only `ranges`. */
  ghost predicate DirtySuffices(req: Request, ranges: seq<TimeInterval>, world: World)
    requires req.width > 0
  {
    forall updates ::
      DirtyUpdates(Answer(req, req.prior, world).partials, RawDirty(req, ranges, world), ranges, updates) ==>
      Patched(Answer(req, req.prior, world).partials, updates) == Answer(req, req.state, world).partials
  }

  lemma TiledDirtySuffices(c: Contract, cs: ChangeSet, req: Request, ranges: seq<TimeInterval>, world: World)
    requires Tiles(c, req) && ExactRanges(c, cs.changes, ranges)
    requires ExtentsCover(c, cs.changes, world(req.recipe, req.prior), world(req.recipe, req.state))
    ensures DirtySuffices(req, ranges, world)
  {
    hide ExactRanges, ExtentsCover, Refines, DirtyUpdates, Patched, Reduce, Within;
    var g := Grid(req.width, req.origin, 1);
    var before, after := world(req.recipe, req.prior), world(req.recipe, req.state);
    forall updates | DirtyUpdates(Reduce(before, g), Reduce(Within(after, ranges), g), ranges, updates)
      ensures Patched(Reduce(before, g), updates) == Reduce(after, g)
    {
      IncrementalIsFull(c, cs.changes, g, ranges, before, after, updates);
    }
  }

  /** Resolve the prior state and, when nothing relevant changed, carry it over to the new state. */
  method ReuseState(store: PartialStateStore, c: Contract, cs: ChangeSet, req: Request, reason: Option<PatchReason>,
                    ghost world: World) returns (r: Attempt<Decision>)
    requires Honest(store.manifests, world) && Storable(store.manifests)
    requires ExtentsCover(c, cs.changes, world(req.recipe, req.prior), world(req.recipe, req.state))
    requires forall i :: 0 <= i < |cs.changes| && c.DependsOn(cs.changes[i].source) ==> cs.changes[i].extent.Empty?
    modifies store
    ensures Honest(store.manifests, world)
    ensures r.Failed? ==> r.error == Unresolved || r.error == Unpatched
    ensures r == Failed(Unresolved) <==> NoAnswer(old(store.manifests), req)
    ensures r == Failed(Unpatched) <==>
      && !NoAnswer(old(store.manifests), req) && !NothingStored(old(store.manifests), req)
      && req.state == "" && req.prior != ""
    ensures r.Done? ==> req.width > 0
    ensures r.Done? ==>
      if NothingStored(old(store.manifests), req) then r.value.RebuildAll? && r.value.why.PartialState?
                        else r.value == Reuse(Exact(Answer(req, req.state, world), Work(0, 0, 0)))
  {
    hide ExtentsCover, Full, Reduce, BucketAligned, Compatible, Unservable, FoldBreaks, Storable;
    var prior := store.Resolve(req.recipe, req.prior, req.width, req.origin, world);
    if prior.Err? { return Failed(Unresolved); }
    if prior.value.NeedsRaw? { return Done(RebuildAll(PartialState(prior.value.reason))); }
    if req.state != req.prior {
      ghost var before := store.manifests;
      assert before[req.width].recipe == req.recipe && before[req.width].state == req.prior;
      var patched := store.ApplyPatch(req.recipe, req.prior, req.state, req.width, map[],
                                      if reason.Some? then reason.value else AfterAppend, 0);
      if patched.Err? { return Failed(Unpatched); }
      RetagIsHonest(before, c, cs, req, world);
    }
    var now := store.Resolve(req.recipe, req.state, req.width, req.origin, world);
    if now.Err? { return Failed(Unresolved); }
    return Done(Reuse(now.value));
  }

  lemma RetagIsHonest(ms: map<int, PartialManifest>, c: Contract, cs: ChangeSet, req: Request, world: World)
    requires Honest(ms, world) && req.state != ""
    requires ExtentsCover(c, cs.changes, world(req.recipe, req.prior), world(req.recipe, req.state))
    requires forall i :: 0 <= i < |cs.changes| && c.DependsOn(cs.changes[i].source) ==> cs.changes[i].extent.Empty?
    ensures Honest(Advanced(ms, req.recipe, req.prior, req.state, req.width, map[]), world)
  {
    hide ExtentsCover, Reduce, Advanced, BucketAligned;
    forall w | w in ms && Belongs(ms[w], req.recipe, req.prior)
      ensures Full(world, req.recipe, req.prior, w, ms[w].origin) == Full(world, req.recipe, req.state, w, ms[w].origin)
    {
      NoImpactNoChange(c, cs.changes, Grid(w, ms[w].origin, 1), world(req.recipe, req.prior),
                       world(req.recipe, req.state));
    }
    RetagHonestIff(ms, world, req.recipe, req.prior, req.state, req.width);
  }

  lemma DirtyHasReason(c: Contract, s: SettledState, chs: seq<LogicalChange>)
    requires AnyBounded(c, chs) && !AnyRefused(c, s, chs)
    ensures exists p :: AskedFor(c, s, chs, p)
  {
    var i :| 0 <= i < |chs| && c.DependsOn(chs[i].source) && chs[i].extent.Bounded?;
    assert !Refuses(c, s, chs[i]);
    var p := ReasonFor(chs[i].kind, Classify(s, chs[i].extent).disposition).value;
    assert Asks(c, s, chs[i], p);
    assert AskedFor(c, s, chs, p);
  }

  ghost predicate Semantic(cs: ChangeSet) {
    cs.recipeChanged || cs.schemaChanged
  }

  /** No relevant change reaches an output. */
  ghost predicate Quiet(c: Contract, cs: ChangeSet) {
    if c.locality.Global? then !AnyRelevant(c, cs.changes) else !AnyBounded(c, cs.changes)
  }

  /** The planner gets as far as asking the store for the prior state. */
  ghost predicate Consults(c: Contract, s: SettledState, cs: ChangeSet, req: Request)
    requires c.Valid()
  {
    && !AnyRefused(c, s, cs.changes) && !Semantic(cs) && !AnyOverflow(c, cs.changes)
    && if Quiet(c, cs) then req.state == req.prior || cs.frontierMoved || AnyRelevant(c, cs.changes)
       else !c.locality.Global? && req.state != req.prior
  }

  /** The store can neither answer for the prior state nor say what raw input it needs. */
  ghost predicate NoAnswer(ms: map<int, PartialManifest>, req: Request)
    requires Storable(ms)
  {
    req.width <= 0 || FoldBreaks(ms, req.recipe, req.prior, req.width, req.origin)
  }

  ghost predicate NothingStored(ms: map<int, PartialManifest>, req: Request)
    requires Storable(ms)
  {
    req.width > 0 && Unservable(ms, req.recipe, req.prior, req.width, req.origin)
  }

  lemma AnswersOrAsks(ms: map<int, PartialManifest>, req: Request)
    requires Storable(ms)
    ensures !(NoAnswer(ms, req) && NothingStored(ms, req))
  {
    hide Compatible, Overflowing;
  }

  lemma HonestIsStorable(ms: map<int, PartialManifest>, world: World)
    requires Honest(ms, world)
    ensures Storable(ms)
  {
    hide Full, BucketAligned;
  }

  /** Plan reuse or exact rebuild work without touching raw input. */
  method PlanReduction(store: PartialStateStore, c: Contract, s: SettledState, cs: ChangeSet, req: Request,
                       ghost world: World) returns (r: Attempt<Decision>)
    requires c.Valid() && Honest(store.manifests, world) && Truthful(c, cs, req, world)
    modifies store
    ensures Honest(store.manifests, world)
    ensures r.Failed? ==> !r.error.NoRebuildReason? && !r.error.NoChangeReason?
    ensures r == Failed(Unclassifiable) <==> AnyRefused(c, s, cs.changes)
    ensures r == Failed(AlignmentOverflow) <==>
      !AnyRefused(c, s, cs.changes) && !Semantic(cs) && AnyOverflow(c, cs.changes)
    ensures r == Failed(UnexplainedIdentity) <==> (
      && !AnyRefused(c, s, cs.changes) && !Semantic(cs) && !AnyRelevant(c, cs.changes)
      && req.state != req.prior && !cs.frontierMoved)
    ensures r == Failed(DirtyWithoutAdvance) <==> (
      && !AnyRefused(c, s, cs.changes) && !Semantic(cs) && AnyBounded(c, cs.changes) && !AnyOverflow(c, cs.changes)
      && !c.locality.Global? && req.state == req.prior)
    ensures Storable(old(store.manifests))
    ensures r == Failed(Unresolved) <==> Consults(c, s, cs, req) && NoAnswer(old(store.manifests), req)
    ensures r == Failed(Unpatched) <==> (
      && Consults(c, s, cs, req) && Quiet(c, cs) && req.state == "" && req.prior != ""
      && !NoAnswer(old(store.manifests), req) && !NothingStored(old(store.manifests), req))
    ensures r.Done? && r.value.RebuildAll? && r.value.why.PartialState? <==>
      Consults(c, s, cs, req) && NothingStored(old(store.manifests), req)
    ensures r.Done? && r.value.Reuse? <==> (
      && Consults(c, s, cs, req) && Quiet(c, cs) && (req.state == req.prior || req.state != "")
      && !NoAnswer(old(store.manifests), req) && !NothingStored(old(store.manifests), req))
    ensures r.Done? && r.value.RebuildDirty? <==> (
      && Consults(c, s, cs, req) && !Quiet(c, cs)
      && !NoAnswer(old(store.manifests), req) && !NothingStored(old(store.manifests), req))
    ensures r.Done? && r.value.Reuse? ==>
      req.width > 0 && r.value.resolution == Exact(Answer(req, req.state, world), Work(0, 0, 0))
    ensures r.Done? && r.value.RebuildDirty? ==>
      && req.width > 0 && Normalized(r.value.ranges) && r.value.ranges != []
      && ExactRanges(c, cs.changes, r.value.ranges)
      && Strongest(c, s, cs.changes, r.value.reason)
      && !r.value.prior.NeedsRaw? && r.value.prior.manifest == Answer(req, req.prior, world)
      && req.width in store.manifests && store.manifests[req.width] == r.value.prior.manifest
      && (Tiles(c, req) ==> DirtySuffices(req, r.value.ranges, world))
    ensures r.Done? && r.value.RebuildAll? ==>
      && (r.value.why.RecipeChanged? <==> cs.recipeChanged)
      && (r.value.why.SchemaChanged? <==> cs.schemaChanged && !cs.recipeChanged)
      && (r.value.why.GlobalChange? <==> !Semantic(cs) && c.locality.Global? && AnyRelevant(c, cs.changes))
  {
    hide ExtentsCover, Full, Reduce, BucketAligned, Compatible, Unservable, FoldBreaks, Storable, Classify, Normalized,
         Covers, ReachedBySome, Overflows, Strongest, AskedFor, DirtySuffices, Tiles;
    HonestIsStorable(store.manifests, world);
    AnswersOrAsks(store.manifests, req);
    var reason := ClassifyRelevant(c, s, cs.changes);
    if reason.Failed? { return Failed(reason.error); }
    UnboundedRefused(c, s, cs.changes);
    OverflowIsLocal(c, cs.changes);
    var impact := AffectedOutputRanges(c, cs);
    if impact.Err? { return Failed(AlignmentOverflow); }
    match impact.value {
      case Complete =>
        if cs.recipeChanged { return Done(RebuildAll(RecipeChanged)); }
        if cs.schemaChanged { return Done(RebuildAll(SchemaChanged)); }
        if c.locality.Global? { return Done(RebuildAll(GlobalChange)); }
        return Failed(NoRebuildReason);
      case NoImpact =>
        var relevant := exists i :: 0 <= i < |cs.changes| && c.DependsOn(cs.changes[i].source);
        if req.state != req.prior && !cs.frontierMoved && !relevant { return Failed(UnexplainedIdentity); }
        r := ReuseState(store, c, cs, req, reason.value, world);
      case Dirty(ranges) =>
        if req.state == req.prior { return Failed(DirtyWithoutAdvance); }
        var prior := store.Resolve(req.recipe, req.prior, req.width, req.origin, world);
        if prior.Err? { return Failed(Unresolved); }
        if prior.value.NeedsRaw? { return Done(RebuildAll(PartialState(prior.value.reason))); }
        DirtyHasReason(c, s, cs.changes);
        if reason.value.None? { return Failed(NoChangeReason); }
        if Tiles(c, req) { TiledDirtySuffices(c, cs, req, ranges, world); }
        return Done(RebuildDirty(ranges, reason.value.value, prior.value));
    }
  }

  /** Applying the recomputed dirty windows to the planned store completes the advance, also when there is
      nothing in them: the store stays honest and now answers the request at the new state exactly. */
  lemma DirtyPatchLands(ms: map<int, PartialManifest>, c: Contract, cs: ChangeSet, req: Request,
                        ranges: seq<TimeInterval>, updates: Updates, rawRows: nat, world: World)
    requires Tiles(c, req) && ExactRanges(c, cs.changes, ranges)
    requires ExtentsCover(c, cs.changes, world(req.recipe, req.prior), world(req.recipe, req.state))
    requires Honest(ms, world) && req.width in ms && ms[req.width] == Answer(req, req.prior, world)
    requires DirtyUpdates(Answer(req, req.prior, world).partials, RawDirty(req, ranges, world), ranges, updates)
    requires Patchable(ms, req.recipe, req.prior, req.state, req.width, updates, rawRows)
    requires forall k :: k in updates ==> Representable(k)
    ensures var out := Advanced(ms, req.recipe, req.prior, req.state, req.width, updates);
      Honest(out, world) && req.width in out && out[req.width] == Answer(req, req.state, world)
  {
    hide DirtyUpdates, RawDirty, Patched, Full, BucketAligned, ExactRanges, ExtentsCover, Refines, Honest;
    if updates == map[] {
      EmptyPatchRetags(ms, c, cs, req, ranges, world);
      RetagHonestIff(ms, world, req.recipe, req.prior, req.state, req.width);
    } else {
      TiledDirtySuffices(c, cs, req, ranges, world);
      PatchHonestIff(ms, world, req.recipe, req.prior, req.state, req.width, updates, rawRows);
    }
    assert Honest(Advanced(ms, req.recipe, req.prior, req.state, req.width, updates), world);
    AnsweredAfter(ms, req, updates, world);
  }

  lemma EmptyPatchRetags(ms: map<int, PartialManifest>, c: Contract, cs: ChangeSet, req: Request,
                         ranges: seq<TimeInterval>, world: World)
    requires Tiles(c, req) && ExactRanges(c, cs.changes, ranges)
    requires ExtentsCover(c, cs.changes, world(req.recipe, req.prior), world(req.recipe, req.state))
    requires DirtyUpdates(Answer(req, req.prior, world).partials, RawDirty(req, ranges, world), ranges, map[])
    requires Honest(ms, world)
    ensures forall w :: w in ms && Belongs(ms[w], req.recipe, req.prior) ==>
      && ms[w].width == w && w > 0
      && Full(world, req.recipe, req.prior, w, ms[w].origin) == Full(world, req.recipe, req.state, w, ms[w].origin)
  {
    hide DirtyUpdates, ExactRanges, ExtentsCover, Refines, Reduce, Within, BucketAligned;
    EmptyPatchNoChange(c, cs.changes, Grid(req.width, req.origin, 1), ranges, world(req.recipe, req.prior),
                       world(req.recipe, req.state));
    forall w | w in ms && Belongs(ms[w], req.recipe, req.prior)
      ensures ms[w].width == w && w > 0
      ensures Full(world, req.recipe, req.prior, w, ms[w].origin) == Full(world, req.recipe, req.state, w, ms[w].origin)
    {
      SameRowsSameReduce(world(req.recipe, req.prior), world(req.recipe, req.state), Grid(w, ms[w].origin, 1));
    }
  }

  /** An honest store that holds the patched manifest answers with it. */
  lemma AnsweredAfter(ms: map<int, PartialManifest>, req: Request, updates: Updates, world: World)
    requires req.width > 0 && req.width in ms && ms[req.width] == Answer(req, req.prior, world)
    requires Honest(Advanced(ms, req.recipe, req.prior, req.state, req.width, updates), world)
    ensures var out := Advanced(ms, req.recipe, req.prior, req.state, req.width, updates);
      req.width in out && out[req.width] == Answer(req, req.state, world)
  {
    hide Patched, Full, BucketAligned;
  }

  /** A change of unknown extent is refused before any range is computed. */
  lemma UnboundedRefused(c: Contract, s: SettledState, chs: seq<LogicalChange>)
    ensures forall i :: 0 <= i < |chs| && Unbounded(c, chs[i]) ==> Refuses(c, s, chs[i])
  {
  }
}
