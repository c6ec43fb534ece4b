/**
 The in-memory authority for reusable partial state: manifests keyed by resolution, a patch that
 advances one of them to a new source state, and resolution of a request by reuse or folding.
 */
module PartialStore {
  import opened Wrappers
  import opened Int64
  import opened Aggregate
  import opened Locality
  import opened Impact

  datatype PartialManifest = PartialManifest(recipe: string, state: string, width: I64, origin: I64,
                                             partials: Content) {
    ghost predicate Valid() {
      && recipe != "" && state != "" && width > 0
      && (forall k :: k in partials ==> Representable(k) && BucketAligned(k, width, origin))
    }
  }

  predicate BucketAligned(k: PartialKey, width: I64, origin: I64)
    requires width > 0
  {
    Checked(k.bucket - origin).Some? && (k.bucket - origin) % width == 0
  }

  /** A bucket is aligned exactly when some row falls into it, and its offset from the origin is a 64-bit value. */
  lemma BucketAlignedIff(k: PartialKey, width: I64, origin: I64)
    requires width > 0
    ensures BucketAligned(k, width, origin) <==>
      Fits64(k.bucket - origin) && exists r :: KeyOf(r, Grid(width, origin, 1)) == k
  {
    var g := Grid(width, origin, 1);
    if BucketAligned(k, width, origin) {
      assert KeyOf(Row(k.bucket, k.group, None), g) == k;
    }
    if exists r :: KeyOf(r, g) == k {
      var r :| KeyOf(r, g) == k;
      FloorMeans(r.t, g, k.bucket);
    }
  }

  /** The rows an identity stands for: a recipe applied to an exact source state. */
  type World = (string, string) -> seq<Row>

  ghost function Full(world: World, recipe: string, state: string, width: I64, origin: I64): Content
    requires width > 0
  {
    Reduce(world(recipe, state), Grid(width, origin, 1))
  }

  ghost predicate HonestManifest(m: PartialManifest, world: World) {
    m.Valid() && m.partials == Full(world, m.recipe, m.state, m.width, m.origin)
  }

  /** Every manifest sits under its own width and holds the full reduction of its identity. */
  ghost predicate Honest(ms: map<int, PartialManifest>, world: World) {
    forall w :: w in ms ==> ms[w].width == w && HonestManifest(ms[w], world)
  }

  datatype RawReason = MissingState | RecipeDiffers | SourceStateDiffers | IncompatibleResolution

  /** Rows scanned, fine partials read and output partials written for one resolution. */
  datatype Work = Work(rawRows: nat, read: nat, written: nat)

  datatype Resolution =
    | Exact(manifest: PartialManifest, work: Work)
    | Folded(sourceWidth: I64, manifest: PartialManifest, work: Work)
    | NeedsRaw(reason: RawReason)

  datatype PatchReason = AfterAppend | AfterDisorder | AfterRepair | AfterMembership

  datatype PatchWork = PatchWork(reason: PatchReason, rawRows: nat, touched: nat, upserted: nat, removed: nat,
                                 invalidated: nat)

  predicate Belongs(m: PartialManifest, recipe: string, state: string) {
    m.recipe == recipe && m.state == state
  }

  /** `m` can be folded to the requested grid. */
  predicate Compatible(m: PartialManifest, recipe: string, state: string, width: I64, origin: I64)
    requires m.width > 0
  {
    && Belongs(m, recipe, state) && m.width < width && width % m.width == 0
    && Checked(origin - m.origin).Some? && (origin - m.origin) % m.width == 0
  }

  /** A stored state can be folded to the request exactly when it is finer, its windows tile the requested ones,
      and the distance of the origins fits 64 bits. */
  lemma CompatibleIff(m: PartialManifest, recipe: string, state: string, width: I64, origin: I64)
    requires m.width > 0 && width > 0
    ensures Compatible(m, recipe, state, width, origin) <==> (
      && m.recipe == recipe && m.state == state && m.width < width && Fits64(origin - m.origin)
      && var coarse, fine := Grid(width, origin, 1), Grid(m.width, m.origin, 1);
         forall x :: coarse.Floor(fine.Floor(x)) == coarse.Floor(x))
  {
    RefinesIff(Grid(m.width, m.origin, 1), Grid(width, origin, 1));
  }

  /** Folding this key stays within 64 bits. */
  predicate FoldFits(k: PartialKey, width: I64, origin: I64)
    requires width > 0 && Representable(k)
  {
    CheckedFloor(k.bucket, width, origin).Some?
  }

  /** The key's bucket is one of the 64-bit values a manifest can name. */
  predicate Representable(k: PartialKey) {
    Checked(k.bucket).Some?
  }

  lemma FoldedKeyAligned(k: PartialKey, c: Grid)
    requires c.Valid() && Representable(k) && Fits64(c.width) && Fits64(c.origin) && FoldFits(k, c.width, c.origin)
    ensures BucketAligned(Coarse(k, c), c.width, c.origin) && Representable(Coarse(k, c))
  {
    hide Fits64;
    FloorIsProduct(k.bucket, c.width, c.origin);
    var q := (k.bucket - c.origin) / c.width;
    MultipleOf(q * c.width, c.width, q);
  }

  type Updates = map<PartialKey, Option<Partial>>

  /** The patch is accepted: it advances an authoritative manifest of the right identity. */
  ghost predicate Patchable(ms: map<int, PartialManifest>, recipe: string, prior: string, next: string, width: I64,
                            updates: Updates, rawRows: nat) {
    && next != "" && next != prior
    && (updates == map[] ==> rawRows == 0)
    && width in ms && Belongs(ms[width], recipe, prior)
    && ms[width].width > 0
    && (forall k :: k in updates ==> BucketAligned(k, ms[width].width, ms[width].origin))
  }

  /** The manifests after an accepted patch. */
  ghost function Advanced(ms: map<int, PartialManifest>, recipe: string, prior: string, next: string, width: I64,
                          updates: Updates): map<int, PartialManifest> {
    if updates == map[] then
      map w | w in ms :: if Belongs(ms[w], recipe, prior) then ms[w].(state := next) else ms[w]
    else
      map w | w in ms && (w == width || !Belongs(ms[w], recipe, prior))
        :: if w == width then ms[w].(state := next, partials := Patched(ms[w].partials, updates)) else ms[w]
  }

  /** A non-empty patch leaves the store honest exactly when it turns the old reduction into the new. */
  lemma PatchHonestIff(ms: map<int, PartialManifest>, world: World, recipe: string, prior: string, next: string,
                       width: I64, updates: Updates, rawRows: nat)
    requires Honest(ms, world) && Patchable(ms, recipe, prior, next, width, updates, rawRows) && updates != map[]
    requires forall k :: k in updates ==> Representable(k)
    ensures Honest(Advanced(ms, recipe, prior, next, width, updates), world)
       <==> Patched(Full(world, recipe, prior, width, ms[width].origin), updates) ==
            Full(world, recipe, next, width, ms[width].origin)
  {
    hide Full, BucketAligned;
    var out := Advanced(ms, recipe, prior, next, width, updates);
    assert out[width].partials == Patched(Full(world, recipe, prior, width, ms[width].origin), updates);
    forall w | w in out && w != width ensures out[w].width == w && HonestManifest(out[w], world) {
      assert out[w] == ms[w];
    }
  }

  /** Retagging leaves it honest exactly when no retagged reduction changed. */
  lemma RetagHonestIff(ms: map<int, PartialManifest>, world: World, recipe: string, prior: string, next: string,
                       width: I64)
    requires Honest(ms, world) && next != ""
    ensures Honest(Advanced(ms, recipe, prior, next, width, map[]), world)
       <==> forall w :: w in ms && Belongs(ms[w], recipe, prior) ==>
         Full(world, recipe, prior, w, ms[w].origin) == Full(world, recipe, next, w, ms[w].origin)
  {
    hide Full, BucketAligned;
    var out := Advanced(ms, recipe, prior, next, width, map[]);
    if Honest(out, world) {
      forall w | w in ms && Belongs(ms[w], recipe, prior)
        ensures Full(world, recipe, prior, w, ms[w].origin) == Full(world, recipe, next, w, ms[w].origin)
      {
        assert w in out && out[w] == ms[w].(state := next);
      }
    }
  }

  /** The keys patched so far, as a patch of their own. */
  function Taken(updates: Updates, ks: set<PartialKey>): Updates {
    map k | k in updates && k in ks :: updates[k]
  }

  ghost function Upserts(updates: Updates): set<PartialKey> {
    set k | k in updates && updates[k].Some?
  }

  ghost function Removals(m: Content, updates: Updates): set<PartialKey> {
    set k | k in updates && updates[k].None? && k in m
  }

  /** Applying one more update key extends the patched map and the two counted sets by that key. */
  lemma TakeOne(m: Content, updates: Updates, ks: set<PartialKey>, k: PartialKey)
    requires k in updates && k !in ks
    ensures Patched(m, Taken(updates, ks + {k}))
         == (if updates[k].Some? then Patched(m, Taken(updates, ks))[k := updates[k].value]
             else Patched(m, Taken(updates, ks)) - {k})
    ensures k in Patched(m, Taken(updates, ks)) <==> k in m
    ensures Upserts(Taken(updates, ks + {k})) == Upserts(Taken(updates, ks)) + (if updates[k].Some? then {k} else {})
    ensures Removals(m, Taken(updates, ks + {k})) ==
      Removals(m, Taken(updates, ks)) + (if updates[k].None? && k in m then {k} else {})
    ensures k !in Upserts(Taken(updates, ks)) && k !in Removals(m, Taken(updates, ks))
  {
  }

  /** Apply the updates one by one, counting what they did. */
  method PatchPartials(m: Content, updates: Updates) returns (out: Content, upserted: nat, removed: nat)
    ensures out == Patched(m, updates)
    ensures upserted == |Upserts(updates)| && removed == |Removals(m, updates)|
  {
    hide Patched, Taken, Upserts, Removals;
    out, upserted, removed := m, 0, 0;
    var todo := updates.Keys;
    TakeBounds(m, updates);
    assert updates.Keys - todo == {};
    while todo != {}
      invariant todo <= updates.Keys
      invariant out == Patched(m, Taken(updates, updates.Keys - todo))
      invariant upserted == |Upserts(Taken(updates, updates.Keys - todo))|
      invariant removed == |Removals(m, Taken(updates, updates.Keys - todo))|
      decreases |todo|
    {
      var k :| k in todo;
      TakeOne(m, updates, updates.Keys - todo, k);
      assert updates.Keys - todo + {k} == updates.Keys - (todo - {k});
      match updates[k] {
        case Some(p) =>
          out := out[k := p];
          upserted := upserted + 1;
        case None =>
          if k in out { removed := removed + 1; }
          out := out - {k};
      }
      todo := todo - {k};
    }
    assert updates.Keys - todo == updates.Keys;
  }

  lemma TakeBounds(m: Content, updates: Updates)
    ensures Patched(m, Taken(updates, {})) == m
    ensures Upserts(Taken(updates, {})) == {} && Removals(m, Taken(updates, {})) == {}
    ensures Taken(updates, updates.Keys) == updates
  {
  }

  lemma NothingUpdated(m: Content, updates: Updates)
    requires updates == map[]
    ensures Upserts(updates) == {} && Removals(m, updates) == {}
  {
  }

  /** Fold one manifest to a coarser grid, or report that a bucket leaves 64 bits. */
  method FoldManifest(m: PartialManifest, width: I64, origin: I64) returns (r: Result<PartialManifest>)
    requires m.Valid() && width > 0 && Compatible(m, m.recipe, m.state, width, origin)
    ensures r.Ok? <==> forall k :: k in m.partials ==> FoldFits(k, width, origin)
    ensures r.Ok? ==>
      r.value == PartialManifest(m.recipe, m.state, width, origin, RollUp(m.partials, Grid(width, origin, 1)))
    ensures r.Ok? ==> r.value.Valid()
  {
    hide FoldFits, Compatible, RollUp, BucketAligned;
    var c := Grid(width, origin, 1);
    if exists k :: k in m.partials && !FoldFits(k, width, origin) { return Err; }
    var folded := FoldTo(m.partials, c);
    forall k | k in folded ensures Representable(k) && BucketAligned(k, width, origin) {
      var x := RollUpSource(m.partials, c, k);
      FoldedKeyAligned(x, c);
    }
    return Ok(PartialManifest(m.recipe, m.state, width, origin, folded));
  }

  lemma RollUpSource(m: Content, c: Grid, k: PartialKey) returns (x: PartialKey)
    requires c.Valid() && k in RollUp(m, c)
    ensures x in m && Coarse(x, c) == k
  {
    x :| x in m.Keys && Coarse(x, c) == k;
  }

  lemma Member<T>(s: set<T>) returns (x: T)
    requires s != {}
    ensures x in s
  {
    x :| x in s;
  }

  class PartialStateStore {
    var manifests: map<int, PartialManifest>

    constructor ()
      ensures manifests == map[]
    {
      manifests := map[];
    }

    /** Publish one manifest as authoritative for its resolution. */
    method Publish(m: PartialManifest, ghost world: World)
      requires Honest(manifests, world) && HonestManifest(m, world)
      modifies this
      ensures manifests == old(manifests)[m.width := m] && Honest(manifests, world)
    {
      assert m.Valid();
      manifests := manifests[m.width := m];
    }

    /** Apply a dirty-bucket patch to one resolution and drop the resolutions it makes stale. */
    method ApplyPatch(recipe: string, prior: string, next: string, width: I64, updates: Updates,
                      reason: PatchReason, rawRows: nat) returns (r: Result<PatchWork>)
      requires forall w :: w in manifests ==> manifests[w].width > 0
      modifies this
      ensures r.Ok? <==> Patchable(old(manifests), recipe, prior, next, width, updates, rawRows)
      ensures r.Ok? ==> manifests == Advanced(old(manifests), recipe, prior, next, width, updates)
      ensures r.Err? ==> manifests == old(manifests)
      ensures r.Ok? ==> r.value == PatchWork(reason, rawRows, |updates|, |Upserts(updates)|,
                                             |Removals(old(manifests)[width].partials, updates)|,
                                             |old(manifests).Keys - manifests.Keys|)
    {
      hide BucketAligned, Patched, Upserts, Removals;
      if next == "" || next == prior { return Err; }
      if updates == map[] && rawRows != 0 { return Err; }
      if width !in manifests || !Belongs(manifests[width], recipe, prior) { return Err; }
      var m := manifests[width];
      if exists k :: k in updates && !BucketAligned(k, m.width, m.origin) { return Err; }
      if updates == map[] {
        manifests :=
          map w | w in manifests ::
            if Belongs(manifests[w], recipe, prior) then manifests[w].(state := next) else manifests[w];
        assert old(manifests).Keys - manifests.Keys == {};
        NothingUpdated(m.partials, updates);
        return Ok(PatchWork(reason, rawRows, 0, 0, 0, 0));
      }
      var stale := set w | w in manifests && w != width && Belongs(manifests[w], recipe, prior);
      manifests := manifests - stale;
      var partials, upserted, removed := PatchPartials(m.partials, updates);
      manifests := manifests[width := m.(state := next, partials := partials)];
      assert old(manifests).Keys - manifests.Keys == stale;
      return Ok(PatchWork(reason, rawRows, |updates|, upserted, removed, |stale|));
    }

    /** The coarsest manifest that folds to the request. */
    method Candidate(recipe: string, state: string, width: I64, origin: I64) returns (best: Option<PartialManifest>)
      requires forall w :: w in manifests ==> manifests[w].width == w && w > 0
      ensures best.Some? ==>
        best.value in manifests.Values && best.value.width > 0 && Compatible(best.value, recipe, state, width, origin)
      ensures best.Some? ==>
        forall w :: w in manifests && Compatible(manifests[w], recipe, state, width, origin) ==> w <= best.value.width
      ensures best.None? ==> forall w :: w in manifests ==> !Compatible(manifests[w], recipe, state, width, origin)
    {
      hide Compatible;
      best := None;
      var todo := manifests.Keys;
      while todo != {}
        invariant todo <= manifests.Keys
        invariant best.Some? ==>
          best.value in manifests.Values && best.value.width > 0 && Compatible(best.value, recipe, state, width, origin)
        invariant forall w :: w in manifests && w !in todo && Compatible(manifests[w], recipe, state, width, origin) ==>
          best.Some? && w <= best.value.width
        decreases |todo|
      {
        ghost var some := Member(todo);
        var w: int :| w in todo;
        var m := manifests[w];
        if Compatible(m, recipe, state, width, origin) && (best.None? || m.width >= best.value.width) {
          best := Some(m);
        }
        todo := todo - {w};
      }
    }

    /** Why nothing stored can serve the request. */
    method RawCause(recipe: string, state: string) returns (reason: RawReason)
      ensures reason.MissingState? <==> manifests == map[]
      ensures reason.RecipeDiffers? <==>
        manifests != map[] && forall w :: w in manifests ==> manifests[w].recipe != recipe
      ensures reason.IncompatibleResolution? <==> exists w :: w in manifests && Belongs(manifests[w], recipe, state)
    {
      if manifests == map[] { return MissingState; }
      if forall w :: w in manifests ==> manifests[w].recipe != recipe { return RecipeDiffers; }
      if forall w :: w in manifests ==> !Belongs(manifests[w], recipe, state) { return SourceStateDiffers; }
      return IncompatibleResolution;
    }

    /** Resolve a request: reuse, fold the coarsest compatible finer state, or ask for raw input. */
    method Resolve(recipe: string, state: string, width: I64, origin: I64, ghost world: World)
      returns (r: Result<Resolution>)
      requires Honest(manifests, world)
      modifies this
      ensures Honest(manifests, world)
      ensures r.Err? ==> manifests == old(manifests)
      ensures r.Err? <==> width <= 0 || FoldBreaks(old(manifests), recipe, state, width, origin)
      ensures r.Ok? && !r.value.NeedsRaw? ==>
        && var m := r.value.manifest;
        && manifests == old(manifests)[width := m]
        && m == PartialManifest(recipe, state, width, origin, Full(world, recipe, state, width, origin))
      ensures r.Ok? && r.value.Exact? ==> manifests == old(manifests) && r.value.work == Work(0, 0, 0)
      ensures r.Ok? && r.value.Folded? ==>
        && Coarsest(old(manifests), recipe, state, width, origin, r.value.sourceWidth)
        && r.value.work == Work(0, |old(manifests)[r.value.sourceWidth].partials|, |r.value.manifest.partials|)
      ensures r.Ok? && r.value.NeedsRaw? ==> manifests == old(manifests)
      ensures r.Ok? && r.value.NeedsRaw? <==> width > 0 && Unservable(old(manifests), recipe, state, width, origin)
      ensures r.Ok? && r.value.Exact? <==> Held(old(manifests), recipe, state, width, origin)
    {
      hide Compatible, RollUp, Reduce, FoldFits;
      if width <= 0 { return Err; }
      if width in manifests && Belongs(manifests[width], recipe, state) && manifests[width].origin == origin {
        assert manifests == manifests[width := manifests[width]];
        return Ok(Exact(manifests[width], Work(0, 0, 0)));
      }
      var candidate := Candidate(recipe, state, width, origin);
      if candidate.None? {
        var reason := RawCause(recipe, state);
        return Ok(NeedsRaw(reason));
      }
      var fine := candidate.value;
      assert HonestManifest(fine, world);
      CompatibleRefines(fine, recipe, state, width, origin);
      var folded := FoldManifest(fine, width, origin);
      assert Coarsest(manifests, recipe, state, width, origin, fine.width);
      BreaksIs(manifests, recipe, state, width, origin, fine.width);
      if folded.Err? { return Err; }
      RollUpIsReduce(world(recipe, state), Grid(fine.width, fine.origin, 1), Grid(width, origin, 1));
      Publish(folded.value, world);
      return Ok(Folded(fine.width, folded.value, Work(0, |fine.partials|, |folded.value.partials|)));
    }
  }

  /** Exactly the requested state is stored. */
  ghost predicate Held(ms: map<int, PartialManifest>, recipe: string, state: string, width: I64, origin: I64) {
    width in ms && Belongs(ms[width], recipe, state) && ms[width].origin == origin
  }

  /** Every manifest has a window width and keys a manifest can name. */
  ghost predicate Storable(ms: map<int, PartialManifest>) {
    forall w :: w in ms ==> ms[w].width > 0 && forall k :: k in ms[w].partials ==> Representable(k)
  }

  /** The request is not stored, and the coarsest stored state that folds to it has a bucket whose fold
      leaves 64 bits. */
  ghost predicate FoldBreaks(ms: map<int, PartialManifest>, recipe: string, state: string, width: I64, origin: I64)
    requires width > 0 && Storable(ms)
  {
    && !Held(ms, recipe, state, width, origin)
    && exists w ::
         w in ms && Coarsest(ms, recipe, state, width, origin, w) && Overflowing(ms[w].partials, width, origin)
  }

  /** There is only one coarsest. */
  lemma BreaksIs(ms: map<int, PartialManifest>, recipe: string, state: string, width: I64, origin: I64, w: int)
    requires width > 0 && Storable(ms) && w in ms && Coarsest(ms, recipe, state, width, origin, w)
    requires !Held(ms, recipe, state, width, origin)
    ensures FoldBreaks(ms, recipe, state, width, origin) <==>
      exists k :: k in ms[w].partials && !FoldFits(k, width, origin)
  {
    hide FoldFits, Compatible;
    assert FoldBreaks(ms, recipe, state, width, origin) <==> Overflowing(ms[w].partials, width, origin);
  }

  /** Nothing stored is, or folds to, the request. */
  ghost predicate Unservable(ms: map<int, PartialManifest>, recipe: string, state: string, width: I64, origin: I64)
    requires forall w :: w in ms ==> ms[w].width > 0
  {
    && !Held(ms, recipe, state, width, origin)
    && (forall w :: w in ms ==> !Compatible(ms[w], recipe, state, width, origin))
  }

  /** `w` is the coarsest stored width that folds to the request. */
  ghost predicate Coarsest(ms: map<int, PartialManifest>, recipe: string, state: string, width: I64, origin: I64,
                           w: int)
    requires forall v :: v in ms ==> ms[v].width > 0
  {
    && w in ms && Compatible(ms[w], recipe, state, width, origin)
    && (forall v :: v in ms && Compatible(ms[v], recipe, state, width, origin) ==> v <= w)
  }

  ghost predicate Overflowing(m: Content, width: I64, origin: I64)
    requires width > 0 && forall k :: k in m ==> Representable(k)
  {
    exists k :: k in m && !FoldFits(k, width, origin)
  }

  lemma CompatibleRefines(m: PartialManifest, recipe: string, state: string, width: I64, origin: I64)
    requires m.width > 0 && width > 0 && Compatible(m, recipe, state, width, origin)
    ensures Refines(Grid(m.width, m.origin, 1), Grid(width, origin, 1)) && Belongs(m, recipe, state)
    ensures Compatible(m, m.recipe, m.state, width, origin)
  {
  }
}
