/**
 Sealing, compacting and publishing one resolution, and the build of the finest one from its sources.
 */
module LevelBuild {
  import opened Wrappers
  import opened Aggregate
  import opened SegmentCache
  import opened SourceSet
  import opened ResDirectory
  import opened Rollup
  import SizeTier

  // ----- sealing -----

  /** `lo` and `hi` are the oldest and the newest bucket. */
  ghost predicate Spans(full: Content, lo: int, hi: int) {
    && (forall k :: k in full ==> lo <= k.bucket <= hi)
    && (exists k :: k in full && k.bucket == lo) && (exists k :: k in full && k.bucket == hi)
  }

  lemma SpansUnique(full: Content, lo: int, hi: int, a: int, b: int)
    requires Spans(full, lo, hi) && Spans(full, a, b)
    ensures lo == a && hi == b
  {
    var x :| x in full && x.bucket == lo;
    var y :| y in full && y.bucket == hi;
    var u :| u in full && u.bucket == a;
    var v :| v in full && v.bucket == b;
  }

  method BucketBounds(full: Content) returns (b: Option<(int, int)>)
    ensures b.None? <==> full == map[]
    ensures b.Some? ==> Spans(full, b.value.0, b.value.1)
  {
    b := None;
    var todo := full.Keys;
    while todo != {}
      invariant todo <= full.Keys
      invariant b.None? ==> todo == full.Keys
      invariant b.Some? ==> forall k :: k in full.Keys - todo ==> b.value.0 <= k.bucket <= b.value.1
      invariant b.Some? ==> exists k :: k in full && k.bucket == b.value.0
      invariant b.Some? ==> exists k :: k in full && k.bucket == b.value.1
      decreases |todo|
    {
      var k :| k in todo;
      todo := todo - {k};
      var x := k.bucket;
      b := Some(match b
                case None => (x, x)
                case Some((lo, hi)) => (if lo <= x then lo else x, if hi >= x then hi else x));
    }
  }

  lemma SliceAgrees(full: Content, all: Content, lo: Option<int>, hi: Option<int>)
    requires AgreeFrom(full, all, lo)
    ensures Slice(full, lo, hi) == Slice(all, lo, hi)
  {
  }

  lemma SealStep(a: Files, b: Files, m: Manifest, wm: int, seg: Segment, all: Content, g: Grid, stale: seq<nat>)
    requires g.Valid() && Working(a, m, all, g) && (m.sealedHi.Some? ==> m.sealedHi.value < wm)
    requires seg.seqNo == m.nextSeq && seg.lo == m.sealedHi && seg.hi == wm && seg.digest != map[]
    requires seg.digest == Slice(all, m.sealedHi, Some(wm))
    requires SameBut(a, b, Seg(m.nextSeq)) && Seg(m.nextSeq) in b && b[Seg(m.nextSeq)] == Parquet(seg.digest)
    requires Discarded(stale, m.segments, m.nextSeq)
    ensures var out := m.(segments := m.segments + [seg], nextSeq := m.nextSeq + 1, sealedHi := Some(wm));
      && Working(b, out, all, g) && (Present(b, out.segments) <==> Present(a, m.segments))
      && Discarded(stale, out.segments, out.nextSeq)
  {
    hide ManifestOk, Sealed;
    var segs, out := m.segments, m.segments + [seg];
    SealKeepsSealed(segs, m.sealedHi, all, wm, seg);
    AppendNamed(segs, m.nextSeq, seg);
    DiskFrame(a, b, Seg(m.nextSeq), g);
    SegsFrame(a, b, Seg(m.nextSeq), segs);
    forall i | 0 <= i < |out| ensures Intact(b, out[i]) {
      if i < |segs| { assert Intact(b, segs[i]); }
    }
    if Present(b, segs) {
      forall i | 0 <= i < |out| ensures OnDisk(b, out[i]) { if i < |segs| { assert OnDisk(b, segs[i]); } }
    }
    if Present(b, out) {
      forall i | 0 <= i < |segs| ensures OnDisk(b, segs[i]) { assert OnDisk(b, out[i]); }
    }
    forall j | 0 <= j < |stale| ensures Unnamed(out, stale[j]) {
      assert Unnamed(segs, stale[j]);
    }
  }

  lemma SealEmpty(files: Files, m: Manifest, wm: int, all: Content, g: Grid)
    requires g.Valid() && Working(files, m, all, g) && (m.sealedHi.Some? ==> m.sealedHi.value < wm)
    requires Slice(all, m.sealedHi, Some(wm)) == map[]
    ensures Working(files, m.(sealedHi := Some(wm)), all, g)
  {
    hide ManifestOk, Sealed, Slice, Backed, Named, Recorded, NextFresh, DiskOk;
    SealKeepsSealed(m.segments, m.sealedHi, all, wm, Segment(m.nextSeq, m.sealedHi, wm, map[], 0));
  }

  lemma AgreeHigher(full: Content, all: Content, lo: Option<int>, hi: int)
    requires AgreeFrom(full, all, lo) && (lo.Some? ==> lo.value < hi)
    ensures AgreeFrom(full, all, Some(hi))
  {
  }

  /** How far a build should seal: to the window the lateness allows, once the hot part is large or long. */
  ghost function SealPoint(m: Manifest, policy: Policy, g: Grid, lo: int, hi: int): Option<int>
    requires g.Valid()
  {
    var wm, from := g.Floor(hi - m.lateness), if m.sealedHi.Some? then m.sealedHi.value else lo;
    if (m.sealedHi.Some? ==> m.sealedHi.value < wm)
       && (policy.targetBytes <= m.hotBytes || MAX_ACTIVE_SPAN_SECS <= wm - from)
    then Some(wm) else None
  }

  /** The manifest with everything up to `wm` sealed; a span without data gets no segment. */
  ghost function SealTo(m: Manifest, content: Content, wm: int, sizeOf: Content -> SizeTier.U64): Manifest {
    if content == map[] then m.(sealedHi := Some(wm))
    else m.(segments := m.segments + [Segment(m.nextSeq, m.sealedHi, wm, content, sizeOf(content))],
            nextSeq := m.nextSeq + 1, sealedHi := Some(wm))
  }

  ghost predicate SealedAs(m0: Manifest, m: Manifest, full: Content, policy: Policy, g: Grid,
                           sizeOf: Content -> SizeTier.U64)
    requires g.Valid()
  {
    && (full == map[] ==> m == m0)
    && forall lo, hi :: Spans(full, lo, hi) ==>
         match SealPoint(m0, policy, g, lo, hi)
         case None => m == m0
         case Some(wm) => m == SealTo(m0, Slice(full, m0.sealedHi, Some(wm)), wm, sizeOf)
  }

  /** What sealing promises: it never seals a bucket that may still be late, and what it leaves open is short
      and small, or no full window is old enough. */
  lemma SealPromise(m0: Manifest, m: Manifest, full: Content, policy: Policy, g: Grid, sizeOf: Content -> SizeTier.U64,
                    lo: int, hi: int)
    requires g.Valid() && SealedAs(m0, m, full, policy, g, sizeOf) && Spans(full, lo, hi)
    ensures m != m0 ==>
      m.sealedHi.Some? && hi - m0.lateness - g.width < m.sealedHi.value <= hi - m0.lateness
    ensures var open := if m.sealedHi.Some? then m.sealedHi.value else lo;
      hi - m0.lateness - open < MAX_ACTIVE_SPAN_SECS + g.width || m.sealedHi == Some(g.Floor(hi - m0.lateness))
    ensures m == m0 && m0.hotBytes >= policy.targetBytes ==>
      m0.sealedHi.Some? && hi - m0.lateness < m0.sealedHi.value + g.width
  {
    FloorMeans(hi - m0.lateness, g, g.Floor(hi - m0.lateness));
  }

  /** Freeze the buckets between the old and the new watermark once enough has accumulated. */
  method Seal(dir: ResDir, m0: Manifest, full: Content, policy: Policy, g: Grid, sizeOf: Content -> SizeTier.U64,
              ghost all: Content, ghost stale: seq<nat>)
    returns (alive: bool, m: Manifest)
    requires g.Valid() && Working(dir.files, m0, all, g) && AgreeFrom(full, all, m0.sealedHi)
    requires Discarded(stale, m0.segments, m0.nextSeq)
    modifies dir
    ensures DiskOk(dir.files, g)
    ensures alive ==> Working(dir.files, m, all, g) && AgreeFrom(full, all, m.sealedHi)
    ensures alive ==> (Present(dir.files, m.segments) <==> Present(old(dir.files), m0.segments))
    ensures alive ==> Discarded(stale, m.segments, m.nextSeq) && SealedAs(m0, m, full, policy, g, sizeOf)
    ensures alive ==> m0.nextSeq <= m.nextSeq && Adds(old(dir.files), dir.files, m0.nextSeq, m.nextSeq)
    ensures m == m0.(segments := m.segments, sealedHi := m.sealedHi, nextSeq := m.nextSeq)
    ensures old(dir.budget).None? ==> alive && dir.budget.None?
  {
    hide ManifestOk, Sealed, Slice, Present, Backed, Named, Recorded, Discarded, Layout, AgreeFrom, SealedAs, Adds,
         Spans;
    m := m0;
    AddsNothing(dir.files, m0.nextSeq);
    var bounds := BucketBounds(full);
    if bounds.None? {
      SealsNothing(m0, policy, g, sizeOf);
      return true, m;
    }
    SealsIs(m0, full, policy, g, sizeOf, bounds.value.0, bounds.value.1);
    var wm := g.Floor(bounds.value.1 - m.lateness);
    var activeLo := if m.sealedHi.Some? then m.sealedHi.value else bounds.value.0;
    var spanLarge := wm - activeLo >= MAX_ACTIVE_SPAN_SECS;
    if (m.sealedHi.Some? && wm <= m.sealedHi.value) || !(m.hotBytes >= policy.targetBytes || spanLarge) {
      return true, m;
    }
    var content := Slice(full, m.sealedHi, Some(wm));
    SliceAgrees(full, all, m.sealedHi, Some(wm));
    AgreeHigher(full, all, m.sealedHi, wm);
    alive := dir.WriteAtomic(Seg(m.nextSeq), Parquet(content));
    if !alive {
      DiskFrame(old(dir.files), dir.files, Tmp(Seg(m0.nextSeq)), g);
      return false, m;
    }
    var seg := Segment(m.nextSeq, m.sealedHi, wm, content, sizeOf(content));
    if content == map[] {
      DiskFrame(old(dir.files), dir.files, Seg(m0.nextSeq), g);
      alive := dir.Remove(Seg(m.nextSeq));
      if !alive { return false, m; }
      DropUnused(old(dir.files), dir.files, m0, all, g);
      AddsNamed(old(dir.files), dir.files, m0.nextSeq);
      SealEmpty(dir.files, m0, wm, all, g);
      m := m.(sealedHi := Some(wm));
    } else {
      SealStep(old(dir.files), dir.files, m0, wm, seg, all, g, stale);
      AddsNamed(old(dir.files), dir.files, m0.nextSeq);
      m := m.(segments := m.segments + [seg], nextSeq := m.nextSeq + 1, sealedHi := Some(wm));
    }
    return true, m;
  }

  lemma SealsNothing(m: Manifest, policy: Policy, g: Grid, sizeOf: Content -> SizeTier.U64)
    requires g.Valid()
    ensures SealedAs(m, m, map[], policy, g, sizeOf)
  {
  }

  lemma SealsIs(m0: Manifest, full: Content, policy: Policy, g: Grid, sizeOf: Content -> SizeTier.U64, lo: int, hi: int)
    requires g.Valid() && Spans(full, lo, hi)
    ensures SealPoint(m0, policy, g, lo, hi).None? ==> SealedAs(m0, m0, full, policy, g, sizeOf)
    ensures SealPoint(m0, policy, g, lo, hi).Some? ==>
      var wm := SealPoint(m0, policy, g, lo, hi).value;
      SealedAs(m0, SealTo(m0, Slice(full, m0.sealedHi, Some(wm)), wm, sizeOf), full, policy, g, sizeOf)
  {
    hide Slice, SealPoint, SealTo;
    forall a, b | Spans(full, a, b) ensures a == lo && b == hi { SpansUnique(full, lo, hi, a, b); }
    assert full != map[] by { var k :| k in full && k.bucket == lo; }
  }

  // ----- compaction -----

  /** The segment that replaces a window: its span, its content, under the next name. */
  ghost function MergeOf(segs: seq<Segment>, w: SizeTier.Window, next: nat, sizeOf: Content -> SizeTier.U64): Segment
    requires w.start < w.end <= |segs|
  {
    var content := ReadAll(Digests(segs[w.start..w.end]));
    Segment(next, segs[w.start].lo, segs[w.end - 1].hi, content, sizeOf(content))
  }

  /** One step of a compaction: the window the policy chooses, merged. */
  ghost predicate Merged(a: seq<Segment>, b: seq<Segment>, next: nat, maxSegments: nat,
                         sizeOf: Content -> SizeTier.U64) {
    exists w: SizeTier.Window ::
      && SizeTier.Chosen(Bytes(a), maxSegments, Some(w))
      && w.start < w.end <= |a| && b == Replace(a, w, MergeOf(a, w, next, sizeOf))
  }

  /** The lists of a compaction, one after each merge. */
  ghost predicate Trail(trail: seq<seq<Segment>>, next: nat, maxSegments: nat, sizeOf: Content -> SizeTier.U64) {
    trail != [] &&
    forall i, j :: 0 <= i && j == i + 1 && j < |trail| ==> Merged(trail[i], trail[j], next + i, maxSegments, sizeOf)
  }

  lemma TrailMore(trail: seq<seq<Segment>>, segs: seq<Segment>, next: nat, maxSegments: nat,
                  sizeOf: Content -> SizeTier.U64)
    requires Trail(trail, next, maxSegments, sizeOf)
    requires Merged(trail[|trail| - 1], segs, next + |trail| - 1, maxSegments, sizeOf)
    ensures Trail(trail + [segs], next, maxSegments, sizeOf)
  {
    hide Merged;
  }

  lemma CompactAccounted(was: seq<Segment>, lo: nat, segs: seq<Segment>, next: nat, w: SizeTier.Window, seg: Segment,
                         stale: seq<nat>)
    requires w.start < w.end <= |segs| && seg.seqNo == next
    requires Accounted(was, segs, stale) && Spent(lo, next, segs, stale)
    ensures var out, names := Replace(segs, w, seg), stale + SeqNos(segs[w.start..w.end]);
      Accounted(was, out, names) && Spent(lo, next + 1, out, names)
  {
    var out, window := Replace(segs, w, seg), segs[w.start..w.end];
    forall n | !Unnamed(segs, n) ensures !Unnamed(out, n) || n in SeqNos(window) {
      var i :| 0 <= i < |segs| && segs[i].seqNo == n;
      if w.start <= i < w.end {
        assert SeqNos(window)[i - w.start] == n;
      } else {
        assert out[if i < w.start then i else i - (w.end - w.start - 1)].seqNo == n;
      }
    }
    assert out[w.start] == seg;
  }

  function Bytes(segs: seq<Segment>): seq<SizeTier.U64> {
    seq(|segs|, i requires 0 <= i < |segs| => segs[i].bytes)
  }

  lemma CompactStep(a: Files, b: Files, m: Manifest, w: SizeTier.Window, seg: Segment, all: Content, g: Grid,
                    stale: seq<nat>)
    requires g.Valid() && Working(a, m, all, g) && w.start < w.end <= |m.segments|
    requires Present(a, m.segments[w.start..w.end])
    requires seg.seqNo == m.nextSeq && seg.lo == m.segments[w.start].lo && seg.hi == m.segments[w.end - 1].hi
    requires seg.digest == ReadAll(Digests(m.segments[w.start..w.end])) && seg.digest != map[]
    requires SameBut(a, b, Seg(m.nextSeq)) && Seg(m.nextSeq) in b && b[Seg(m.nextSeq)] == Parquet(seg.digest)
    requires Discarded(stale, m.segments, m.nextSeq)
    ensures var out := m.(segments := Replace(m.segments, w, seg), nextSeq := m.nextSeq + 1);
      && Working(b, out, all, g) && (Present(b, out.segments) <==> Present(a, m.segments))
      && Discarded(stale + SeqNos(m.segments[w.start..w.end]), out.segments, out.nextSeq)
  {
    hide ManifestOk, Sealed, ReadAll;
    var segs, window := m.segments, m.segments[w.start..w.end];
    CompactKeepsSealed(segs, m.sealedHi, all, w, seg);
    ReplaceNamed(segs, m.nextSeq, w, seg);
    DiskFrame(a, b, Seg(m.nextSeq), g);
    SegsFrame(a, b, Seg(m.nextSeq), segs);
    forall i | 0 <= i < |window| ensures OnDisk(b, window[i]) {
      assert OnDisk(a, window[i]);
      assert window[i] == segs[w.start + i];
    }
    BackedReplace(b, segs, w, seg);
    CompactDiscards(segs, m.nextSeq, w, seg, stale);
  }

  lemma CompactDiscards(segs: seq<Segment>, next: nat, w: SizeTier.Window, seg: Segment, stale: seq<nat>)
    requires Named(segs, next) && w.start < w.end <= |segs| && seg.seqNo == next && Discarded(stale, segs, next)
    ensures Discarded(stale + SeqNos(segs[w.start..w.end]), Replace(segs, w, seg), next + 1)
  {
    var out, d := Replace(segs, w, seg), w.end - w.start - 1;
    var names := stale + SeqNos(segs[w.start..w.end]);
    forall j | 0 <= j < |names| ensures names[j] < next + 1 && Unnamed(out, names[j]) {
      if j < |stale| {
        assert Unnamed(segs, stale[j]);
      } else {
        var x := w.start + j - |stale|;
        assert names[j] == segs[x].seqNo;
        forall i | 0 <= i < |out| ensures out[i].seqNo != names[j] {
          if i != w.start {
            var y := if i < w.start then i else i + d;
            assert if y < x then Distinct(segs[y], segs[x]) else Distinct(segs[x], segs[y]);
          }
        }
      }
    }
  }

  /** Merge adjacent segments until the size-tiered policy is satisfied. */
  method Compact(dir: ResDir, m0: Manifest, policy: Policy, g: Grid, sizeOf: Content -> SizeTier.U64,
                 stale0: seq<nat>, ghost all: Content)
    returns (o: Outcome, m: Manifest, stale: seq<nat>, ghost trail: seq<seq<Segment>>)
    requires g.Valid() && Working(dir.files, m0, all, g) && Discarded(stale0, m0.segments, m0.nextSeq)
    modifies dir
    ensures DiskOk(dir.files, g) && (Hot in dir.files <==> Hot in old(dir.files))
    ensures Hot in dir.files ==> dir.files[Hot] == old(dir.files)[Hot]
    ensures o.Failed? ==> !Present(old(dir.files), m0.segments)
    ensures o.Done? ==> Working(dir.files, m, all, g) && Discarded(stale, m.segments, m.nextSeq)
    ensures o.Done? ==> (Present(dir.files, m.segments) <==> Present(old(dir.files), m0.segments))
    ensures o.Done? ==> SizeTier.Chosen(Bytes(m.segments), policy.maxSegments, None)
    ensures o.Done? ==> |m.segments| <= 1 || |m.segments| <= policy.maxSegments
    ensures Trail(trail, m0.nextSeq, policy.maxSegments, sizeOf) && m.nextSeq == m0.nextSeq + |trail| - 1
    ensures trail != [] && trail[0] == m0.segments && trail[|trail| - 1] == m.segments
    ensures stale0 <= stale && Accounted(m0.segments, m.segments, stale)
    ensures Spent(m0.nextSeq, m.nextSeq, m.segments, stale)
    ensures o.Done? ==> Adds(old(dir.files), dir.files, m0.nextSeq, m.nextSeq)
    ensures m == m0.(segments := m.segments, nextSeq := m.nextSeq)
    ensures old(dir.budget).None? ==> !o.Crashed? && dir.budget.None?
  {
    hide ManifestOk, Sealed, ReadAll, Accounted, Spent, Trail, Merged, SizeTier.Chosen, Discarded, Adds, Present,
         Layout, Backed, NextFresh, DiskOk;
    m, stale, trail := m0, stale0, [m0.segments];
    AccountedSame(m0.segments, m0.nextSeq, stale0);
    TrailStart(m0.segments, m0.nextSeq, policy.maxSegments, sizeOf);
    AddsNothing(dir.files, m0.nextSeq);
    while true
      invariant Trail(trail, m0.nextSeq, policy.maxSegments, sizeOf) && m.nextSeq == m0.nextSeq + |trail| - 1
      invariant trail != [] && trail[0] == m0.segments && trail[|trail| - 1] == m.segments
      invariant stale0 <= stale && Accounted(m0.segments, m.segments, stale)
      invariant Spent(m0.nextSeq, m.nextSeq, m.segments, stale)
      invariant Adds(old(dir.files), dir.files, m0.nextSeq, m.nextSeq)
      invariant Working(dir.files, m, all, g) && Discarded(stale, m.segments, m.nextSeq)
      invariant (Hot in dir.files <==> Hot in old(dir.files))
      invariant Hot in dir.files ==> dir.files[Hot] == old(dir.files)[Hot]
      invariant Present(dir.files, m.segments) <==> Present(old(dir.files), m0.segments)
      invariant m == m0.(segments := m.segments, nextSeq := m.nextSeq)
      invariant old(dir.budget).None? ==> dir.budget.None?
      decreases |m.segments|
    {
      var choice := SizeTier.ChooseMergeWindow(Bytes(m.segments), policy.maxSegments);
      if choice.None? {
        ChosenCount(m.segments, policy.maxSegments);
        return Done, m, stale, trail;
      }
      var w := choice.value;
      ghost var before := dir.files;
      MergedIs(m.segments, w, m.nextSeq, policy.maxSegments, sizeOf);
      CompactAccounted(m0.segments, m0.nextSeq, m.segments, m.nextSeq, w, MergeOf(m.segments, w, m.nextSeq, sizeOf),
                       stale);
      var next, names;
      o, next, names := MergeWindow(dir, m, w, g, sizeOf, stale, all);
      if !o.Done? { return o, m, stale, trail; }
      AddsMore(old(dir.files), before, dir.files, m0.nextSeq, m.nextSeq, m.nextSeq + 1);
      TrailMore(trail, next.segments, m0.nextSeq, policy.maxSegments, sizeOf);
      m, stale, trail := next, names, trail + [next.segments];
    }
  }

  /** Read a window of segments and write their union under the next name. */
  method MergeWindow(dir: ResDir, m: Manifest, w: SizeTier.Window, g: Grid, sizeOf: Content -> SizeTier.U64,
                     stale: seq<nat>, ghost all: Content)
    returns (o: Outcome, next: Manifest, names: seq<nat>)
    requires g.Valid() && Working(dir.files, m, all, g) && Discarded(stale, m.segments, m.nextSeq)
    requires w.start < w.end <= |m.segments|
    modifies dir
    ensures DiskOk(dir.files, g) && (Hot in dir.files <==> Hot in old(dir.files))
    ensures Hot in dir.files ==> dir.files[Hot] == old(dir.files)[Hot]
    ensures o.Failed? ==> !Present(old(dir.files), m.segments)
    ensures o.Done? ==>
      && next ==
        m.(segments := Replace(m.segments, w, MergeOf(m.segments, w, m.nextSeq, sizeOf)), nextSeq := m.nextSeq + 1)
      && names == stale + SeqNos(m.segments[w.start..w.end])
    ensures o.Done? ==> Working(dir.files, next, all, g) && Discarded(names, next.segments, next.nextSeq)
    ensures o.Done? ==> (Present(dir.files, next.segments) <==> Present(old(dir.files), m.segments))
    ensures o.Done? ==> Adds(old(dir.files), dir.files, m.nextSeq, m.nextSeq + 1)
    ensures old(dir.budget).None? ==> !o.Crashed? && dir.budget.None?
  {
    hide Working, DiskOk, Backed, Present, Recorded, ReadAll, Discarded, Adds;
    next, names := m, stale;
    WorkingParts(dir.files, m, all, g);
    var window := m.segments[w.start..w.end];
    WindowBacked(dir.files, m.segments, w);
    var inputs := dir.ReadSegments(window);
    if inputs.Err? { return Failed, next, names; }
    var merged := ReadAll(inputs.value);
    MergedNonEmpty(m.segments, w);
    var alive := dir.WriteAtomic(Seg(m.nextSeq), Parquet(merged));
    if !alive {
      DiskFrame(old(dir.files), dir.files, Tmp(Seg(m.nextSeq)), g);
      return Crashed, next, names;
    }
    var seg := Segment(m.nextSeq, m.segments[w.start].lo, m.segments[w.end - 1].hi, merged, sizeOf(merged));
    CompactStep(old(dir.files), dir.files, m, w, seg, all, g, stale);
    AddsNamed(old(dir.files), dir.files, m.nextSeq);
    next := m.(segments := Replace(m.segments, w, seg), nextSeq := m.nextSeq + 1);
    WorkingParts(dir.files, next, all, g);
    return Done, next, stale + SeqNos(window);
  }

  lemma WorkingParts(files: Files, m: Manifest, all: Content, g: Grid)
    requires g.Valid() && Working(files, m, all, g)
    ensures DiskOk(files, g) && Backed(files, m.segments) && Recorded(m.segments)
  {
  }

  lemma TrailStart(segs: seq<Segment>, next: nat, maxSegments: nat, sizeOf: Content -> SizeTier.U64)
    ensures Trail([segs], next, maxSegments, sizeOf)
  {
  }

  lemma MergedIs(segs: seq<Segment>, w: SizeTier.Window, next: nat, maxSegments: nat, sizeOf: Content -> SizeTier.U64)
    requires SizeTier.Chosen(Bytes(segs), maxSegments, Some(w)) && w.start < w.end <= |segs|
    ensures Merged(segs, Replace(segs, w, MergeOf(segs, w, next, sizeOf)), next, maxSegments, sizeOf)
  {
    hide SizeTier.Chosen, ReadAll;
  }

  lemma ChosenCount(segs: seq<Segment>, maxSegments: nat)
    requires SizeTier.Chosen(Bytes(segs), maxSegments, None)
    ensures |segs| <= 1 || |segs| <= maxSegments
  {
  }

  lemma WindowBacked(files: Files, segs: seq<Segment>, w: SizeTier.Window)
    requires Backed(files, segs) && w.start < w.end <= |segs|
    ensures Backed(files, segs[w.start..w.end])
    ensures Present(files, segs) ==> Present(files, segs[w.start..w.end])
  {
    var window := segs[w.start..w.end];
    forall i | 0 <= i < |window| ensures Intact(files, window[i]) { assert Intact(files, segs[w.start + i]); }
    if Present(files, segs) {
      forall i | 0 <= i < |window| ensures OnDisk(files, window[i]) { assert OnDisk(files, segs[w.start + i]); }
    }
  }

  /** Segments are never empty, so neither is a merge of them. */
  lemma MergedNonEmpty(segs: seq<Segment>, w: SizeTier.Window)
    requires Recorded(segs) && w.start < w.end <= |segs|
    ensures ReadAll(Digests(segs[w.start..w.end])) != map[]
  {
    var files := Digests(segs[w.start..w.end]);
    assert files[0] == segs[w.start].digest;
    var k :| k in files[0];
    ReadCovers(files, 0, k);
  }

  // ----- publication -----

  lemma HotStep(a: Files, b: Files, m: Manifest, hot: Content, bytes: SizeTier.U64, all: Content, g: Grid)
    requires g.Valid() && Working(a, m, all, g) && SameBut(a, b, Hot) && Hot in b && b[Hot] == Parquet(hot)
    ensures Working(b, m.(hotDigest := Some(hot), hotBytes := bytes), all, g)
    ensures Present(b, m.segments) <==> Present(a, m.segments)
  {
    hide ManifestOk, Sealed;
    DiskFrame(a, b, Hot, g);
    SegsFrame(a, b, Hot, m.segments);
  }

  lemma RemoveStep(a: Files, n: nat, m: Manifest, g: Grid)
    requires g.Valid() && DiskOk(a, g) && ManifestFile in a && a[ManifestFile] == Json(m) && Unnamed(m.segments, n)
    ensures var b := a - {Seg(n)};
      && DiskOk(b, g) && ManifestFile in b && b[ManifestFile] == Json(m)
      && (Present(a, m.segments) <==> Present(b, m.segments))
  {
    hide ManifestOk;
    var b := a - {Seg(n)};
    DiskFewer(a, b, g);
    SegsFrame(a, b, Seg(n), m.segments);
  }

  /** Delete the superseded files of a manifest that is already published. */
  method RemoveSuperseded(dir: ResDir, stale: seq<nat>, g: Grid, ghost m: Manifest) returns (alive: bool)
    requires g.Valid() && DiskOk(dir.files, g) && ManifestFile in dir.files && dir.files[ManifestFile] == Json(m)
    requires Discarded(stale, m.segments, m.nextSeq) && Hot in dir.files
    modifies dir
    ensures DiskOk(dir.files, g) && ManifestFile in dir.files && dir.files[ManifestFile] == Json(m)
    ensures Hot in dir.files && dir.files[Hot] == old(dir.files)[Hot]
    ensures Present(dir.files, m.segments) <==> Present(old(dir.files), m.segments)
    ensures alive ==> forall n: nat :: Seg(n) in dir.files <==> Seg(n) in old(dir.files) && n !in stale
    ensures old(dir.budget).None? ==> alive && dir.budget.None?
  {
    hide ManifestOk;
    for i := 0 to |stale|
      invariant forall n: nat :: Seg(n) in dir.files <==> Seg(n) in old(dir.files) && n !in stale[..i]
      invariant DiskOk(dir.files, g) && ManifestFile in dir.files && dir.files[ManifestFile] == Json(m)
      invariant Hot in dir.files && dir.files[Hot] == old(dir.files)[Hot]
      invariant Present(dir.files, m.segments) <==> Present(old(dir.files), m.segments)
      invariant old(dir.budget).None? ==> dir.budget.None?
    {
      assert Unnamed(m.segments, stale[i]);
      RemoveStep(dir.files, stale[i], m, g);
      alive := dir.Remove(Seg(stale[i]));
      if !alive { return false; }
      assert stale[..i + 1] == stale[..i] + [stale[i]];
    }
    assert stale[..|stale|] == stale;
    return true;
  }

  lemma Published(files: Files, m: Manifest, now: Sources, all: Content, hot: Content, g: Grid,
                  source: Option<Artifacts>)
    requires g.Valid() && Truthful(now) && all == Direct(now.Keys, g) && Working(files, m, all, g)
    requires hot == Slice(all, m.sealedHi, None) && m.hotDigest == Some(hot)
    requires source.Some? ==> RollUp(source.value.Content(), g) == all
    ensures ManifestOk(m.(sources := now, sourceDigest := source), g)
  {
    hide Direct, Sealed;
  }

  /** Make the manifest durable, delete what it no longer names, and serve what it does. */
  method Publish(dir: ResDir, m: Manifest, stale: seq<nat>, g: Grid, ghost hot: Content)
    returns (o: Outcome, content: Content)
    requires g.Valid() && DiskOk(dir.files, g) && Backed(dir.files, m.segments) && ManifestOk(m, g)
    requires Hot in dir.files && dir.files[Hot] == Parquet(hot) && m.hotDigest == Some(hot)
    requires Discarded(stale, m.segments, m.nextSeq)
    modifies dir
    ensures DiskOk(dir.files, g)
    ensures o.Done? ==> ManifestFile in dir.files && dir.files[ManifestFile] == Json(m)
    ensures o.Done? ==> Hot in dir.files && dir.files[Hot] == Parquet(hot)
    ensures o.Done? ==> content == Direct(m.sources.Keys, g) && Present(dir.files, m.segments)
    ensures !o.Crashed? ==> (o.Done? <==> Present(old(dir.files), m.segments))
    ensures o.Done? ==> forall n: nat :: Seg(n) in dir.files <==> Seg(n) in old(dir.files) && n !in stale
    ensures old(dir.budget).None? ==> !o.Crashed? && dir.budget.None?
  {
    hide ManifestOk, Direct, ReadAll, Present, Discarded;
    content := map[];
    var alive := dir.WriteAtomic(ManifestFile, Json(m));
    if !alive {
      DiskFrame(old(dir.files), dir.files, Tmp(ManifestFile), g);
      return Crashed, content;
    }
    DiskPublish(old(dir.files), dir.files, m, g);
    SegsFrame(old(dir.files), dir.files, ManifestFile, m.segments);
    alive := RemoveSuperseded(dir, stale, g, m);
    if !alive { return Crashed, content; }
    var list := dir.ListMembers(m);
    if list.Err? { return Failed, content; }
    ManifestServes(m, g);
    return Done, ReadAll(list.value);
  }

  /** The list grew from `m0` to `m`: at most one segment sealed, then the merges of `trail` to a fixpoint. */
  ghost predicate Grown(m0: Manifest, s: Manifest, trail: seq<seq<Segment>>, m: Manifest, full: Content, policy: Policy,
                        g: Grid, sizeOf: Content -> SizeTier.U64)
    requires g.Valid()
  {
    && SealedAs(m0, s, full, policy, g, sizeOf)
    && Trail(trail, s.nextSeq, policy.maxSegments, sizeOf)
    && SizeTier.Chosen(Bytes(m.segments), policy.maxSegments, None)
    && trail[0] == s.segments && trail[|trail| - 1] == m.segments
    && m.sealedHi == s.sealedHi && m.nextSeq == s.nextSeq + |trail| - 1
  }

  /** A segment file that the list does not name was there before, neither named nor to be deleted. */
  ghost predicate Clears(was: Files, segs: seq<Segment>, stale: seq<nat>, files: Files, now: seq<Segment>) {
    forall n: nat :: Seg(n) in files && Unnamed(now, n) ==> Seg(n) in was && Unnamed(segs, n) && n !in stale
  }

  lemma ClearsAll(was: Files, m0: Manifest, stale0: seq<nat>, s: Manifest, mid: Files, m: Manifest, stale: seq<nat>,
                  files: Files)
    requires m0.nextSeq <= s.nextSeq && s.nextSeq <= m.nextSeq && stale0 <= stale
    requires Kept(m0.segments, s.segments) && Fresh(m0.nextSeq, s.nextSeq, s.segments)
    requires Adds(was, mid, m0.nextSeq, m.nextSeq)
    requires Accounted(s.segments, m.segments, stale) && Spent(s.nextSeq, m.nextSeq, m.segments, stale)
    requires forall n: nat :: Seg(n) in files <==> Seg(n) in mid && n !in stale
    ensures Clears(was, m0.segments, stale0, files, m.segments)
  {
    forall n: nat | Seg(n) in files && Unnamed(m.segments, n)
      ensures Seg(n) in was && Unnamed(m0.segments, n) && n !in stale0
    {
      assert n in stale0 ==> n in stale;
      assert Unnamed(s.segments, n);
    }
  }

  /** Every segment is still in the list. */
  ghost predicate Kept(was: seq<Segment>, now: seq<Segment>) {
    forall n: nat :: Unnamed(now, n) ==> Unnamed(was, n)
  }

  /** Every name given out is in the list. */
  ghost predicate Fresh(lo: nat, hi: nat, segs: seq<Segment>) {
    forall n: nat :: lo <= n < hi ==> !Unnamed(segs, n)
  }

  lemma SealKeepsNames(m0: Manifest, m: Manifest, full: Content, policy: Policy, g: Grid,
                       sizeOf: Content -> SizeTier.U64)
    requires g.Valid() && SealedAs(m0, m, full, policy, g, sizeOf)
    ensures Kept(m0.segments, m.segments) && Fresh(m0.nextSeq, m.nextSeq, m.segments) && m0.nextSeq <= m.nextSeq
  {
    hide SealPoint, Slice;
    if full != map[] {
      var b := SpansExist(full);
      match SealPoint(m0, policy, g, b.0, b.1) {
        case None =>
        case Some(wm) =>
          var content := Slice(full, m0.sealedHi, Some(wm));
          if content != map[] {
            assert m.segments[|m0.segments|].seqNo == m0.nextSeq;
            forall n: nat | Unnamed(m.segments, n) ensures Unnamed(m0.segments, n) {
              forall i | 0 <= i < |m0.segments|
                ensures m0.segments[i].seqNo != n
              {
                assert m.segments[i] == m0.segments[i];
              }
            }
          }
      }
    }
  }

  lemma SpansExist(full: Content) returns (b: (int, int))
    requires full != map[]
    ensures Spans(full, b.0, b.1)
  {
    var todo := full.Keys;
    var first :| first in full;
    var lo, hi := first.bucket, first.bucket;
    while todo != {}
      invariant todo <= full.Keys && lo <= hi
      invariant forall k :: k in full.Keys - todo ==> lo <= k.bucket <= hi
      invariant (exists k :: k in full && k.bucket == lo) && exists k :: k in full && k.bucket == hi
      decreases |todo|
    {
      var k :| k in todo;
      todo := todo - {k};
      if k.bucket < lo { lo := k.bucket; }
      if k.bucket > hi { hi := k.bucket; }
    }
    b := (lo, hi);
  }

  /** Seal, recompute hot, compact, publish the manifest, then delete and serve.  Nothing is
      deleted before the manifest that stops naming it is durable. */
  method Advance(dir: ResDir, m0: Manifest, full: Content, policy: Policy, g: Grid, sizeOf: Content -> SizeTier.U64,
                 now: Sources, source: Option<Artifacts>, stale0: seq<nat>, ghost all: Content)
    returns (o: Outcome, m: Manifest, content: Content, ghost sealed: Manifest, ghost trail: seq<seq<Segment>>)
    requires g.Valid() && Working(dir.files, m0, all, g) && AgreeFrom(full, all, m0.sealedHi)
    requires Discarded(stale0, m0.segments, m0.nextSeq)
    requires Truthful(now) && all == Direct(now.Keys, g)
    requires source.Some? ==> RollUp(source.value.Content(), g) == all
    modifies dir
    ensures DiskOk(dir.files, g)
    ensures o.Done? ==> ManifestFile in dir.files && dir.files[ManifestFile] == Json(m)
    ensures o.Done? ==>
      Hot in dir.files && Some(dir.files[Hot]) == (if m.hotDigest.Some? then Some(Parquet(m.hotDigest.value)) else None)
    ensures o.Done? ==> content == all && m.sources == now && m.sourceDigest == source
    ensures o.Done? ==> m.format == m0.format && m.lateness == m0.lateness
    ensures o.Done? ==> m.hotDigest.Some? && m.hotBytes == sizeOf(m.hotDigest.value)
    ensures o.Done? ==> Grown(m0, sealed, trail, m, full, policy, g, sizeOf)
    ensures o.Done? ==> Clears(old(dir.files), m0.segments, stale0, dir.files, m.segments)
    ensures o.Done? ==> Present(dir.files, m.segments)
    ensures !o.Crashed? ==> (o.Done? <==> Present(old(dir.files), m0.segments))
    ensures old(dir.budget).None? ==> !o.Crashed? && dir.budget.None?
  {
    hide ManifestOk, Sealed, Direct, RollUp, ReadAll, Present, Named, Recorded, AgreeFrom, Discarded, Slice,
         SizeTier.Chosen, Truthful, Backed, Layout, NextFresh, SealedAs, Trail, Adds, Accounted, Spent, Kept, Fresh,
         Clears;
    content, sealed, trail := map[], m0, [];
    var alive;
    alive, m := Seal(dir, m0, full, policy, g, sizeOf, all, stale0);
    sealed := m;
    if !alive { return Crashed, m, content, sealed, trail; }
    SealKeepsNames(m0, m, full, policy, g, sizeOf);
    var hot := Slice(full, m.sealedHi, None);
    SliceAgrees(full, all, m.sealedHi, None);
    ghost var before := dir.files;
    alive := dir.WriteAtomic(Hot, Parquet(hot));
    if !alive {
      DiskFrame(before, dir.files, Tmp(Hot), g);
      return Crashed, m, content, sealed, trail;
    }
    HotStep(before, dir.files, m, hot, sizeOf(hot), all, g);
    AddsHot(old(dir.files), before, dir.files, m0.nextSeq, m.nextSeq);
    ghost var mid := dir.files;
    m := m.(hotDigest := Some(hot), hotBytes := sizeOf(hot));
    var stale;
    o, m, stale, trail := Compact(dir, m, policy, g, sizeOf, stale0, all);
    if !o.Done? { return o, m, content, sealed, trail; }
    AddsMore(old(dir.files), mid, dir.files, m0.nextSeq, sealed.nextSeq, m.nextSeq);
    mid := dir.files;
    Published(dir.files, m, now, all, hot, g, source);
    m := m.(sources := now, sourceDigest := source);
    o, content := Publish(dir, m, stale, g, hot);
    if o.Done? { ClearsAll(old(dir.files), m0, stale0, sealed, mid, m, stale, dir.files); }
  }

  lemma AddsHot(was: Files, before: Files, files: Files, lo: nat, hi: nat)
    requires Adds(was, before, lo, hi) && SameBut(before, files, Hot)
    ensures Adds(was, files, lo, hi)
  {
  }

  lemma AddsMore(was: Files, mid: Files, files: Files, a: nat, b: nat, c: nat)
    requires a <= b <= c && Adds(was, mid, a, b) && Adds(mid, files, b, c)
    ensures Adds(was, files, a, c)
  {
  }

  // ----- the finest resolution -----

  function Usable(files: Files, lateness: int): Option<Manifest> {
    if ManifestFile in files && files[ManifestFile].Json? then
      var m := files[ManifestFile].manifest;
      if m.hotDigest.Some? && Hot in files && files[Hot] != Parquet(m.hotDigest.value) then None
      else if m.format == SEALED_FORMAT && m.lateness == lateness then Some(m)
      else None
    else None
  }

  datatype Built = Built(content: Content, output: Artifacts, change: LevelChange,
                         rebuilt: bool) | BuildFailed | BuildCrashed

  /** The change a build reports is true of the manifest it started from. */
  ghost predicate ChangeTruthful(prior: Option<Manifest>, change: LevelChange, now: Sources, g: Grid)
    requires g.Valid()
  {
    match change
    case Nothing => prior.Some? && Direct(prior.value.sources.Keys, g) == Direct(now.Keys, g)
    case Since(lo) => prior.Some? && AgreeBelow(Direct(prior.value.sources.Keys, g), Direct(now.Keys, g), lo)
    case Everything => true
  }

  function DirtyBucket(lo: Option<int>, g: Grid): Option<int>
    requires g.Valid()
  {
    if lo.Some? then Some(g.Bucket(lo.value)) else None
  }

  /** Everything the published manifest names is there. */
  ghost predicate Complete(files: Files) {
    && ManifestFile in files && files[ManifestFile].Json? && Hot in files
    && Present(files, files[ManifestFile].manifest.segments)
  }

  /** Nothing was published, or nothing of it is missing. */
  ghost predicate Whole(files: Files) {
    files == map[] || Complete(files)
  }

  /** A build answers with the direct reduction of its sources, and has published it. */
  ghost predicate Delivers(files: Files, r: Built, now: Sources, lateness: int, g: Grid)
    requires g.Valid() && r.Built?
  {
    && UpToDate(Usable(files, lateness), now) && Usable(files, lateness).value.Output() == r.output
    && r.content == r.output.Content() == Direct(now.Keys, g)
  }

  /** The members the build will have to read are there. */
  ghost predicate Healthy(files: Files, now: Sources, lateness: int, g: Grid)
    requires g.Valid()
  {
    match Usable(files, lateness)
    case None => true
    case Some(m) =>
      if m.sources == now then Present(files, m.segments) && Hot in files
      else forall lo :: IsDirtyLo(m.sources, now, lo) ==> Needed(files, m.segments, DirtyBucket(lo, g))
  }

  /** The sealed history below a bounded dirty point survives the change of source. */
  lemma WorkTransfers(files: Files, m: Manifest, before: Sources, now: Sources, lo: Option<int>, g: Grid)
    requires g.Valid() && Truthful(before) && Truthful(now) && IsDirtyLo(before, now, lo)
    requires Working(files, m, Direct(before.Keys, g), g)
    requires m.sealedHi.Some? ==> lo.Some? && m.sealedHi.value <= g.Bucket(lo.value)
    ensures Working(files, m, Direct(now.Keys, g), g)
    ensures lo.Some? ==> AgreeBelow(Direct(before.Keys, g), Direct(now.Keys, g), g.Bucket(lo.value))
  {
    hide ManifestOk, Direct;
    if lo.Some? {
      UnreachedBuckets(before, now, g, lo.value);
      SealedTransfers(m.segments, m.sealedHi, g.Bucket(lo.value), Direct(before.Keys, g), Direct(now.Keys, g));
    } else {
      AllClean(m.segments, m.sealedHi, None);
    }
  }

  lemma PrunedInput(now: Sources, g: Grid, sealedHi: Option<int>)
    requires SecondGrid(g) && Truthful(now)
    ensures AgreeFrom(Direct(Retained(now, if sealedHi.Some? then Some(SecsToUs(sealedHi.value)) else None), g),
                      Direct(now.Keys, g), sealedHi)
  {
    hide Direct;
    if sealedHi.Some? {
      PruningLosesNothing(now, g, sealedHi.value);
    } else {
      assert Retained(now, None) == now.Keys;
    }
  }

  lemma SameOutput(a: Manifest, b: Manifest, g: Grid)
    requires g.Valid() && ManifestOk(a, g) && ManifestOk(b, g) && a.Output() == b.Output()
    ensures Direct(a.sources.Keys, g) == Direct(b.sources.Keys, g)
  {
    OutputContent(a, g);
    OutputContent(b, g);
  }

  lemma FreshWork(g: Grid, all: Content, policy: Policy)
    requires g.Valid()
    ensures Working(map[], FreshManifest(policy), all, g) && Present(map[], FreshManifest(policy).segments)
  {
  }

  function FreshManifest(policy: Policy): Manifest {
    Manifest(SEALED_FORMAT, policy.lateness, None, 0, [], None, 0, map[], None)
  }

  predicate UpToDate(prior: Option<Manifest>, now: Sources) {
    prior.Some? && prior.value.sources == now
  }

  /** The change between two source sets, as a level reports it. */
  ghost predicate IsChange(before: Sources, now: Sources, change: LevelChange, g: Grid)
    requires g.Valid()
  {
    forall lo :: IsDirtyLo(before, now, lo) ==> change == if lo.Some? then Since(g.Bucket(lo.value)) else Everything
  }

  /** No change of the sources reaches below what the level has sealed. */
  ghost predicate Continues(m: Manifest, now: Sources, g: Grid)
    requires g.Valid()
  {
    forall lo :: IsDirtyLo(m.sources, now, lo) ==> lo.Some? && PastSealed(m.sealedHi, DirtyBucket(lo, g))
  }

  /** Bring the directory to where the sources can be folded: reopened where they changed, or wiped. */
  method Open(dir: ResDir, g: Grid, now: Sources, policy: Policy, sizeOf: Content -> SizeTier.U64)
    returns (o: Outcome, m: Manifest, stale: seq<nat>, change: LevelChange)
    requires g.Valid() && Truthful(now) && DiskOk(dir.files, g)
    requires !UpToDate(Usable(dir.files, policy.lateness), now)
    modifies dir
    ensures DiskOk(dir.files, g)
    ensures o.Failed? ==> !Healthy(old(dir.files), now, policy.lateness, g)
    ensures o.Done? ==> Working(dir.files, m, Direct(now.Keys, g), g) && Discarded(stale, m.segments, m.nextSeq)
    ensures o.Done? ==> m.format == SEALED_FORMAT && m.lateness == policy.lateness
    ensures o.Done? ==> (Present(dir.files, m.segments) <==> Healthy(old(dir.files), now, policy.lateness, g))
    ensures o.Done? ==> match Usable(old(dir.files), policy.lateness)
                        case None =>
                          dir.files == map[] && m == FreshManifest(policy) && stale == [] && change == Everything
                        case Some(prior) => Opened(old(dir.files), prior, dir.files, m, stale, change, now, g)
    ensures old(dir.budget).None? ==> !o.Crashed? && dir.budget.None?
    ensures Usable(old(dir.files), policy.lateness).None? && |old(dir.files)| > 1 && old(dir.budget) == Some(1)
            && old(dir.order) != [] && old(dir.order)[0] in old(dir.files)
            ==> o.Crashed? && dir.files == old(dir.files) - {old(dir.order)[0]}
  {
    hide ManifestOk, Direct, Sealed, Needed, Named, Recorded, AgreeBelow, IsDirtyLo, Slice, Truthful, Layout, NextFresh,
         Accounted, Spent, Adds, KeepsSealed, Discarded, Present;
    var prior := Usable(dir.files, policy.lateness);
    m, stale, change := FreshManifest(policy), [], Everything;
    if prior.Some? {
      var lo := DirtyLoUs(prior.value.sources, now);
      ghost var before := Direct(prior.value.sources.Keys, g);
      ManifestWorks(dir.files, prior.value, g);
      o, m, stale := Unseal(dir, prior.value, DirtyBucket(lo, g), g, sizeOf, before);
      HealthyAdvance(old(dir.files), prior.value, now, policy.lateness, lo, g);
      if lo.Some? { change := Since(g.Bucket(lo.value)); }
      if o.Done? {
        WorkTransfers(dir.files, m, prior.value.sources, now, lo, g);
        OpenedIs(old(dir.files), prior.value, dir.files, m, stale, change, lo, now, g);
      }
    } else {
      var alive := dir.Wipe();
      DiskFewer(old(dir.files), dir.files, g);
      FreshWork(g, Direct(now.Keys, g), policy);
      NothingDiscarded();
      o := if alive then Done else Crashed;
    }
  }

  lemma NothingDiscarded()
    ensures Discarded([], [], 0)
  {
  }

  /** What reopening leaves: the exact change, nothing sealed below it given up, every name accounted for,
      and the manifest untouched when the change does not reach the sealed part. */
  ghost predicate Opened(was: Files, prior: Manifest, files: Files, m: Manifest, stale: seq<nat>, change: LevelChange,
                         now: Sources, g: Grid)
    requires g.Valid()
  {
    && IsChange(prior.sources, now, change, g) && !change.Nothing? && ChangeTruthful(Some(prior), change, now, g)
    && (change.Since? ==> KeepsSealed(prior.sealedHi, m.sealedHi, Some(change.lo), Direct(prior.sources.Keys, g)))
    && Accounted(prior.segments, m.segments, stale) && Spent(prior.nextSeq, m.nextSeq, m.segments, stale)
    && Adds(was, files, prior.nextSeq, m.nextSeq)
    && (Continues(prior, now, g) ==> m == prior && stale == [])
  }

  lemma OpenedIs(was: Files, prior: Manifest, files: Files, m: Manifest, stale: seq<nat>, change: LevelChange,
                 lo: Option<int>, now: Sources, g: Grid)
    requires g.Valid() && Truthful(prior.sources) && Truthful(now) && prior.sources != now
    requires IsDirtyLo(prior.sources, now, lo)
    requires change == if lo.Some? then Since(g.Bucket(lo.value)) else Everything
    requires lo.Some? ==> AgreeBelow(Direct(prior.sources.Keys, g), Direct(now.Keys, g), g.Bucket(lo.value))
    requires KeepsSealed(prior.sealedHi, m.sealedHi, DirtyBucket(lo, g), Direct(prior.sources.Keys, g))
    requires Accounted(prior.segments, m.segments, stale) && Spent(prior.nextSeq, m.nextSeq, m.segments, stale)
    requires Adds(was, files, prior.nextSeq, m.nextSeq)
    requires lo.Some? && PastSealed(prior.sealedHi, DirtyBucket(lo, g)) ==> m == prior && stale == []
    ensures Opened(was, prior, files, m, stale, change, now, g)
  {
    hide IsDirtyLo, Direct, KeepsSealed, Accounted, Spent, Adds, AgreeBelow;
    forall x | IsDirtyLo(prior.sources, now, x) ensures x == lo { DirtyLoUnique(prior.sources, now, lo, x); }
  }

  /** The list grew from `m0` to `m` by sealing and compacting, over content that agrees with `all`. */
  ghost predicate Grew(m0: Manifest, m: Manifest, all: Content, policy: Policy, g: Grid,
                       sizeOf: Content -> SizeTier.U64)
    requires g.Valid()
  {
    exists full, s, trail :: Grown(m0, s, trail, m, full, policy, g, sizeOf) && AgreeFrom(full, all, m0.sealedHi)
  }

  /** What a finished build reports and leaves, by the manifest it started from. */
  ghost predicate Follows(was: Files, prior: Option<Manifest>, files: Files, m: Manifest, r: Built, now: Sources,
                          policy: Policy, g: Grid, sizeOf: Content -> SizeTier.U64)
    requires g.Valid() && r.Built?
  {
    match prior
    case None =>
      && r.change == Everything && r.rebuilt && Grew(FreshManifest(policy), m, Direct(now.Keys, g), policy, g, sizeOf)
      && Clears(map[], [], [], files, m.segments)
    case Some(p) =>
      && !r.rebuilt && (r.change == Nothing || IsChange(p.sources, now, r.change, g))
      && (r.change == Nothing <==> p.Output() == r.output)
      && Clears(was, p.segments, [], files, m.segments)
      && (p.sources != now && Continues(p, now, g) ==> Grew(p, m, Direct(now.Keys, g), policy, g, sizeOf))
  }

  /** Build the finest resolution for the sources `now`.  After a crash at any step the directory
      is still sound; a build that returns content returns exactly the direct reduction, reports a
      true change, and returns one if and only if the members it depends on are there. */
  method BuildFromSource(dir: ResDir, g: Grid, now: Sources, policy: Policy, sizeOf: Content -> SizeTier.U64)
    returns (r: Built)
    requires SecondGrid(g) && Truthful(now) && DiskOk(dir.files, g)
    modifies dir
    ensures DiskOk(dir.files, g)
    ensures r.Built? ==> Delivers(dir.files, r, now, policy.lateness, g)
    ensures r.Built? ==> ChangeTruthful(Usable(old(dir.files), policy.lateness), r.change, now, g)
    ensures r.Built? ==> Follows(old(dir.files), Usable(old(dir.files), policy.lateness), dir.files,
                                 Usable(dir.files, policy.lateness).value, r, now, policy, g, sizeOf)
    ensures !r.BuildCrashed? ==> (r.Built? <==> Healthy(old(dir.files), now, policy.lateness, g))
    ensures UpToDate(Usable(old(dir.files), policy.lateness), now) ==>
      dir.files == old(dir.files) && (r.Built? ==> r.change == Nothing && !r.rebuilt)
    ensures r.Built? ==> Complete(dir.files)
    ensures old(dir.budget).None? ==> !r.BuildCrashed? && dir.budget.None?
    ensures Usable(old(dir.files), policy.lateness).None? && |old(dir.files)| > 1 && old(dir.budget) == Some(1)
            && old(dir.order) != [] && old(dir.order)[0] in old(dir.files)
            ==> r.BuildCrashed? && dir.files == old(dir.files) - {old(dir.order)[0]}
  {
    hide ManifestOk, Direct, Sealed, ReadAll, Needed, Named, Recorded, AgreeBelow, IsDirtyLo, Slice, Truthful, Layout,
         NextFresh, Opened, Grown, Clears, Follows, Discarded, Healthy, AgreeFrom, ChangeTruthful;
    var prior := Usable(dir.files, policy.lateness);
    if UpToDate(prior, now) {
      var m := prior.value;
      UpToDateHealthy(dir.files, now, policy.lateness, g);
      var list := dir.ListMembers(m);
      if list.Err? { return BuildFailed; }
      ManifestServes(m, g);
      OutputContent(m, g);
      r := Built(ReadAll(list.value), m.Output(), Nothing, false);
      FollowsSame(dir.files, m, r, now, policy, g, sizeOf);
      return;
    }
    ghost var was := dir.files;
    var o, m, stale, change := Open(dir, g, now, policy, sizeOf);
    if o.Failed? { return BuildFailed; }
    if o.Crashed? { return BuildCrashed; }
    ghost var mid := dir.files;
    var readLo := if m.sealedHi.Some? then Some(SecsToUs(m.sealedHi.value)) else None;
    var full := GroupBy(Retained(now, readLo), g);
    PrunedInput(now, g, m.sealedHi);
    ghost var sealed, trail;
    var out, content;
    o, out, content, sealed, trail := Advance(dir, m, full, policy, g, sizeOf, now, None, stale, Direct(now.Keys, g));
    if o.Failed? { return BuildFailed; }
    if o.Crashed? { return BuildCrashed; }
    OutputContent(out, g);
    if prior.Some? { OpenedTrue(was, prior.value, mid, m, stale, change, now, g); }
    r := Built(content, out.Output(), if prior.Some? && prior.value.Output() == out.Output() then Nothing else change,
               prior.None?);
    FollowsBuilt(was, prior, mid, m, stale, change, dir.files, out, full, sealed, trail, r, now, policy, g, sizeOf);
    ReportTrue(prior, out, change, r, now, g);
  }

  lemma UpToDateHealthy(files: Files, now: Sources, lateness: int, g: Grid)
    requires g.Valid() && UpToDate(Usable(files, lateness), now)
    ensures Healthy(files, now, lateness, g) <==>
      Present(files, Usable(files, lateness).value.segments) && Hot in files
  {
  }

  lemma FollowsSame(files: Files, m: Manifest, r: Built, now: Sources, policy: Policy, g: Grid,
                    sizeOf: Content -> SizeTier.U64)
    requires g.Valid() && r.Built? && r.change == Nothing && !r.rebuilt && r.output == m.Output() && m.sources == now
    ensures Follows(files, Some(m), files, m, r, now, policy, g, sizeOf)
    ensures ChangeTruthful(Some(m), r.change, now, g)
  {
    hide Direct, IsDirtyLo, Grew, Continues;
  }

  lemma OpenedTrue(was: Files, prior: Manifest, files: Files, m: Manifest, stale: seq<nat>, change: LevelChange,
                   now: Sources, g: Grid)
    requires g.Valid() && Opened(was, prior, files, m, stale, change, now, g)
    ensures ChangeTruthful(Some(prior), change, now, g)
  {
  }

  /** A build that opened and advanced follows from the manifest it started from. */
  lemma FollowsBuilt(was: Files, prior: Option<Manifest>, mid: Files, m: Manifest, stale: seq<nat>, change: LevelChange,
                     files: Files, out: Manifest, full: Content, s: Manifest, trail: seq<seq<Segment>>, r: Built,
                     now: Sources, policy: Policy, g: Grid, sizeOf: Content -> SizeTier.U64)
    requires g.Valid() && r.Built? && !UpToDate(prior, now) && r.output == out.Output() && r.rebuilt == prior.None?
    requires r.change == if prior.Some? && prior.value.Output() == out.Output() then Nothing else change
    requires Grown(m, s, trail, out, full, policy, g, sizeOf) && AgreeFrom(full, Direct(now.Keys, g), m.sealedHi)
    requires Clears(mid, m.segments, stale, files, out.segments)
    requires prior.None? ==> mid == map[] && m == FreshManifest(policy) && stale == [] && change == Everything
    requires prior.Some? ==> Opened(was, prior.value, mid, m, stale, change, now, g)
    ensures Follows(was, prior, files, out, r, now, policy, g, sizeOf)
  {
    hide Grown, AgreeFrom, Direct, IsChange, Continues, KeepsSealed, ChangeTruthful;
    assert Grew(m, out, Direct(now.Keys, g), policy, g, sizeOf);
    if prior.Some? {
      hide Grew;
      OpenedClears(was, prior.value, mid, m, stale, files, out.segments);
    }
  }

  lemma OpenedClears(was: Files, prior: Manifest, mid: Files, m: Manifest, stale: seq<nat>, files: Files,
                     now: seq<Segment>)
    requires Accounted(prior.segments, m.segments, stale) && Spent(prior.nextSeq, m.nextSeq, m.segments, stale)
    requires Adds(was, mid, prior.nextSeq, m.nextSeq) && Clears(mid, m.segments, stale, files, now)
    ensures Clears(was, prior.segments, [], files, now)
  {
  }

  /** Either way the change reported is true. */
  lemma ReportTrue(prior: Option<Manifest>, out: Manifest, change: LevelChange, r: Built, now: Sources, g: Grid)
    requires g.Valid() && r.Built? && ManifestOk(out, g) && out.sources == now
    requires prior.Some? ==> ManifestOk(prior.value, g) && ChangeTruthful(prior, change, now, g)
    requires prior.None? ==> change == Everything
    requires r.change == if prior.Some? && prior.value.Output() == out.Output() then Nothing else change
    ensures ChangeTruthful(prior, r.change, now, g)
  {
    hide ManifestOk, Direct, AgreeBelow;
    if prior.Some? && prior.value.Output() == out.Output() { SameOutput(prior.value, out, g); }
  }

  lemma ManifestServes(m: Manifest, g: Grid)
    requires g.Valid() && ManifestOk(m, g)
    ensures m.hotDigest.Some? && ReadAll(Digests(m.segments) + [m.hotDigest.value]) == Direct(m.sources.Keys, g)
  {
    hide Direct, Sealed, ReadAll;
    ServedExactly(m.segments, m.sealedHi, m.hotDigest.value, Direct(m.sources.Keys, g));
  }

  lemma ManifestWorks(files: Files, m: Manifest, g: Grid)
    requires g.Valid() && DiskOk(files, g) && ManifestFile in files && files[ManifestFile] == Json(m)
    ensures Working(files, m, Direct(m.sources.Keys, g), g) && Truthful(m.sources)
  {
    hide Direct, Sealed;
  }

  lemma HealthyAdvance(files: Files, m: Manifest, now: Sources, lateness: int, lo: Option<int>, g: Grid)
    requires g.Valid() && Usable(files, lateness) == Some(m) && m.sources != now
    requires Truthful(m.sources) && Truthful(now) && IsDirtyLo(m.sources, now, lo)
    ensures Healthy(files, now, lateness, g) <==> Needed(files, m.segments, DirtyBucket(lo, g))
  {
    hide Needed, IsDirtyLo;
    forall x | IsDirtyLo(m.sources, now, x) ensures x == lo { DirtyLoUnique(m.sources, now, lo, x); }
  }

  lemma WholeIsHealthy(files: Files, now: Sources, lateness: int, g: Grid)
    requires g.Valid() && Whole(files)
    ensures Healthy(files, now, lateness, g)
  {
    hide IsDirtyLo;
  }
}
