/**
 Layout of one resolution of the partial-aggregate cache: immutable segments over disjoint
 bucket ranges, one hot file for everything at or above the watermark, and a manifest.

 Everything here is stated against `all`, the content the resolution stands for (the direct
 reduction of its sources).  `Sealed` is the invariant of the segment list; the lemmas say
 that reading, unsealing, sealing and compacting respect it.
 */
module SegmentCache {
  import opened Wrappers
  import opened Aggregate
  import SizeTier

  /** One immutable file covering bucket starts in `[lo, hi)`; no `lo` means unbounded below.
      A digest stands for the content it was computed from (digests are injective). */
  datatype Segment = Segment(seqNo: nat, lo: Option<int>, hi: int, digest: Content, bytes: SizeTier.U64) {
    predicate Holds(b: int) {
      (lo.None? || lo.value <= b) && b < hi
    }
  }

  predicate InRange(b: int, lo: Option<int>, hi: Option<int>) {
    (lo.None? || lo.value <= b) && (hi.None? || b < hi.value)
  }

  /** The part of `all` whose bucket starts lie in the half-open range. */
  function Slice(all: Content, lo: Option<int>, hi: Option<int>): Content {
    map k | k in all && InRange(k.bucket, lo, hi) :: all[k]
  }

  // ----- reading several files as one table -----

  /** `GROUP BY` over two files: a key in both is merged, which is how a double count would show. */
  function MergeContent(a: Content, b: Content): Content {
    map k | k in a.Keys + b.Keys ::
      if k in a && k in b then Merge(a[k], b[k]) else if k in a then a[k] else b[k]
  }

  function ReadAll(files: seq<Content>): Content {
    if files == [] then map[] else MergeContent(ReadAll(files[..|files| - 1]), files[|files| - 1])
  }

  /** Reading two files as one gives what reducing the rows behind both gives: a key in both counts the rows of both. */
  lemma ReadTwo(a: seq<Row>, b: seq<Row>, g: Grid)
    requires g.Valid()
    ensures MergeContent(Reduce(a, g), Reduce(b, g)) == Reduce(a + b, g)
  {
    hide Fold, Merge, Keys;
    var read, both := MergeContent(Reduce(a, g), Reduce(b, g)), Reduce(a + b, g);
    forall k: PartialKey ensures (k in both <==> k in read) && (k in both ==> both[k] == read[k]) {
      FoldPresence(a, g, k);
      FoldPresence(b, g, k);
      FoldPresence(a + b, g, k);
      FoldConcat(a, b, g, k);
      MergeLaws(Fold(a, g, k), Fold(b, g, k), EMPTY);
      MergeLaws(Fold(b, g, k), EMPTY, EMPTY);
    }
  }

  /** File `i`, and no other, has an entry for `k`. */
  ghost predicate OnlyIn(files: seq<Content>, k: PartialKey, i: nat) {
    && i < |files| && k in files[i]
    && forall j :: 0 <= j < |files| && j != i ==> k !in files[j]
  }

  ghost predicate OnceIn(files: seq<Content>, k: PartialKey, v: Partial) {
    exists i: nat :: OnlyIn(files, k, i) && files[i][k] == v
  }

  /** Each key of `all` sits in exactly one file, with its value, and no file has another key. */
  ghost predicate ExactlyOnce(files: seq<Content>, all: Content) {
    && (forall k :: k in all ==> OnceIn(files, k, all[k]))
    && (forall i, k :: 0 <= i < |files| && k in files[i] ==> k in all)
  }

  lemma {:induction false} ReadAbsent(files: seq<Content>, k: PartialKey)
    requires forall j :: 0 <= j < |files| ==> k !in files[j]
    ensures k !in ReadAll(files)
  {
    if files != [] { ReadAbsent(files[..|files| - 1], k); }
  }

  lemma {:induction false} ReadOnly(files: seq<Content>, k: PartialKey, i: nat)
    requires OnlyIn(files, k, i)
    ensures k in ReadAll(files) && ReadAll(files)[k] == files[i][k]
  {
    hide Merge;
    var n := |files| - 1;
    if i == n {
      ReadAbsent(files[..n], k);
    } else {
      ReadOnly(files[..n], k, i);
    }
  }

  lemma {:induction false} ReadCovers(files: seq<Content>, i: nat, k: PartialKey)
    requires i < |files| && k in files[i]
    ensures k in ReadAll(files)
  {
    if i < |files| - 1 { ReadCovers(files[..|files| - 1], i, k); }
  }

  lemma ReadExact(files: seq<Content>, all: Content)
    requires ExactlyOnce(files, all)
    ensures ReadAll(files) == all
  {
    forall k ensures k in ReadAll(files) <==> k in all {
      if k in all {
        var i: nat :| OnlyIn(files, k, i) && files[i][k] == all[k];
        ReadOnly(files, k, i);
      } else {
        ReadAbsent(files, k);
      }
    }
    forall k | k in all ensures ReadAll(files)[k] == all[k] {
      var i: nat :| OnlyIn(files, k, i) && files[i][k] == all[k];
      ReadOnly(files, k, i);
    }
  }

  // ----- the segment list -----

  /** The range of `x` ends before the range of `y` starts. */
  ghost predicate Before(x: Segment, y: Segment) {
    y.lo.Some? && x.hi <= y.lo.value
  }

  ghost predicate Fits(s: Segment, sealedHi: Option<int>) {
    (s.lo.Some? ==> s.lo.value < s.hi) && sealedHi.Some? && s.hi <= sealedHi.value
  }

  ghost predicate Ladder(segs: seq<Segment>, sealedHi: Option<int>) {
    && (forall i :: 0 <= i < |segs| ==> Fits(segs[i], sealedHi))
    && (forall i, j :: 0 <= i < j < |segs| ==> Before(segs[i], segs[j]))
  }

  ghost predicate HeldBySome(segs: seq<Segment>, b: int) {
    exists i :: 0 <= i < |segs| && segs[i].Holds(b)
  }

  ghost predicate CoveredBelow(segs: seq<Segment>, hi: int, all: Content) {
    forall k :: k in all && k.bucket < hi ==> HeldBySome(segs, k.bucket)
  }

  ghost predicate Stores(s: Segment, all: Content) {
    s.digest == Slice(all, s.lo, Some(s.hi))
  }

  ghost predicate Faithful(segs: seq<Segment>, all: Content) {
    forall i :: 0 <= i < |segs| ==> Stores(segs[i], all)
  }

  /** Every bucket below the watermark lives in the one segment whose range holds it. */
  ghost predicate Sealed(segs: seq<Segment>, sealedHi: Option<int>, all: Content) {
    && Ladder(segs, sealedHi)
    && Faithful(segs, all)
    && (sealedHi.Some? ==> CoveredBelow(segs, sealedHi.value, all))
  }

  function Digests(segs: seq<Segment>): seq<Content> {
    seq(|segs|, i requires 0 <= i < |segs| => segs[i].digest)
  }

  /** Ranges of the ladder are disjoint: at most one segment holds a bucket. */
  lemma HeldOnce(segs: seq<Segment>, sealedHi: Option<int>, b: int, i: nat, j: nat)
    requires Ladder(segs, sealedHi) && i < |segs| && j < |segs| && i != j && segs[i].Holds(b)
    ensures !segs[j].Holds(b)
  {
    assert if i < j then Before(segs[i], segs[j]) else Before(segs[j], segs[i]);
  }

  lemma LadderSpan(segs: seq<Segment>, sealedHi: Option<int>, a: nat, b: nat, i: nat, x: int)
    requires Ladder(segs, sealedHi) && a <= i < b <= |segs| && segs[i].Holds(x)
    ensures InRange(x, segs[a].lo, Some(segs[b - 1].hi))
  {
    assert Fits(segs[a], sealedHi) && Fits(segs[b - 1], sealedHi);
    if a < i { assert Before(segs[a], segs[i]); }
    if i < b - 1 { assert Before(segs[i], segs[b - 1]); }
  }

  /** The segment holding a bucket of the span from `a` to `z` lies between them. */
  lemma LadderOrder(segs: seq<Segment>, sealedHi: Option<int>, i: nat, a: nat, z: nat, x: int)
    requires Ladder(segs, sealedHi) && i < |segs| && a <= z < |segs| && segs[i].Holds(x)
    requires InRange(x, segs[a].lo, Some(segs[z].hi))
    ensures a <= i <= z
  {
    assert Fits(segs[a], sealedHi) && Fits(segs[z], sealedHi);
    assert (i >= a || Before(segs[i], segs[a])) && (i <= z || Before(segs[z], segs[i]));
  }

  /** Key `k` of the span of a window is in the one file whose range holds it. */
  lemma WindowKey(segs: seq<Segment>, sealedHi: Option<int>, all: Content, a: nat, b: nat, k: PartialKey)
    requires Sealed(segs, sealedHi, all) && a < b <= |segs|
    requires k in all && InRange(k.bucket, segs[a].lo, Some(segs[b - 1].hi))
    ensures OnceIn(Digests(segs[a..b]), k, all[k])
  {
    hide Ladder;
    var files := Digests(segs[a..b]);
    assert Fits(segs[b - 1], sealedHi) by { LadderFits(segs, sealedHi, b - 1); }
    assert HeldBySome(segs, k.bucket);
    var i: nat :| i < |segs| && segs[i].Holds(k.bucket);
    LadderOrder(segs, sealedHi, i, a, b - 1, k.bucket);
    forall j | 0 <= j < |files| && j != i - a ensures k !in files[j] {
      HeldOnce(segs, sealedHi, k.bucket, i, a + j);
      assert Stores(segs[a + j], all);
    }
    assert Stores(segs[i], all);
    assert OnlyIn(files, k, i - a);
  }

  lemma LadderFits(segs: seq<Segment>, sealedHi: Option<int>, i: nat)
    requires Ladder(segs, sealedHi) && i < |segs|
    ensures Fits(segs[i], sealedHi)
  {
  }

  lemma WindowFile(segs: seq<Segment>, sealedHi: Option<int>, all: Content, a: nat, b: nat, i: nat, k: PartialKey)
    requires Sealed(segs, sealedHi, all) && a < b <= |segs|
    requires i < b - a && k in Digests(segs[a..b])[i]
    ensures k in Slice(all, segs[a].lo, Some(segs[b - 1].hi))
  {
    assert Stores(segs[a + i], all);
    LadderSpan(segs, sealedHi, a, b, a + i, k.bucket);
  }

  /** A window of segments holds exactly the keys of its span, each once. */
  lemma WindowExact(segs: seq<Segment>, sealedHi: Option<int>, all: Content, a: nat, b: nat)
    requires Sealed(segs, sealedHi, all) && a < b <= |segs|
    ensures ExactlyOnce(Digests(segs[a..b]), Slice(all, segs[a].lo, Some(segs[b - 1].hi)))
  {
    hide OnceIn, Sealed;
    var files := Digests(segs[a..b]);
    var span := Slice(all, segs[a].lo, Some(segs[b - 1].hi));
    forall k | k in span ensures OnceIn(files, k, span[k]) {
      WindowKey(segs, sealedHi, all, a, b, k);
    }
    forall i, k | 0 <= i < |files| && k in files[i] ensures k in span {
      WindowFile(segs, sealedHi, all, a, b, i, k);
    }
  }

  lemma ServedKey(segs: seq<Segment>, sealedHi: Option<int>, hot: Content, all: Content, k: PartialKey)
    requires Sealed(segs, sealedHi, all) && hot == Slice(all, sealedHi, None) && k in all
    ensures OnceIn(Digests(segs) + [hot], k, all[k])
  {
    hide Ladder;
    var files := Digests(segs) + [hot];
    var n := |segs|;
    if sealedHi.Some? && k.bucket < sealedHi.value {
      assert HeldBySome(segs, k.bucket);
      var i: nat :| i < n && segs[i].Holds(k.bucket);
      forall j | 0 <= j < |files| && j != i ensures k !in files[j] {
        if j < n {
          HeldOnce(segs, sealedHi, k.bucket, i, j);
          assert Stores(segs[j], all);
        }
      }
      assert Stores(segs[i], all);
      assert OnlyIn(files, k, i);
    } else {
      forall j | 0 <= j < n ensures k !in files[j] {
        LadderFits(segs, sealedHi, j);
        assert Stores(segs[j], all);
      }
      assert OnlyIn(files, k, n);
    }
  }

  /** Segments plus a hot file for the rest hold every key exactly once, so a read is the
      direct reduction: no hole and no double count. */
  lemma ServedExactly(segs: seq<Segment>, sealedHi: Option<int>, hot: Content, all: Content)
    requires Sealed(segs, sealedHi, all) && hot == Slice(all, sealedHi, None)
    ensures ExactlyOnce(Digests(segs) + [hot], all)
    ensures ReadAll(Digests(segs) + [hot]) == all
  {
    hide OnceIn, Ladder;
    var files := Digests(segs) + [hot];
    forall k | k in all ensures OnceIn(files, k, all[k]) {
      ServedKey(segs, sealedHi, hot, all, k);
    }
    forall i, k | 0 <= i < |files| && k in files[i] ensures k in all {
      if i < |segs| { assert Stores(segs[i], all); }
    }
    ReadExact(files, all);
  }

  // ----- the operations on the segment list -----

  /** Compaction: one segment spanning the window replaces it. */
  function Replace(segs: seq<Segment>, w: SizeTier.Window, seg: Segment): seq<Segment>
    requires w.start < w.end <= |segs|
  {
    segs[..w.start] + [seg] + segs[w.end..]
  }

  lemma LadderReplace(segs: seq<Segment>, sealedHi: Option<int>, w: SizeTier.Window, seg: Segment)
    requires Ladder(segs, sealedHi) && w.start < w.end <= |segs|
    requires seg.lo == segs[w.start].lo && seg.hi == segs[w.end - 1].hi
    ensures Ladder(Replace(segs, w, seg), sealedHi)
  {
    var out := Replace(segs, w, seg);
    var d := w.end - w.start - 1;
    assert Fits(seg, sealedHi) by {
      assert Fits(segs[w.start], sealedHi) && Fits(segs[w.end - 1], sealedHi);
      assert d == 0 || Before(segs[w.start], segs[w.end - 1]);
    }
    forall i, j | 0 <= i < j < |out| ensures Before(out[i], out[j]) {
      var oi := if i < w.start then i else i + d;
      var oj := if j <= w.start then j else j + d;
      assert out[i].hi == segs[oi].hi && out[j].lo == segs[oj].lo;
      assert Before(segs[oi], segs[oj]);
    }
  }

  lemma CoverReplace(segs: seq<Segment>, sealedHi: Option<int>, w: SizeTier.Window, seg: Segment, x: int)
    requires Ladder(segs, sealedHi) && w.start < w.end <= |segs| && HeldBySome(segs, x)
    requires seg.lo == segs[w.start].lo && seg.hi == segs[w.end - 1].hi
    ensures HeldBySome(Replace(segs, w, seg), x)
  {
    hide Ladder;
    var i :| 0 <= i < |segs| && segs[i].Holds(x);
    var out := Replace(segs, w, seg);
    if i < w.start {
      assert out[i].Holds(x);
    } else if i < w.end {
      LadderSpan(segs, sealedHi, w.start, w.end, i, x);
      assert out[w.start].Holds(x);
    } else {
      assert out[i - (w.end - w.start - 1)].Holds(x);
    }
  }

  /** Merging the files of a window and recording their joint range changes nothing a read sees. */
  lemma CompactKeepsSealed(segs: seq<Segment>, sealedHi: Option<int>, all: Content, w: SizeTier.Window, seg: Segment)
    requires Sealed(segs, sealedHi, all) && w.start < w.end <= |segs|
    requires seg.lo == segs[w.start].lo && seg.hi == segs[w.end - 1].hi
    requires seg.digest == ReadAll(Digests(segs[w.start..w.end]))
    ensures Sealed(Replace(segs, w, seg), sealedHi, all)
  {
    hide ReadAll, ExactlyOnce, Ladder, HeldBySome;
    WindowExact(segs, sealedHi, all, w.start, w.end);
    ReadExact(Digests(segs[w.start..w.end]), Slice(all, seg.lo, Some(seg.hi)));
    LadderReplace(segs, sealedHi, w, seg);
    if sealedHi.Some? {
      forall k | k in all && k.bucket < sealedHi.value ensures HeldBySome(Replace(segs, w, seg), k.bucket) {
        CoverReplace(segs, sealedHi, w, seg, k.bucket);
      }
    }
  }

  lemma LadderExtend(segs: seq<Segment>, sealedHi: Option<int>, wm: int, seg: Segment)
    requires Ladder(segs, sealedHi) && (sealedHi.Some? ==> sealedHi.value < wm)
    requires seg.lo == sealedHi && seg.hi == wm
    ensures Ladder(segs + [seg], Some(wm)) && Ladder(segs, Some(wm))
  {
    forall i | 0 <= i < |segs| ensures Fits(segs[i], Some(wm)) && Before(segs[i], seg) {
      assert Fits(segs[i], sealedHi);
    }
    assert Fits(seg, Some(wm));
    var out := segs + [seg];
    forall i, j | 0 <= i < j < |out| ensures Before(out[i], out[j]) {
      assert out[i] == segs[i];
      if j < |segs| { assert Before(segs[i], segs[j]); }
    }
  }

  /** Sealing: the span between the old and the new watermark becomes a segment, or nothing
      when it is empty. */
  lemma SealKeepsSealed(segs: seq<Segment>, sealedHi: Option<int>, all: Content, wm: int, seg: Segment)
    requires Sealed(segs, sealedHi, all) && (sealedHi.Some? ==> sealedHi.value < wm)
    requires seg.lo == sealedHi && seg.hi == wm && seg.digest == Slice(all, sealedHi, Some(wm))
    ensures Sealed(segs + [seg], Some(wm), all)
    ensures seg.digest == map[] ==> Sealed(segs, Some(wm), all)
  {
    hide Ladder;
    LadderExtend(segs, sealedHi, wm, seg);
    var out := segs + [seg];
    assert Stores(seg, all);
    forall k | k in all && k.bucket < wm
      ensures HeldBySome(out, k.bucket)
      ensures seg.digest == map[] ==> HeldBySome(segs, k.bucket)
    {
      if sealedHi.Some? && k.bucket < sealedHi.value {
        assert HeldBySome(segs, k.bucket);
        var i :| 0 <= i < |segs| && segs[i].Holds(k.bucket);
        assert out[i].Holds(k.bucket);
      } else {
        assert k in seg.digest;
        assert out[|segs|].Holds(k.bucket);
      }
    }
  }

  /** What remains trustworthy when buckets at or above `dirty` must be recomputed. */
  ghost predicate SealedBelow(segs: seq<Segment>, sealedHi: Option<int>, dirty: Option<int>, all: Content) {
    && Ladder(segs, sealedHi)
    && Faithful(segs, all)
    && (sealedHi.Some? && dirty.Some? ==>
          CoveredBelow(segs, if sealedHi.value <= dirty.value then sealedHi.value else dirty.value, all))
  }

  lemma SealedWeaken(segs: seq<Segment>, sealedHi: Option<int>, dirty: Option<int>, all: Content)
    requires Sealed(segs, sealedHi, all)
    ensures SealedBelow(segs, sealedHi, dirty, all)
  {
  }

  /** Two contents that agree below `dirty`. */
  ghost predicate AgreeBelow(a: Content, b: Content, dirty: int) {
    forall k: PartialKey :: k.bucket < dirty ==> (k in a <==> k in b) && (k in a && k in b ==> a[k] == b[k])
  }

  /** Contents that agree below the watermark have the same sealed history. */
  lemma SealedTransfers(segs: seq<Segment>, sealedHi: Option<int>, dirty: int, a: Content, b: Content)
    requires Sealed(segs, sealedHi, a) && AgreeBelow(a, b, dirty)
    requires sealedHi.Some? ==> sealedHi.value <= dirty
    ensures Sealed(segs, sealedHi, b)
  {
    forall i | 0 <= i < |segs| ensures Stores(segs[i], b) {
      assert Stores(segs[i], a) && Fits(segs[i], sealedHi);
    }
  }

  /** Splitting the straddling segment keeps its clean prefix; the rest is given up. */
  lemma PrefixKeepsSealed(segs: seq<Segment>, sealedHi: Option<int>, dirty: int, all: Content, at: nat, seg: Segment)
    requires Sealed(segs, sealedHi, all) && at < |segs|
    requires (segs[at].lo.Some? ==> segs[at].lo.value < dirty) && dirty < segs[at].hi
    requires seg.lo == segs[at].lo && seg.hi == dirty
    requires seg.digest == Slice(segs[at].digest, None, Some(dirty))
    ensures SealedBelow(segs[at := seg], sealedHi, Some(dirty), all)
  {
    var out := segs[at := seg];
    assert Stores(segs[at], all) && Fits(segs[at], sealedHi);
    assert Stores(seg, all);
    assert Ladder(out, sealedHi) by {
      forall i, j | 0 <= i < j < |out| ensures Before(out[i], out[j]) {
        assert Before(segs[i], segs[j]);
      }
      assert Fits(seg, sealedHi);
    }
    forall k | k in all && k.bucket < dirty ensures HeldBySome(out, k.bucket) {
      assert HeldBySome(segs, k.bucket);
      var i :| 0 <= i < |segs| && segs[i].Holds(k.bucket);
      assert out[i].Holds(k.bucket);
    }
  }

  /** The kept segments of an unsealing are the ones that end at or before the dirty point. */
  lemma UnsealKeepsSealed(segs: seq<Segment>, sealedHi: Option<int>, dirty: Option<int>, all: Content,
                          n: nat, newHi: Option<int>)
    requires SealedBelow(segs, sealedHi, dirty, all) && n <= |segs|
    requires dirty.Some? ==> sealedHi.Some? && dirty.value < sealedHi.value
    requires forall i :: 0 <= i < n ==> dirty.Some? && segs[i].hi <= dirty.value
    requires newHi.Some? ==> dirty.Some? && newHi.value <= dirty.value
    requires newHi.Some? ==> forall i :: n <= i < |segs| ==> segs[i].lo.Some? && newHi.value <= segs[i].lo.value
    requires newHi.Some? ==> forall i :: 0 <= i < n ==> segs[i].hi <= newHi.value
    requires newHi.None? ==> n == 0
    ensures Sealed(segs[..n], newHi, all)
  {
    var kept := segs[..n];
    forall i | 0 <= i < n ensures Fits(kept[i], newHi) && Stores(kept[i], all) {
      assert Fits(segs[i], sealedHi) && Stores(segs[i], all);
    }
    forall i, j | 0 <= i < j < n ensures Before(kept[i], kept[j]) {
      assert Before(segs[i], segs[j]);
    }
    if newHi.Some? {
      forall k | k in all && k.bucket < newHi.value ensures HeldBySome(kept, k.bucket) {
        assert HeldBySome(segs, k.bucket);
        var i :| 0 <= i < |segs| && segs[i].Holds(k.bucket);
        assert kept[i].Holds(k.bucket);
      }
    }
  }
}
