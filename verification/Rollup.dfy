/**
 Building one resolution of the cache, crash by crash.

 A build decides from the published manifest whether to reuse, advance or rebuild, unseals
 the history a change can reach, seals and recomputes, compacts, publishes a new manifest,
 and only then deletes what it superseded.  The process may die after any file operation.
 */
module Rollup {
  import opened Wrappers
  import opened Aggregate
  import opened SegmentCache
  import opened SourceSet
  import opened ResDirectory
  import SizeTier

  const MAX_ACTIVE_SPAN_SECS: int := 30 * 24 * 60 * 60

  datatype Policy = Policy(lateness: int, targetBytes: nat, maxSegments: nat)

  /** Which buckets of the resolution differ from what the previous manifest described. */
  datatype LevelChange = Nothing | Since(lo: int) | Everything

  datatype Outcome = Done | Crashed | Failed

  /** The exact sum, or the largest size when the sum is beyond it. */
  function SaturatingAdd(a: SizeTier.U64, b: nat): (r: SizeTier.U64)
    ensures a <= r <= a + b && (r < a + b ==> r == SizeTier.U64_MAX)
  {
    if a + b > SizeTier.U64_MAX then SizeTier.U64_MAX else a + b
  }

  // ----- the manifest being built, against the directory -----

  ghost predicate Working(files: Files, m: Manifest, all: Content, g: Grid)
    requires g.Valid()
  {
    DiskOk(files, g) && Layout(m, all) && Backed(files, m.segments) && NextFresh(files, m.nextSeq)
  }

  predicate StartsBelow(s: Segment, d: int) {
    s.lo.None? || s.lo.value < d
  }

  /** The segments an advance from `dirty` still relies on. */
  ghost predicate Needed(files: Files, segs: seq<Segment>, dirty: Option<int>) {
    forall i :: 0 <= i < |segs| && dirty.Some? && StartsBelow(segs[i], dirty.value) ==> OnDisk(files, segs[i])
  }

  lemma AppendNamed(segs: seq<Segment>, next: nat, s: Segment)
    requires Named(segs, next) && Recorded(segs) && s.seqNo == next && s.digest != map[]
    ensures Named(segs + [s], next + 1) && Recorded(segs + [s])
  {
    var out := segs + [s];
    forall i, j | 0 <= i < j < |out| ensures Distinct(out[i], out[j]) {
      assert out[i] == segs[i];
      if j < |segs| { assert Distinct(segs[i], segs[j]); }
    }
  }

  lemma UpdateNamed(segs: seq<Segment>, next: nat, at: nat, s: Segment)
    requires Named(segs, next) && Recorded(segs) && at < |segs| && s.seqNo == next && s.digest != map[]
    ensures Named(segs[at := s], next + 1) && Recorded(segs[at := s])
  {
    var out := segs[at := s];
    forall i, j | 0 <= i < j < |out| ensures Distinct(out[i], out[j]) {
      assert Distinct(segs[i], segs[j]);
    }
  }

  lemma PrefixNamed(segs: seq<Segment>, next: nat, n: nat)
    requires Named(segs, next) && Recorded(segs) && n <= |segs|
    ensures Named(segs[..n], next) && Recorded(segs[..n])
  {
    forall i, j | 0 <= i < j < n ensures Distinct(segs[..n][i], segs[..n][j]) {
      assert Distinct(segs[i], segs[j]);
    }
  }

  lemma ReplaceNamed(segs: seq<Segment>, next: nat, w: SizeTier.Window, s: Segment)
    requires Named(segs, next) && Recorded(segs) && w.start < w.end <= |segs|
    requires s.seqNo == next && s.digest != map[]
    ensures Named(Replace(segs, w, s), next + 1) && Recorded(Replace(segs, w, s))
  {
    var out := Replace(segs, w, s);
    var d := w.end - w.start - 1;
    forall i, j | 0 <= i < j < |out| ensures Distinct(out[i], out[j]) {
      if i != w.start && j != w.start {
        assert Distinct(segs[if i < w.start then i else i + d], segs[if j < w.start then j else j + d]);
      }
    }
  }

  /** A freshly written segment joins the list being built. */
  lemma BackedReplace(files: Files, segs: seq<Segment>, w: SizeTier.Window, s: Segment)
    requires Backed(files, segs) && w.start < w.end <= |segs|
    requires OnDisk(files, s) && Intact(files, s) && Present(files, segs[w.start..w.end])
    ensures Backed(files, Replace(segs, w, s))
    ensures Present(files, Replace(segs, w, s)) <==> Present(files, segs)
  {
    var out := Replace(segs, w, s);
    var d := w.end - w.start - 1;
    assert forall i :: 0 <= i < |out| ==>
      out[i] == if i < w.start then segs[i] else if i == w.start then s else segs[i + d];
    forall i | 0 <= i < |out| ensures Intact(files, out[i]) {
      if i != w.start { assert Intact(files, segs[if i < w.start then i else i + d]); }
    }
    if Present(files, segs) {
      forall i | 0 <= i < |out| ensures OnDisk(files, out[i]) {
        if i != w.start { assert OnDisk(files, segs[if i < w.start then i else i + d]); }
      }
    }
    if Present(files, out) {
      forall i | 0 <= i < |segs| ensures OnDisk(files, segs[i]) {
        if w.start <= i < w.end {
          assert OnDisk(files, segs[w.start..w.end][i - w.start]);
        } else {
          assert OnDisk(files, out[if i < w.start then i else i - d]);
        }
      }
    }
  }

  // ----- unsealing -----

  function SeqNos(segs: seq<Segment>): seq<nat> {
    seq(|segs|, i requires 0 <= i < |segs| => segs[i].seqNo)
  }

  function TotalBytes(segs: seq<Segment>): nat {
    if segs == [] then 0 else segs[0].bytes + TotalBytes(segs[1..])
  }

  lemma DirtySuffix(segs: seq<Segment>, sealedHi: Option<int>, d: int, n: nat, i: nat)
    requires Ladder(segs, sealedHi) && n < i < |segs| && segs[n].hi > d
    ensures segs[i].hi > d
  {
    assert Before(segs[n], segs[i]) && Fits(segs[i], sealedHi);
  }

  lemma GenesisIsFirst(segs: seq<Segment>, sealedHi: Option<int>, n: nat)
    requires Ladder(segs, sealedHi) && 0 < n <= |segs|
    ensures forall j :: n <= j < |segs| ==> segs[j].lo.Some?
  {
    forall j | n <= j < |segs| ensures segs[j].lo.Some? { assert Before(segs[0], segs[j]); }
  }

  lemma DirtyStaysDirty(segs: seq<Segment>, sealedHi: Option<int>, dirty: Option<int>,
                        kept: seq<Segment>, dropped: seq<Segment>, i: nat)
    requires Ladder(segs, sealedHi) && i < |segs| && segs[..i] == kept + dropped
    requires forall j :: 0 <= j < |dropped| ==> !Clean(dropped[j], dirty)
    ensures dropped != [] ==> !Clean(segs[i], dirty)
  {
    if dropped != [] && dirty.Some? {
      assert dropped[0] == segs[..i][|kept|] == segs[|kept|];
      DirtySuffix(segs, sealedHi, dirty.value, |kept|, i);
    }
  }

  predicate Clean(s: Segment, dirty: Option<int>) {
    dirty.Some? && s.hi <= dirty.value
  }

  /** Partition into the segments that end at or before the dirty point and the rest;
      the ranges ascend, so the first part is a prefix. */
  method PartitionClean(segs: seq<Segment>, dirty: Option<int>, ghost sealedHi: Option<int>)
    returns (kept: seq<Segment>, dropped: seq<Segment>)
    requires Ladder(segs, sealedHi)
    ensures segs == kept + dropped
    ensures forall i :: 0 <= i < |kept| ==> Clean(kept[i], dirty)
    ensures forall i :: 0 <= i < |dropped| ==> !Clean(dropped[i], dirty)
  {
    kept, dropped := [], [];
    for i := 0 to |segs|
      invariant segs[..i] == kept + dropped
      invariant forall j :: 0 <= j < |kept| ==> Clean(kept[j], dirty)
      invariant forall j :: 0 <= j < |dropped| ==> !Clean(dropped[j], dirty)
    {
      assert segs[..i + 1] == segs[..i] + [segs[i]];
      DirtyStaysDirty(segs, sealedHi, dirty, kept, dropped, i);
      if Clean(segs[i], dirty) {
        kept := kept + [segs[i]];
      } else {
        dropped := dropped + [segs[i]];
      }
    }
    assert segs[..|segs|] == segs;
  }

  ghost predicate IsWatermark(dropped: seq<Segment>, dirty: Option<int>, hi: Option<int>) {
    && (hi.Some? ==> dirty.Some? && hi.value <= dirty.value)
    && (hi.Some? ==> forall i :: 0 <= i < |dropped| ==> dropped[i].lo.Some? && hi.value <= dropped[i].lo.value)
    && (hi.Some? ==> hi == dirty || exists i :: 0 <= i < |dropped| && dropped[i].lo == hi)
    && (hi.None? ==> dirty.None? || exists i :: 0 <= i < |dropped| && dropped[i].lo.None?)
  }

  /** The dirty point, lowered to the bottom edge of any dropped segment straddling it. */
  method NewWatermark(dropped: seq<Segment>, dirty: Option<int>) returns (hi: Option<int>)
    ensures IsWatermark(dropped, dirty, hi)
  {
    var newHi, openEnded := dirty, dirty.None?;
    for i := 0 to |dropped|
      invariant dirty.Some? ==> newHi.Some? && newHi.value <= dirty.value
      invariant dirty.None? ==> openEnded
      invariant !openEnded ==> forall j :: 0 <= j < i ==> dropped[j].lo.Some? && newHi.value <= dropped[j].lo.value
      invariant newHi == dirty || exists j :: 0 <= j < i && dropped[j].lo == newHi
      invariant openEnded ==> dirty.None? || exists j :: 0 <= j < i && dropped[j].lo.None?
    {
      match dropped[i].lo
      case Some(lo) => newHi := Some(if newHi.Some? && newHi.value <= lo then newHi.value else lo);
      case None => openEnded := true;
    }
    return if openEnded then None else newHi;
  }

  // ----- the bytes that become hot again -----

  /** The bytes of the segments of `was` whose file the later list no longer names. */
  ghost function Reopened(was: seq<Segment>, now: seq<Segment>): nat {
    if was == [] then 0
    else (if Unnamed(now, was[0].seqNo) then was[0].bytes else 0) + Reopened(was[1..], now)
  }

  lemma {:induction false} ReopenedConcat(a: seq<Segment>, b: seq<Segment>, now: seq<Segment>)
    ensures Reopened(a + b, now) == Reopened(a, now) + Reopened(b, now)
  {
    if a == [] {
      assert a + b == b;
    } else {
      assert (a + b)[1..] == a[1..] + b;
      ReopenedConcat(a[1..], b, now);
    }
  }

  lemma {:induction false} ReopenedNone(was: seq<Segment>, now: seq<Segment>)
    requires forall i :: 0 <= i < |was| ==> !Unnamed(now, was[i].seqNo)
    ensures Reopened(was, now) == 0
  {
    if was != [] { ReopenedNone(was[1..], now); }
  }

  lemma {:induction false} ReopenedAll(was: seq<Segment>, now: seq<Segment>)
    requires forall i :: 0 <= i < |was| ==> Unnamed(now, was[i].seqNo)
    ensures Reopened(was, now) == TotalBytes(was)
  {
    if was != [] { ReopenedAll(was[1..], now); }
  }

  /** At most one segment gave way to a clean prefix of itself, and its bytes were noted. */
  ghost predicate Cut(m0: Manifest, m: Manifest, dirty: Option<int>) {
    || (m.segments == m0.segments && m.hotBytes == m0.hotBytes)
    || exists at: nat, s :: CutAt(m0, m, dirty, at, s)
  }

  ghost predicate CutAt(m0: Manifest, m: Manifest, dirty: Option<int>, at: nat, s: Segment) {
    && at < |m0.segments| && s.seqNo == m0.nextSeq && Clean(s, dirty) && m.segments == m0.segments[at := s]
    && m.hotBytes == SaturatingAdd(m0.hotBytes, m0.segments[at].bytes)
  }

  lemma CutNowhere(m0: Manifest, dirty: Option<int>)
    ensures Cut(m0, m0, dirty)
  {
  }

  lemma CutThere(m0: Manifest, m: Manifest, dirty: Option<int>, at: nat, s: Segment)
    requires CutAt(m0, m, dirty, at, s)
    ensures Cut(m0, m, dirty)
  {
  }

  /** A kept segment keeps its name; a dropped one is named no more. */
  lemma ReopenedSuffix(was: seq<Segment>, next: nat, n: nat)
    requires Named(was, next) && n <= |was|
    ensures Reopened(was, was[..n]) == TotalBytes(was[n..])
  {
    var now, rest := was[..n], was[n..];
    forall i | 0 <= i < |now| ensures !Unnamed(now, now[i].seqNo) { NamedBy(now, i); }
    forall i | 0 <= i < |rest| ensures Unnamed(now, rest[i].seqNo) { NotAmong(was, next, n, n + i); }
    hide Reopened, Named, Unnamed, TotalBytes;
    ReopenedNone(now, now);
    ReopenedAll(rest, now);
    ReopenedConcat(now, rest, now);
    assert was == now + rest;
  }

  lemma NamedBy(segs: seq<Segment>, i: nat)
    requires i < |segs|
    ensures !Unnamed(segs, segs[i].seqNo)
  {
  }

  lemma NotAmong(was: seq<Segment>, next: nat, n: nat, i: nat)
    requires Named(was, next) && n <= i < |was|
    ensures Unnamed(was[..n], was[i].seqNo)
  {
    forall j | 0 <= j < n ensures was[..n][j].seqNo != was[i].seqNo { assert Distinct(was[j], was[i]); }
  }

  lemma {:induction false} ReopenedOneMore(was: seq<Segment>, x: seq<Segment>, y: seq<Segment>, at: nat)
    requires at < |was| && Unnamed(y, was[at].seqNo) && !Unnamed(x, was[at].seqNo)
    requires forall i :: 0 <= i < |was| && i != at ==> (Unnamed(y, was[i].seqNo) <==> Unnamed(x, was[i].seqNo))
    ensures Reopened(was, y) == Reopened(was, x) + was[at].bytes
  {
    if at == 0 {
      ReopenedSame(was[1..], x, y);
    } else {
      ReopenedOneMore(was[1..], x, y, at - 1);
    }
  }

  lemma {:induction false} ReopenedSame(was: seq<Segment>, x: seq<Segment>, y: seq<Segment>)
    requires forall i :: 0 <= i < |was| ==> (Unnamed(y, was[i].seqNo) <==> Unnamed(x, was[i].seqNo))
    ensures Reopened(was, y) == Reopened(was, x)
  {
    if was != [] { ReopenedSame(was[1..], x, y); }
  }

  lemma ReopenedCut(was: seq<Segment>, next: nat, at: nat, s: Segment, n: nat)
    requires Named(was, next) && at < n <= |was| && s.seqNo == next
    ensures Reopened(was, was[at := s][..n]) == was[at].bytes + TotalBytes(was[n..])
  {
    hide Reopened;
    var x, y := was[..n], was[at := s][..n];
    ReopenedSuffix(was, next, n);
    assert y == x[at := s];
    assert !Unnamed(x, was[at].seqNo) by { assert x[at].seqNo == was[at].seqNo; }
    forall j | 0 <= j < n ensures y[j].seqNo != was[at].seqNo {
      if j < at { assert Distinct(was[j], was[at]); } else if at < j { assert Distinct(was[at], was[j]); }
    }
    forall i | 0 <= i < |was| && i != at ensures Unnamed(y, was[i].seqNo) <==> Unnamed(x, was[i].seqNo) {
      OtherName(x, at, s, was[i].seqNo);
    }
    ReopenedOneMore(was, x, y, at);
  }

  lemma OtherName(x: seq<Segment>, at: nat, s: Segment, name: nat)
    requires at < |x| && s.seqNo != name && x[at].seqNo != name
    ensures Unnamed(x[at := s], name) <==> Unnamed(x, name)
  {
    var y := x[at := s];
    if Unnamed(y, name) {
      forall i | 0 <= i < |x| ensures x[i].seqNo != name { assert y[i].seqNo != name; }
    }
  }

  lemma UnsealedBytes(m0: Manifest, before: Manifest, m: Manifest, dropped: seq<Segment>, dirty: Option<int>)
    requires Named(m0.segments, m0.nextSeq) && Cut(m0, before, dirty)
    requires before.segments == m.segments + dropped
    requires forall i :: 0 <= i < |dropped| ==> !Clean(dropped[i], dirty)
    requires m.hotBytes == SaturatingAdd(before.hotBytes, TotalBytes(dropped))
    ensures m.hotBytes == SaturatingAdd(m0.hotBytes, Reopened(m0.segments, m.segments))
  {
    hide Reopened, Named, TotalBytes;
    var n := |m.segments|;
    assert before.segments[..n] == m.segments && before.segments[n..] == dropped;
    if before.segments == m0.segments && before.hotBytes == m0.hotBytes {
      ReopenedSuffix(m0.segments, m0.nextSeq, n);
    } else {
      var at: nat, s :| CutAt(m0, before, dirty, at, s);
      forall i | n <= i < |before.segments| ensures !Clean(before.segments[i], dirty) {
        assert before.segments[i] == dropped[i - n];
      }
      ReopenedCut(m0.segments, m0.nextSeq, at, s, n);
      assert m0.segments[n..] == dropped;
    }
  }

  /** Nothing sealed reaches beyond the dirty point. */
  predicate PastSealed(sealedHi: Option<int>, dirty: Option<int>) {
    sealedHi.None? || (dirty.Some? && sealedHi.value <= dirty.value)
  }

  /** Fold every segment that covers a bucket at or after the dirty point back into the hot window. */
  method UnsealFrom(m: Manifest, dirty: Option<int>, ghost all: Content) returns (out: Manifest, dropped: seq<Segment>)
    requires SealedBelow(m.segments, m.sealedHi, dirty, all)
    ensures Sealed(out.segments, out.sealedHi, all)
    ensures out.sealedHi.Some? ==> dirty.Some? && out.sealedHi.value <= dirty.value
    ensures m.segments == out.segments + dropped
    ensures forall i :: 0 <= i < |out.segments| ==> Clean(out.segments[i], dirty)
    ensures forall i :: 0 <= i < |dropped| ==> !Clean(dropped[i], dirty)
    ensures out == m.(segments := out.segments, sealedHi := out.sealedHi, hotBytes := out.hotBytes)
    ensures HollowBelow(m.segments, dirty) ==> KeepsSealed(m.sealedHi, out.sealedHi, dirty, all)
    ensures PastSealed(m.sealedHi, dirty) ==> out == m && dropped == []
    ensures !PastSealed(m.sealedHi, dirty) ==>
      && out.hotBytes == SaturatingAdd(m.hotBytes, TotalBytes(dropped))
      && IsWatermark(dropped, dirty, out.sealedHi)
  {
    hide Faithful, CoveredBelow, Slice, KeepsSealed, HollowBelow, Ladder, IsWatermark, TotalBytes;
    if PastSealed(m.sealedHi, dirty) {
      AllClean(m.segments, m.sealedHi, dirty);
      KeepsSame(m.sealedHi, dirty, all);
      return m, [];
    }
    var kept: seq<Segment>;
    kept, dropped := PartitionClean(m.segments, dirty, m.sealedHi);
    var hi := NewWatermark(dropped, dirty);
    KeptIsSealed(m.segments, m.sealedHi, kept, dropped, dirty, hi, all);
    out := m.(segments := kept, sealedHi := hi, hotBytes := SaturatingAdd(m.hotBytes, TotalBytes(dropped)));
  }

  lemma KeptIsSealed(segs: seq<Segment>, sealedHi: Option<int>, kept: seq<Segment>, dropped: seq<Segment>,
                     dirty: Option<int>, hi: Option<int>, all: Content)
    requires SealedBelow(segs, sealedHi, dirty, all) && segs == kept + dropped && !PastSealed(sealedHi, dirty)
    requires forall i :: 0 <= i < |kept| ==> Clean(kept[i], dirty)
    requires forall i :: 0 <= i < |dropped| ==> !Clean(dropped[i], dirty)
    requires IsWatermark(dropped, dirty, hi)
    ensures Sealed(kept, hi, all) && (hi.Some? ==> dirty.Some? && hi.value <= dirty.value)
    ensures HollowBelow(segs, dirty) ==> KeepsSealed(sealedHi, hi, dirty, all)
  {
    hide Faithful, CoveredBelow, Slice, KeepsSealed, HollowBelow;
    WatermarkAboveKept(segs, sealedHi, kept, dropped, dirty, hi);
    UnsealKeepsSealed(segs, sealedHi, dirty, all, |kept|, hi);
    assert segs[..|kept|] == kept;
    if HollowBelow(segs, dirty) { KeptAllSealed(segs, sealedHi, kept, dropped, dirty, hi, all); }
  }

  /** A bucket sealed below the dirty point is held by a kept segment. */
  lemma KeptAllSealed(segs: seq<Segment>, sealedHi: Option<int>, kept: seq<Segment>, dropped: seq<Segment>,
                      dirty: Option<int>, hi: Option<int>, all: Content)
    requires SealedBelow(segs, sealedHi, dirty, all) && segs == kept + dropped && HollowBelow(segs, dirty)
    requires forall i :: |kept| <= i < |segs| ==> !Clean(segs[i], dirty)
    requires Sealed(kept, hi, all)
    ensures KeepsSealed(sealedHi, hi, dirty, all)
  {
    if sealedHi.Some? && dirty.Some? {
      forall k | k in all && k.bucket < sealedHi.value && k.bucket < dirty.value
        ensures hi.Some? && k.bucket < hi.value
      {
        assert HeldBySome(segs, k.bucket);
        var i :| 0 <= i < |segs| && segs[i].Holds(k.bucket);
        CleanHolder(segs[i], dirty.value, all, k);
        assert Fits(kept[i], hi);
      }
    }
  }

  lemma CleanHolder(s: Segment, d: int, all: Content, k: PartialKey)
    requires Stores(s, all) && s.Holds(k.bucket) && k in all && k.bucket < d
    requires Straddles(s, d) ==> Slice(s.digest, None, Some(d)) == map[]
    ensures Clean(s, Some(d))
  {
    assert k in Slice(s.digest, None, Some(d));
  }

  lemma AllClean(segs: seq<Segment>, sealedHi: Option<int>, dirty: Option<int>)
    requires Ladder(segs, sealedHi)
    requires sealedHi.None? || (dirty.Some? && sealedHi.value <= dirty.value)
    ensures forall i :: 0 <= i < |segs| ==> Clean(segs[i], dirty)
  {
    forall i | 0 <= i < |segs| ensures Clean(segs[i], dirty) { assert Fits(segs[i], sealedHi); }
  }

  lemma WatermarkAboveKept(segs: seq<Segment>, sealedHi: Option<int>, kept: seq<Segment>, dropped: seq<Segment>,
                           dirty: Option<int>, hi: Option<int>)
    requires Ladder(segs, sealedHi) && segs == kept + dropped
    requires forall i :: 0 <= i < |kept| ==> Clean(kept[i], dirty)
    requires hi.Some? ==> hi == dirty || exists i :: 0 <= i < |dropped| && dropped[i].lo == hi
    requires hi.None? ==> dirty.None? || exists i :: 0 <= i < |dropped| && dropped[i].lo.None?
    ensures hi.Some? ==> forall i :: 0 <= i < |kept| ==> kept[i].hi <= hi.value
    ensures hi.None? ==> kept == []
    ensures forall i :: 0 <= i < |kept| ==> segs[i] == kept[i]
    ensures forall i :: |kept| <= i < |segs| ==> segs[i] == dropped[i - |kept|]
  {
    if hi.Some? && hi != dirty {
      var d :| 0 <= d < |dropped| && dropped[d].lo == hi;
      forall i | 0 <= i < |kept| ensures kept[i].hi <= hi.value {
        assert Before(segs[i], segs[|kept| + d]);
      }
    }
    if kept != [] {
      assert Clean(kept[0], dirty);
      GenesisIsFirst(segs, sealedHi, |kept|);
      forall d | 0 <= d < |dropped| ensures dropped[d].lo.Some? {
        assert segs[|kept| + d] == dropped[d];
      }
    }
  }

  // ----- splitting the straddling segment -----

  predicate Straddles(s: Segment, d: int) {
    StartsBelow(s, d) && s.hi > d
  }

  ghost predicate Halfway(files: Files, m: Manifest, dirty: Option<int>, all: Content, g: Grid)
    requires g.Valid()
  {
    && DiskOk(files, g) && SealedBelow(m.segments, m.sealedHi, dirty, all)
    && Named(m.segments, m.nextSeq) && Recorded(m.segments)
    && Backed(files, m.segments) && NextFresh(files, m.nextSeq)
  }

  ghost predicate CleanPresent(files: Files, segs: seq<Segment>, dirty: Option<int>) {
    forall i :: 0 <= i < |segs| && Clean(segs[i], dirty) ==> OnDisk(files, segs[i])
  }

  ghost predicate Unnamed(segs: seq<Segment>, n: nat) {
    forall i :: 0 <= i < |segs| ==> segs[i].seqNo != n
  }

  /** Files to delete after publication: used names that the list no longer mentions. */
  ghost predicate Discarded(stale: seq<nat>, segs: seq<Segment>, next: nat) {
    forall j :: 0 <= j < |stale| ==> stale[j] < next && Unnamed(segs, stale[j])
  }

  /** Every name of the old list is still in use or marked for deletion. */
  ghost predicate Accounted(was: seq<Segment>, now: seq<Segment>, stale: seq<nat>) {
    forall i :: 0 <= i < |was| ==> !Unnamed(now, was[i].seqNo) || was[i].seqNo in stale
  }

  /** So is every name given out in between. */
  ghost predicate Spent(lo: nat, hi: nat, segs: seq<Segment>, stale: seq<nat>) {
    lo <= hi && forall n :: lo <= n < hi ==> !Unnamed(segs, n) || n in stale
  }

  /** The segment files are old ones or carry a name given out in between. */
  ghost predicate Adds(was: Files, files: Files, lo: nat, hi: nat) {
    forall n: nat :: Seg(n) in files ==> Seg(n) in was || lo <= n < hi
  }

  /** What still reaches across the dirty point holds nothing below it. */
  ghost predicate HollowBelow(segs: seq<Segment>, dirty: Option<int>) {
    dirty.Some? ==>
      forall i :: 0 <= i < |segs| && Straddles(segs[i], dirty.value) ==> Slice(segs[i].digest, None, dirty) == map[]
  }

  /** No bucket with data that was sealed below the dirty point is given up. */
  ghost predicate KeepsSealed(was: Option<int>, now: Option<int>, dirty: Option<int>, all: Content) {
    was.Some? && dirty.Some? ==>
      forall k :: k in all && k.bucket < was.value && k.bucket < dirty.value ==> now.Some? && k.bucket < now.value
  }

  method FindStraddler(segs: seq<Segment>, d: int) returns (at: Option<nat>)
    ensures at.Some? ==> at.value < |segs| && Straddles(segs[at.value], d)
    ensures at.None? ==> forall i :: 0 <= i < |segs| ==> !Straddles(segs[i], d)
  {
    for i := 0 to |segs|
      invariant forall j :: 0 <= j < i ==> !Straddles(segs[j], d)
    {
      if Straddles(segs[i], d) { return Some(i); }
    }
    return None;
  }

  lemma WithoutStraddler(files: Files, segs: seq<Segment>, sealedHi: Option<int>, dirty: Option<int>, at: Option<nat>)
    requires Ladder(segs, sealedHi)
    requires at.Some? ==> at.value < |segs| && OnDisk(files, segs[at.value])
    requires dirty.Some? ==> forall i :: 0 <= i < |segs| && Some(i) != at ==> !Straddles(segs[i], dirty.value)
    ensures Needed(files, segs, dirty) <==> CleanPresent(files, segs, dirty)
  {
    if dirty.Some? {
      forall i | 0 <= i < |segs| && Some(i) != at ensures StartsBelow(segs[i], dirty.value) <==> Clean(segs[i], dirty) {
        assert Fits(segs[i], sealedHi);
      }
    }
  }

  lemma OneStraddler(segs: seq<Segment>, sealedHi: Option<int>, d: int, at: nat)
    requires Ladder(segs, sealedHi) && at < |segs| && Straddles(segs[at], d)
    ensures forall i :: 0 <= i < |segs| && i != at ==> !Straddles(segs[i], d)
  {
    forall i | 0 <= i < |segs| && i != at ensures !Straddles(segs[i], d) {
      assert if i < at then Before(segs[i], segs[at]) else Before(segs[at], segs[i]);
      assert Fits(segs[i], sealedHi) && Fits(segs[at], sealedHi);
    }
  }

  lemma PrefixDiscards(segs: seq<Segment>, next: nat, at: nat, seg: Segment)
    requires Named(segs, next) && at < |segs| && seg.seqNo == next
    ensures Discarded([segs[at].seqNo], segs[at := seg], next + 1)
  {
    var out := segs[at := seg];
    forall i | 0 <= i < |out| ensures out[i].seqNo != segs[at].seqNo {
      if i != at { assert if i < at then Distinct(segs[i], segs[at]) else Distinct(segs[at], segs[i]); }
    }
  }

  lemma PrefixStep(a: Files, b: Files, m: Manifest, d: int, at: nat, seg: Segment, all: Content, g: Grid)
    requires g.Valid() && Working(a, m, all, g) && at < |m.segments| && Straddles(m.segments[at], d)
    requires OnDisk(a, m.segments[at])
    requires seg.seqNo == m.nextSeq && seg.lo == m.segments[at].lo && seg.hi == d && seg.digest != map[]
    requires seg.digest == Slice(m.segments[at].digest, None, Some(d))
    requires SameBut(a, b, Seg(m.nextSeq)) && Seg(m.nextSeq) in b && b[Seg(m.nextSeq)] == Parquet(seg.digest)
    ensures var out := m.(segments := m.segments[at := seg], nextSeq := m.nextSeq + 1);
      && Halfway(b, out, Some(d), all, g)
      && (Needed(a, m.segments, Some(d)) <==> CleanPresent(b, out.segments, Some(d)))
      && Discarded([m.segments[at].seqNo], out.segments, out.nextSeq)
  {
    hide DiskOk, Faithful, CoveredBelow, Slice, Recorded, Discarded;
    var segs := m.segments;
    var out := segs[at := seg];
    PrefixKeepsSealed(segs, m.sealedHi, d, all, at, seg);
    UpdateNamed(segs, m.nextSeq, at, seg);
    DiskFrame(a, b, Seg(m.nextSeq), g);
    forall i | 0 <= i < |out| ensures Intact(b, out[i]) && (i != at ==> (OnDisk(b, out[i]) <==> OnDisk(a, segs[i]))) {
      assert Intact(a, segs[i]);
    }
    OneStraddler(segs, m.sealedHi, d, at);
    WithoutStraddler(a, segs, m.sealedHi, Some(d), Some(at));
    PrefixDiscards(segs, m.nextSeq, at, seg);
    if CleanPresent(a, segs, Some(d)) {
      forall i | 0 <= i < |out| && Clean(out[i], Some(d)) ensures OnDisk(b, out[i]) {
        if i != at { assert Clean(segs[i], Some(d)); }
      }
    }
    if CleanPresent(b, out, Some(d)) {
      forall i | 0 <= i < |segs| && Clean(segs[i], Some(d)) ensures OnDisk(a, segs[i]) {
        assert i != at ==> out[i] == segs[i];
      }
    }
  }

  lemma AccountedSame(segs: seq<Segment>, next: nat, stale: seq<nat>)
    ensures Accounted(segs, segs, stale) && Spent(next, next, segs, stale)
  {
  }

  lemma PrefixAccounted(segs: seq<Segment>, next: nat, at: nat, seg: Segment)
    requires at < |segs| && seg.seqNo == next
    ensures Accounted(segs, segs[at := seg], [segs[at].seqNo])
    ensures Spent(next, next + 1, segs[at := seg], [segs[at].seqNo])
  {
    var out, stale := segs[at := seg], [segs[at].seqNo];
    forall i | 0 <= i < |segs| ensures !Unnamed(out, segs[i].seqNo) || segs[i].seqNo in stale {
      if i != at { assert out[i] == segs[i]; }
    }
    assert out[at] == seg;
  }

  lemma NoStraddler(segs: seq<Segment>, sealedHi: Option<int>, d: int)
    requires Ladder(segs, sealedHi) && PastSealed(sealedHi, Some(d))
    ensures forall i :: 0 <= i < |segs| ==> !Straddles(segs[i], d)
  {
    forall i | 0 <= i < |segs| ensures !Straddles(segs[i], d) { assert Fits(segs[i], sealedHi); }
  }

  lemma KeepsSame(sealedHi: Option<int>, dirty: Option<int>, all: Content)
    ensures KeepsSealed(sealedHi, sealedHi, dirty, all)
  {
  }

  lemma AddsNamed(was: Files, files: Files, n: nat)
    requires SameBut(was, files, Seg(n))
    ensures Adds(was, files, n, n + 1) && (Seg(n) !in files ==> Adds(was, files, n, n))
  {
  }

  lemma AddsNothing(files: Files, n: nat)
    ensures Adds(files, files, n, n)
  {
  }

  lemma HollowIf(segs: seq<Segment>, dirty: Option<int>)
    requires dirty.Some? ==>
      forall i :: 0 <= i < |segs| && Straddles(segs[i], dirty.value) ==> Slice(segs[i].digest, None, dirty) == map[]
    ensures HollowBelow(segs, dirty)
  {
  }

  /** Keep the clean prefix of the one sealed segment straddling a bounded dirty point. */
  method PreservePrefix(dir: ResDir, m0: Manifest, dirty: Option<int>, g: Grid, sizeOf: Content -> SizeTier.U64,
                        ghost all: Content)
    returns (o: Outcome, m: Manifest, stale: seq<nat>)
    requires g.Valid() && Working(dir.files, m0, all, g)
    modifies dir
    ensures DiskOk(dir.files, g)
    ensures o.Failed? ==> !Needed(old(dir.files), m0.segments, dirty)
    ensures o.Done? ==> Halfway(dir.files, m, dirty, all, g)
    ensures o.Done? ==> (Needed(old(dir.files), m0.segments, dirty) <==> CleanPresent(dir.files, m.segments, dirty))
    ensures o.Done? ==> Discarded(stale, m.segments, m.nextSeq) && HollowBelow(m.segments, dirty)
    ensures o.Done? ==> Accounted(m0.segments, m.segments, stale) && Spent(m0.nextSeq, m.nextSeq, m.segments, stale)
    ensures o.Done? ==> Adds(old(dir.files), dir.files, m0.nextSeq, m.nextSeq) && Cut(m0, m, dirty)
    ensures dirty.Some? && PastSealed(m0.sealedHi, dirty) ==> o.Done? && m == m0 && stale == []
    ensures m == m0.(segments := m.segments, nextSeq := m.nextSeq, hotBytes := m.hotBytes)
    ensures old(dir.budget).None? ==> !o.Crashed? && dir.budget.None?
  {
    hide ManifestOk, Faithful, CoveredBelow, Slice, Named, Recorded, NextFresh, Sealed, Accounted, Spent, Adds,
         HollowBelow, Ladder, Cut;
    m, stale := m0, [];
    CutNowhere(m0, dirty);
    AddsNothing(dir.files, m0.nextSeq);
    SealedWeaken(m0.segments, m0.sealedHi, dirty, all);
    AccountedSame(m0.segments, m0.nextSeq, []);
    if dirty.None? {
      HollowIf(m0.segments, dirty);
      return Done, m, [];
    }
    if PastSealed(m0.sealedHi, dirty) { NoStraddler(m0.segments, m0.sealedHi, dirty.value); }
    var at := FindStraddler(m0.segments, dirty.value);
    if at.None? {
      WithoutStraddler(dir.files, m0.segments, m0.sealedHi, dirty, None);
      HollowIf(m0.segments, dirty);
      return Done, m, [];
    }
    var straddler := m0.segments[at.value];
    if Seg(straddler.seqNo) !in dir.files {
      assert !OnDisk(dir.files, m0.segments[at.value]);
      return Failed, m, [];
    }
    assert Intact(dir.files, m0.segments[at.value]);
    var prefix := Slice(dir.files[Seg(straddler.seqNo)].content, None, dirty);
    var alive := dir.WriteAtomic(Seg(m0.nextSeq), Parquet(prefix));
    if !alive {
      DiskFrame(old(dir.files), dir.files, Tmp(Seg(m0.nextSeq)), g);
      return Crashed, m, [];
    }
    ghost var written := dir.files;
    if prefix == map[] {
      DiskFrame(old(dir.files), written, Seg(m0.nextSeq), g);
      alive := dir.Remove(Seg(m0.nextSeq));
      if !alive { return Crashed, m, []; }
      DropUnused(old(dir.files), dir.files, m0, all, g);
      OneStraddler(m0.segments, m0.sealedHi, dirty.value, at.value);
      WithoutStraddler(old(dir.files), m0.segments, m0.sealedHi, dirty, at);
      HollowIf(m0.segments, dirty);
      AddsNamed(old(dir.files), dir.files, m0.nextSeq);
      return Done, m, [];
    }
    var seg := Segment(m0.nextSeq, straddler.lo, dirty.value, prefix, sizeOf(prefix));
    PrefixStep(old(dir.files), dir.files, m0, dirty.value, at.value, seg, all, g);
    OneStraddler(m0.segments, m0.sealedHi, dirty.value, at.value);
    PrefixAccounted(m0.segments, m0.nextSeq, at.value, seg);
    AddsNamed(old(dir.files), dir.files, m0.nextSeq);
    HollowIf(m0.segments[at.value := seg], dirty);
    m := m0.(segments := m0.segments[at.value := seg], nextSeq := m0.nextSeq + 1,
             hotBytes := SaturatingAdd(m0.hotBytes, straddler.bytes));
    CutThere(m0, m, dirty, at.value, seg);
    return Done, m, [straddler.seqNo];
  }

  /** Writing and deleting an unrecorded file leaves the work as it was. */
  lemma DropUnused(a: Files, b: Files, m: Manifest, all: Content, g: Grid)
    requires g.Valid() && Working(a, m, all, g)
    requires SameBut(a, b, Seg(m.nextSeq)) && Seg(m.nextSeq) !in b
    ensures Working(b, m, all, g)
    ensures forall i :: 0 <= i < |m.segments| ==> (OnDisk(a, m.segments[i]) <==> OnDisk(b, m.segments[i]))
    ensures Present(a, m.segments) <==> Present(b, m.segments)
  {
    hide ManifestOk, Sealed;
    DiskFrame(a, b, Seg(m.nextSeq), g);
    SegsFrame(a, b, Seg(m.nextSeq), m.segments);
  }

  /** Make everything at or above the dirty point hot again, keeping all that is sealed below it. */
  method Unseal(dir: ResDir, m0: Manifest, dirty: Option<int>, g: Grid, sizeOf: Content -> SizeTier.U64,
                ghost all: Content)
    returns (o: Outcome, m: Manifest, stale: seq<nat>)
    requires g.Valid() && Working(dir.files, m0, all, g)
    modifies dir
    ensures DiskOk(dir.files, g)
    ensures o.Failed? ==> !Needed(old(dir.files), m0.segments, dirty)
    ensures o.Done? ==> Working(dir.files, m, all, g)
    ensures o.Done? ==> (m.sealedHi.Some? ==> dirty.Some? && m.sealedHi.value <= dirty.value)
    ensures o.Done? ==> (Present(dir.files, m.segments) <==> Needed(old(dir.files), m0.segments, dirty))
    ensures o.Done? ==> Discarded(stale, m.segments, m.nextSeq) && KeepsSealed(m0.sealedHi, m.sealedHi, dirty, all)
    ensures o.Done? ==> Accounted(m0.segments, m.segments, stale) && Spent(m0.nextSeq, m.nextSeq, m.segments, stale)
    ensures o.Done? ==> Adds(old(dir.files), dir.files, m0.nextSeq, m.nextSeq)
    ensures o.Done? ==> m.hotBytes == SaturatingAdd(m0.hotBytes, Reopened(m0.segments, m.segments))
    ensures dirty.Some? && PastSealed(m0.sealedHi, dirty) ==> o.Done? && m == m0 && stale == []
    ensures m == m0.(segments := m.segments, sealedHi := m.sealedHi, nextSeq := m.nextSeq, hotBytes := m.hotBytes)
    ensures old(dir.budget).None? ==> !o.Crashed? && dir.budget.None?
  {
    hide ManifestOk, Faithful, CoveredBelow, Slice, Accounted, Spent, HollowBelow, Cut, Reopened;
    o, m, stale := PreservePrefix(dir, m0, dirty, g, sizeOf, all);
    if !o.Done? { return; }
    var before := m;
    var dropped: seq<Segment>;
    m, dropped := UnsealFrom(before, dirty, all);
    UnsealedWork(dir.files, before, m, dropped, dirty, stale);
    UnsealedAccounted(m0, before, m, dropped, stale);
    UnsealedBytes(m0, before, m, dropped, dirty);
    stale := stale + SeqNos(dropped);
  }

  lemma UnsealedAccounted(m0: Manifest, before: Manifest, m: Manifest, dropped: seq<Segment>, stale: seq<nat>)
    requires before.segments == m.segments + dropped
    requires Accounted(m0.segments, before.segments, stale)
    requires Spent(m0.nextSeq, before.nextSeq, before.segments, stale)
    ensures Accounted(m0.segments, m.segments, stale + SeqNos(dropped))
    ensures Spent(m0.nextSeq, before.nextSeq, m.segments, stale + SeqNos(dropped))
  {
    forall n | !Unnamed(before.segments, n) ensures !Unnamed(m.segments, n) || n in SeqNos(dropped) {
      var i :| 0 <= i < |before.segments| && before.segments[i].seqNo == n;
      if i < |m.segments| {
        assert m.segments[i].seqNo == n;
      } else {
        assert SeqNos(dropped)[i - |m.segments|] == n;
      }
    }
  }

  lemma UnsealedWork(files: Files, before: Manifest, m: Manifest, dropped: seq<Segment>, dirty: Option<int>,
                     stale: seq<nat>)
    requires before.segments == m.segments + dropped && before.nextSeq == m.nextSeq
    requires forall i :: 0 <= i < |m.segments| ==> Clean(m.segments[i], dirty)
    requires forall i :: 0 <= i < |dropped| ==> !Clean(dropped[i], dirty)
    requires Named(before.segments, before.nextSeq) && Recorded(before.segments) && Backed(files, before.segments)
    requires Discarded(stale, before.segments, before.nextSeq)
    ensures Named(m.segments, m.nextSeq) && Recorded(m.segments) && Backed(files, m.segments)
    ensures Present(files, m.segments) <==> CleanPresent(files, before.segments, dirty)
    ensures Discarded(stale + SeqNos(dropped), m.segments, m.nextSeq)
  {
    var n := |m.segments|;
    var all := before.segments;
    PrefixNamed(all, m.nextSeq, n);
    assert all[..n] == m.segments;
    forall i | 0 <= i < n ensures Intact(files, m.segments[i]) { assert Intact(files, all[i]); }
    forall i | n <= i < |all| ensures !Clean(all[i], dirty) { assert all[i] == dropped[i - n]; }
    if Present(files, m.segments) {
      forall i | 0 <= i < |all| && Clean(all[i], dirty) ensures OnDisk(files, all[i]) {
        assert OnDisk(files, m.segments[i]);
      }
    }
    if CleanPresent(files, all, dirty) {
      forall i | 0 <= i < n ensures OnDisk(files, m.segments[i]) { assert Clean(all[i], dirty); }
    }
    var names := stale + SeqNos(dropped);
    forall j | 0 <= j < |names| ensures names[j] < m.nextSeq && Unnamed(m.segments, names[j]) {
      if j < |stale| {
        assert Unnamed(all, stale[j]);
        forall i | 0 <= i < n ensures m.segments[i].seqNo != names[j] { assert all[i] == m.segments[i]; }
      } else {
        var d := n + j - |stale|;
        assert all[d].seqNo == names[j];
        forall i | 0 <= i < n ensures m.segments[i].seqNo != names[j] { assert Distinct(all[i], all[d]); }
      }
    }
  }
}
