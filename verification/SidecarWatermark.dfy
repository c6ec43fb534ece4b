/**
 Reading a series in instalments: everything up to a version number now, what is numbered above it later.
 */
module SidecarWatermark {
  import opened Wrappers
  import opened Sidecar
  import opened SidecarCache

  function Above(w: int): Bounds {
    Bounds(None, Some(w))
  }

  /** The versions numbered at most `w`. */
  ghost function UpTo(w: int, live: seq<VersionInfo>): seq<VersionInfo> {
    if live == [] then [] else (if live[0].version <= w then [live[0]] else []) + UpTo(w, live[1..])
  }

  ghost predicate Ascending(live: seq<VersionInfo>) {
    forall i, j :: 0 <= i < j < |live| ==> live[i].version < live[j].version
  }

  // ----- one list of live versions -----

  /** With both bounds a version is read exactly when it is read with each of them. */
  lemma {:induction false} BoundsCombine(lo: Option<int>, w: int, live: seq<VersionInfo>)
    ensures RetainedBy(Bounds(lo, Some(w)), live) == RetainedBy(Bounds(lo, None), RetainedBy(Above(w), live))
  {
    if live != [] {
      BoundsCombine(lo, w, live[1..]);
      var rest := RetainedBy(Above(w), live[1..]);
      if Retains(Above(w), live[0]) {
        assert ([live[0]] + rest)[1..] == rest;
      } else {
        assert [] + rest == rest;
      }
    }
  }

  /** A version is read above the watermark or counted up to it, never both and never neither. */
  lemma {:induction false} SplitVersions(w: int, live: seq<VersionInfo>)
    ensures multiset(UpTo(w, live)) + multiset(RetainedBy(Above(w), live)) == multiset(live)
  {
    if live != [] {
      SplitVersions(w, live[1..]);
      assert live == [live[0]] + live[1..];
    }
  }

  lemma {:induction false} SplitMembers(w: int, live: seq<VersionInfo>, v: VersionInfo)
    ensures v in UpTo(w, live) <==> v in live && v.version <= w
    ensures v in RetainedBy(Above(w), live) <==> v in live && v.version > w
  {
    if live != [] {
      SplitMembers(w, live[1..], v);
      assert live == [live[0]] + live[1..];
    }
  }

  /** In ascending order the two parts follow one another. */
  lemma {:induction false} SplitAscending(w: int, live: seq<VersionInfo>)
    requires Ascending(live)
    ensures UpTo(w, live) + RetainedBy(Above(w), live) == live
  {
    if live != [] {
      var rest := live[1..];
      SplitAscending(w, rest);
      if live[0].version > w {
        forall i | 0 <= i < |rest| ensures rest[i].version > w { assert rest[i] == live[i + 1]; }
        AllAbove(w, rest);
      }
    }
  }

  lemma {:induction false} AllAbove(w: int, live: seq<VersionInfo>)
    requires forall i :: 0 <= i < |live| ==> live[i].version > w
    ensures UpTo(w, live) == []
  {
    if live != [] { AllAbove(w, live[1..]); }
  }

  /** In ascending order, the rows up to the watermark followed by those read above it are all rows. */
  lemma WatermarkRead(w: int, node: NodeId, live: seq<VersionInfo>, parse: Parse)
    requires Ascending(live)
    ensures LiveRows(node, UpTo(w, live), parse) + LiveRows(node, RetainedBy(Above(w), live), parse)
         == LiveRows(node, live, parse)
  {
    hide LiveRows, RetainedBy, UpTo;
    SplitAscending(w, live);
    LiveRowsConcat(node, UpTo(w, live), RetainedBy(Above(w), live), parse);
  }

  // ----- order does not matter -----

  /** In any order, each row is in one of the two parts, once. */
  lemma WatermarkSplits(w: int, node: NodeId, live: seq<VersionInfo>, parse: Parse)
    ensures multiset(LiveRows(node, UpTo(w, live), parse)) + multiset(LiveRows(node, RetainedBy(Above(w), live), parse))
         == multiset(LiveRows(node, live, parse))
  {
    hide LiveRows, RetainedBy, UpTo;
    var low, high := UpTo(w, live), RetainedBy(Above(w), live);
    SplitVersions(w, live);
    RowsAnyOrder(node, low + high, live, parse);
    LiveRowsConcat(node, low, high, parse);
  }

  /** The part of a glob read that the watermark leaves out. */
  ghost function GlobUpTo(w: int, members: seq<Member>, parse: Parse): seq<Record> {
    if members == [] then []
    else
      var last := members[|members| - 1];
      GlobUpTo(w, members[..|members| - 1], parse) + LiveRows(last.node, UpTo(w, last.live), parse)
  }

  /** The same over several nodes with one watermark. */
  lemma {:induction false} GlobWatermark(w: int, members: seq<Member>, parse: Parse)
    ensures multiset(GlobUpTo(w, members, parse)) + multiset(GlobRows(members, Above(w), parse))
         == multiset(GlobRows(members, Bounds(None, None), parse))
  {
    hide LiveRows, RetainedBy, UpTo;
    if members != [] {
      var last := members[|members| - 1];
      GlobWatermark(w, members[..|members| - 1], parse);
      WatermarkSplits(w, last.node, last.live, parse);
      RetainedAll(last.live);
    }
  }

  // ----- two reads with a history between them -----

  /** Version numbers are given out in order: every new version, merged or not, gets a higher one. */
  ghost predicate Numbered(events: seq<Event>) {
    forall i, j :: 0 <= i < j < |events| ==> NumberOf(events[i]) < NumberOf(events[j])
  }

  function NumberOf(e: Event): nat {
    match e
    case Written(v) => v.version
    case Collapsed(_, _, merged) => merged.version
  }

  /** The rows written after the first `n` events. */
  ghost function LaterRows(node: NodeId, events: seq<Event>, n: nat, parse: Parse): seq<Record>
    requires n <= |events|
    decreases |events|
  {
    if n == |events| then []
    else
      var rows := LaterRows(node, events[..|events| - 1], n, parse);
      match events[|events| - 1]
      case Written(v) => rows + parse(v.version, VersionKey(node, v))
      case Collapsed(_, _, _) => rows
  }

  lemma {:induction false} WrittenInTwo(node: NodeId, events: seq<Event>, n: nat, parse: Parse)
    requires n <= |events|
    ensures WrittenRows(node, events, parse) ==
      WrittenRows(node, events[..n], parse) + LaterRows(node, events, n, parse)
    decreases |events|
  {
    hide VersionKey;
    if n == |events| {
      assert events[..n] == events;
    } else {
      var init := events[..|events| - 1];
      WrittenInTwo(node, init, n, parse);
      assert init[..n] == events[..n];
    }
  }

  /** Every live version was numbered by some event. */
  lemma {:induction false} LiveNumbered(events: seq<Event>, v: VersionInfo)
    requires v in LiveAfter(events)
    ensures exists i :: 0 <= i < |events| && NumberOf(events[i]) == v.version
  {
    var init, last := events[..|events| - 1], events[|events| - 1];
    if v in LiveAfter(init) {
      LiveNumbered(init, v);
      var i :| 0 <= i < |init| && NumberOf(init[i]) == v.version;
      assert events[i] == init[i];
    } else {
      assert NumberOf(last) == v.version;
    }
  }

  lemma {:induction false} LiveDistinct(events: seq<Event>)
    requires Numbered(events)
    ensures forall i, j :: 0 <= i < j < |LiveAfter(events)| ==> LiveAfter(events)[i] != LiveAfter(events)[j]
  {
    if events != [] {
      var init, last := events[..|events| - 1], events[|events| - 1];
      LiveDistinct(init);
      var live := LiveAfter(init);
      forall v | v in live ensures v.version < NumberOf(last) {
        LiveNumbered(init, v);
        var i :| 0 <= i < |init| && NumberOf(init[i]) == v.version;
        assert events[i] == init[i];
      }
      assert forall i :: 0 <= i < |live| ==> live[i] in live;
    }
  }

  lemma {:induction false} UpToConcat(w: int, a: seq<VersionInfo>, b: seq<VersionInfo>)
    ensures UpTo(w, a + b) == UpTo(w, a) + UpTo(w, b)
  {
    if a == [] {
      assert a + b == b;
    } else {
      var head, rest := if a[0].version <= w then [a[0]] else [], UpTo(w, a[1..]);
      assert (a + b)[0] == a[0] && (a + b)[1..] == a[1..] + b;
      UpToConcat(w, a[1..], b);
      assert UpTo(w, a + b) == head + (rest + UpTo(w, b)) == (head + rest) + UpTo(w, b);
    }
  }

  lemma {:induction false} AllUpTo(w: int, live: seq<VersionInfo>)
    requires forall i :: 0 <= i < |live| ==> live[i].version <= w
    ensures UpTo(w, live) == live
  {
    if live != [] { AllUpTo(w, live[1..]); }
  }

  /** `w` separates the versions live after the first `n` events from the numbers given out later. */
  ghost predicate Separates(w: int, events: seq<Event>, n: nat)
    requires n <= |events|
  {
    && (forall v :: v in LiveAfter(events[..n]) ==> v.version <= w)
    && (forall i :: n <= i < |events| ==> w < NumberOf(events[i]))
  }

  /** A merge takes its inputs out of the part up to the watermark. */
  lemma UpToMerged(w: int, a: seq<VersionInfo>, b: seq<VersionInfo>, c: seq<VersionInfo>, merged: VersionInfo)
    requires w < merged.version
    ensures multiset(UpTo(w, a + b + c)) == multiset(UpTo(w, a + [merged] + c)) + multiset(UpTo(w, b))
  {
    AllAbove(w, [merged]);
    hide UpTo;
    UpToConcat(w, a + b, c);
    UpToConcat(w, a, b);
    UpToConcat(w, a + [merged], c);
    UpToConcat(w, a, [merged]);
  }

  /** An event that gets a number above the watermark only takes versions out of that part. */
  lemma UpToStep(w: int, events: seq<Event>) returns (lost: seq<VersionInfo>)
    requires events != [] && w < NumberOf(events[|events| - 1])
    ensures multiset(UpTo(w, LiveAfter(events[..|events| - 1])))
         == multiset(UpTo(w, LiveAfter(events))) + multiset(lost)
  {
    hide UpTo;
    var live := LiveAfter(events[..|events| - 1]);
    lost := [];
    match events[|events| - 1] {
      case Written(v) =>
        UpToConcat(w, live, [v]);
        AllAbove(w, [v]);
      case Collapsed(i, j, merged) =>
        if i <= j <= |live| {
          assert live == live[..i] + live[i..j] + live[j..];
          UpToMerged(w, live[..i], live[i..j], live[j..], merged);
          lost := UpTo(w, live[i..j]);
        }
    }
  }

  /** What is live up to the watermark are versions that were live then, less those merged since. */
  lemma {:induction false} Survivors(w: int, events: seq<Event>, n: nat) returns (gone: seq<VersionInfo>)
    requires n <= |events| && Separates(w, events, n)
    ensures multiset(UpTo(w, LiveAfter(events))) + multiset(gone) == multiset(LiveAfter(events[..n]))
    decreases |events|
  {
    hide UpTo, LiveAfter;
    if n == |events| {
      assert events[..n] == events;
      AllUpTo(w, LiveAfter(events));
      gone := [];
    } else {
      var init := events[..|events| - 1];
      assert init[..n] == events[..n];
      gone := Survivors(w, init, n);
      var lost := UpToStep(w, events);
      gone := gone + lost;
    }
  }

  lemma {:induction false} RowsOf(node: NodeId, vs: seq<VersionInfo>, parse: Parse)
    ensures LiveRows(node, vs, parse) == [] <==> forall v :: v in vs ==> parse(v.version, VersionKey(node, v)) == []
  {
    hide VersionKey;
    if vs != [] {
      RowsOf(node, vs[1..], parse);
      assert vs == [vs[0]] + vs[1..];
    }
  }

  /** Every version with rows that was live at the first read is live still. */
  ghost predicate Unmerged(node: NodeId, events: seq<Event>, n: nat, parse: Parse)
    requires n <= |events|
  {
    forall v :: v in LiveAfter(events[..n]) && parse(v.version, VersionKey(node, v)) != [] ==> v in LiveAfter(events)
  }

  lemma GoneMeans(w: int, node: NodeId, events: seq<Event>, n: nat, parse: Parse, gone: seq<VersionInfo>)
    requires n <= |events| && Numbered(events) && Separates(w, events, n)
    requires multiset(UpTo(w, LiveAfter(events))) + multiset(gone) == multiset(LiveAfter(events[..n]))
    ensures LiveRows(node, gone, parse) == [] <==> Unmerged(node, events, n, parse)
  {
    hide VersionKey, LiveAfter, UpTo;
    var first, now := LiveAfter(events[..n]), LiveAfter(events);
    assert Numbered(events[..n]);
    LiveDistinct(events[..n]);
    RowsOf(node, gone, parse);
    forall v | v in first ensures v in gone <==> v !in now {
      SplitMembers(w, now, v);
      OnceEach(first, v);
      assert multiset(first)[v] == multiset(UpTo(w, now))[v] + multiset(gone)[v];
      assert v in UpTo(w, now) <==> multiset(UpTo(w, now))[v] > 0;
      assert v in gone <==> multiset(gone)[v] > 0;
    }
    forall v | v in gone ensures v in first { assert v in multiset(first); }
  }

  lemma {:induction false} OnceEach(s: seq<VersionInfo>, v: VersionInfo)
    requires v in s && forall i, j :: 0 <= i < j < |s| ==> s[i] != s[j]
    ensures multiset(s)[v] == 1
  {
    var rest := s[1..];
    assert s == [s[0]] + rest;
    forall k | 0 <= k < |rest| ensures rest[k] == s[k + 1] != s[0] {}
    if s[0] == v {
      assert v !in rest;
    } else {
      forall i, j | 0 <= i < j < |rest| ensures rest[i] != rest[j] { assert s[i + 1] != s[j + 1]; }
      OnceEach(rest, v);
    }
  }

  /** A second read above the watermark of a first sees exactly the rows written in between, if and only if no
      version that the first one read was merged since: a merged version has a number above the watermark. */
  lemma WatermarkExact(w: int, node: NodeId, events: seq<Event>, n: nat, parse: Parse)
    requires n <= |events| && Lossless(node, events, parse)
    requires Numbered(events) && Separates(w, events, n)
    ensures var read := LiveRows(node, RetainedBy(Above(w), LiveAfter(events)), parse);
      multiset(read) == multiset(LaterRows(node, events, n, parse)) <==> Unmerged(node, events, n, parse)
  {
    hide LiveRows, RetainedBy, UpTo, LiveAfter, WrittenRows, LaterRows, Lossless, Numbered, Separates, Unmerged;
    var gone := Survivors(w, events, n);
    GoneMeans(w, node, events, n, parse, gone);
    var low, first, now := UpTo(w, LiveAfter(events)), LiveAfter(events[..n]), LiveAfter(events);
    RowsAnyOrder(node, low + gone, first, parse);
    LiveRowsConcat(node, low, gone, parse);
    WatermarkSplits(w, node, now, parse);
    HistoryConserves(node, events, parse);
    LosslessPrefix(node, events, n, parse);
    HistoryConserves(node, events[..n], parse);
    WrittenInTwo(node, events, n, parse);
    Cancel(LiveRows(node, low, parse), LiveRows(node, gone, parse), LiveRows(node, RetainedBy(Above(w), now), parse),
           LaterRows(node, events, n, parse));
  }

  lemma {:induction false} LosslessPrefix(node: NodeId, events: seq<Event>, n: nat, parse: Parse)
    requires n <= |events| && Lossless(node, events, parse)
    ensures Lossless(node, events[..n], parse)
    decreases |events|
  {
    hide VersionKey, LiveRows, LiveAfter;
    if n == |events| {
      assert events[..n] == events;
    } else {
      var init := events[..|events| - 1];
      LosslessPrefix(node, init, n, parse);
      assert init[..n] == events[..n];
    }
  }

  lemma Cancel(low: seq<Record>, gone: seq<Record>, read: seq<Record>, later: seq<Record>)
    requires multiset(low) + multiset(read) == multiset(low) + multiset(gone) + multiset(later)
    ensures multiset(read) == multiset(later) <==> gone == []
  {
    assert multiset(read) == multiset(low) + multiset(read) - multiset(low);
    assert multiset(read) == multiset(gone) + multiset(later);
    if multiset(read) == multiset(later) {
      assert |multiset(gone)| == |gone|;
      assert |multiset(read)| == |multiset(gone)| + |multiset(later)|;
    }
  }

  /** Write two versions, read them, collapse them: the next read above the watermark returns their rows again
      although nothing was written. */
  lemma CollapseRepeats(node: NodeId, a: VersionInfo, b: VersionInfo, merged: VersionInfo, parse: Parse)
    requires 0 < a.version < b.version < merged.version
    requires var rows := parse(a.version, VersionKey(node, a)) + parse(b.version, VersionKey(node, b));
      parse(merged.version, VersionKey(node, merged)) == rows && rows != []
    ensures var events := [Written(a), Written(b), Collapsed(0, 2, merged)];
      && Lossless(node, events, parse) && Numbered(events) && Separates(b.version, events, 2)
      && LaterRows(node, events, 2, parse) == []
      && LiveRows(node, RetainedBy(Above(b.version), LiveAfter(events)), parse) ==
        WrittenRows(node, events, parse) != []
  {
    hide VersionKey, LiveAfter;
    var e1, e2 := [Written(a), Written(b)], [Written(a), Written(b), Collapsed(0, 2, merged)];
    assert e2[..2] == e1;
    TwoThenOne(a, b, merged);
    TwoRows(node, a, b, parse);
    LiveRowsOne(node, merged, parse);
    assert RetainedBy(Above(b.version), [merged]) == [merged] + [];
    assert [a, b][0..2] == [a, b];
    assert Collapsed(0, 2, merged) == e2[2];
  }

  lemma TwoRows(node: NodeId, a: VersionInfo, b: VersionInfo, parse: Parse)
    ensures var rows := parse(a.version, VersionKey(node, a)) + parse(b.version, VersionKey(node, b));
      LiveRows(node, [a, b], parse) == rows == WrittenRows(node, [Written(a), Written(b)], parse)
    ensures Lossless(node, [Written(a), Written(b)], parse)
  {
    hide VersionKey, LiveAfter;
    var e0, e1 := [Written(a)], [Written(a), Written(b)];
    assert e0[..0] == [] && e1[..1] == e0;
    assert [a, b] == [a] + [b];
    LiveRowsConcat(node, [a], [b], parse);
    LiveRowsOne(node, a, parse);
    LiveRowsOne(node, b, parse);
    assert Lossless(node, [], parse) && Lossless(node, e0, parse);
    assert WrittenRows(node, [], parse) == [];
    assert WrittenRows(node, e0, parse) == [] + parse(a.version, VersionKey(node, a));
  }

  lemma TwoThenOne(a: VersionInfo, b: VersionInfo, merged: VersionInfo)
    ensures LiveAfter([Written(a)]) == [a] && LiveAfter([Written(a), Written(b)]) == [a, b]
    ensures LiveAfter([Written(a), Written(b), Collapsed(0, 2, merged)]) == [merged]
  {
    var e0, e1, e2 := [Written(a)], [Written(a), Written(b)], [Written(a), Written(b), Collapsed(0, 2, merged)];
    assert e0[..0] == [] && e1[..1] == e0 && e2[..2] == e1;
    assert LiveAfter([]) == [] && LiveAfter(e0) == [a] && LiveAfter(e1) == [a, b];
    assert [a, b][..0] + [merged] + [a, b][2..] == [merged];
  }
}
