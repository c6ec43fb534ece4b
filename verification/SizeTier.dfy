/**
 The size-tiered merge policy shared by every accumulating segment store.

 `SizeClass` and `ChooseMergeWindow` are the two loops of the policy.  Their contracts are
 declarative; the run-level results below (write amplification, live-segment count) use
 only those contracts.
 */
module SizeTier {
  import opened Wrappers

  const FANOUT: nat := 10
  const U64_MAX: nat := 0xFFFF_FFFF_FFFF_FFFF
  const TOP_CLASS: nat := 19

  type U64 = x: int | 0 <= x <= U64_MAX

  function Pow10(k: nat): (p: nat)
    ensures p >= 1
  {
    if k == 0 then 1 else FANOUT * Pow10(k - 1)
  }

  /** Order of magnitude: the number of decimal digits beyond the first. */
  function Class(bytes: nat): nat {
    if bytes < FANOUT then 0 else 1 + Class(bytes / FANOUT)
  }

  ghost predicate InClass(bytes: nat, c: nat) {
    (c == 0 || Pow10(c) <= bytes) && bytes < Pow10(c + 1)
  }

  lemma {:induction false} ClassBounds(bytes: nat)
    ensures InClass(bytes, Class(bytes))
  {
    if bytes >= FANOUT {
      ClassBounds(bytes / FANOUT);
    }
  }

  lemma {:induction false} Pow10Mono(a: nat, b: nat)
    requires a <= b
    ensures Pow10(a) <= Pow10(b)
    decreases b - a
  {
    if a < b { Pow10Mono(a, b - 1); }
  }

  lemma Pow10Reflects(a: nat, b: nat)
    requires Pow10(a) < Pow10(b)
    ensures a < b
  {
    if b <= a { Pow10Mono(b, a); }
  }

  /** A byte count has one class, so the bounds determine it. */
  lemma ClassUnique(bytes: nat, c: nat)
    requires InClass(bytes, c)
    ensures Class(bytes) == c
  {
    ClassBounds(bytes);
    if c > 0 { Pow10Reflects(c, Class(bytes) + 1); }
    if Class(bytes) > 0 { Pow10Reflects(Class(bytes), c + 1); }
  }

  lemma {:induction false} ClassMono(a: nat, b: nat)
    requires a <= b
    ensures Class(a) <= Class(b)
  {
    if a >= FANOUT { ClassMono(a / FANOUT, b / FANOUT); }
  }

  lemma ClassTop(bytes: nat)
    requires bytes <= U64_MAX
    ensures Class(bytes) <= TOP_CLASS
  {
    ClassBounds(bytes);
    assert Pow10(5) == 100000;
    assert Pow10(10) == 10000000000;
    assert Pow10(15) == 1000000000000000;
    assert Pow10(20) == 100000000000000000000;
    if Class(bytes) > 0 { Pow10Reflects(Class(bytes), 20); }
  }

  /** The loop with a checked 64-bit multiplication never loses a class. */
  method SizeClass(bytes: U64) returns (tier: nat)
    ensures tier == Class(bytes) <= TOP_CLASS
  {
    tier := 0;
    var bound: U64 := FANOUT;
    assert Pow10(1) == 10;
    while bytes >= bound
      invariant bound == Pow10(tier + 1)
      invariant tier == 0 || Pow10(tier) <= bytes
      decreases U64_MAX - bound
    {
      tier := tier + 1;
      if bound * FANOUT > U64_MAX { break; }
      bound := bound * FANOUT;
    }
    ClassUnique(bytes, tier);
    ClassTop(bytes);
  }

  // ----- the window choice -----

  /** The half-open range `start..end` of segments to merge. */
  datatype Window = Window(start: nat, end: nat)

  /** Ten adjacent segments of one class start at `i`. */
  ghost predicate FullRun(sizes: seq<nat>, i: int) {
    && 0 <= i && i + FANOUT <= |sizes|
    && forall j :: i <= j < i + FANOUT ==> Class(sizes[j]) == Class(sizes[i])
  }

  ghost predicate NoFullRun(sizes: seq<nat>) {
    forall i :: !FullRun(sizes, i)
  }

  function Sum(s: seq<nat>): nat {
    if s == [] then 0 else s[0] + Sum(s[1..])
  }

  function Width(n: nat): nat {
    if n < FANOUT then n else FANOUT
  }

  function Cost(sizes: seq<nat>, start: nat, width: nat): nat
    requires start + width <= |sizes|
  {
    Sum(sizes[start..start + width])
  }

  /** No window of this width rewrites fewer bytes, and every older one rewrites more. */
  ghost predicate LeftmostCheapest(sizes: seq<nat>, width: nat, i: nat) {
    && i + width <= |sizes|
    && (forall j: nat :: j + width <= |sizes| ==> Cost(sizes, i, width) <= Cost(sizes, j, width))
    && (forall j: nat :: j < i ==> Cost(sizes, i, width) < Cost(sizes, j, width))
  }

  /** What the policy promises about its choice. */
  ghost predicate Chosen(sizes: seq<nat>, maxLive: nat, w: Option<Window>) {
    if |sizes| < 2 then w == None
    else if !NoFullRun(sizes) then
      && w.Some? && w.value.end == w.value.start + FANOUT
      && FullRun(sizes, w.value.start)
      && forall i :: i < w.value.start ==> !FullRun(sizes, i)
    else if |sizes| > maxLive then
      && w.Some? && w.value.end == w.value.start + Width(|sizes|)
      && LeftmostCheapest(sizes, Width(|sizes|), w.value.start)
    else w == None
  }

  lemma CheapestUnique(sizes: seq<nat>, width: nat, a: nat, b: nat)
    requires LeftmostCheapest(sizes, width, a) && LeftmostCheapest(sizes, width, b)
    ensures a == b
  {
    var costA, costB := Cost(sizes, a, width), Cost(sizes, b, width);
    assert costA == costB;
  }

  /** The promise leaves no freedom: two choices that meet it are the same. */
  lemma ChosenUnique(sizes: seq<nat>, maxLive: nat, v: Option<Window>, w: Option<Window>)
    requires Chosen(sizes, maxLive, v) && Chosen(sizes, maxLive, w)
    ensures v == w
  {
    if |sizes| >= 2 && !NoFullRun(sizes) {
      assert FullRun(sizes, v.value.start) && FullRun(sizes, w.value.start);
    } else if |sizes| >= 2 && |sizes| > maxLive {
      CheapestUnique(sizes, Width(|sizes|), v.value.start, w.value.start);
    }
  }

  method Classes(sizes: seq<U64>) returns (classes: seq<nat>)
    ensures |classes| == |sizes| && forall j :: 0 <= j < |sizes| ==> classes[j] == Class(sizes[j])
  {
    hide Class;
    classes := [];
    for i := 0 to |sizes|
      invariant |classes| == i
      invariant forall j :: 0 <= j < i ==> classes[j] == Class(sizes[j])
    {
      var c := SizeClass(sizes[i]);
      classes := classes + [c];
    }
  }

  /** Scan the maximal runs of one class, oldest first. */
  method FirstFullRun(sizes: seq<U64>, classes: seq<nat>) returns (at: Option<nat>)
    requires |classes| == |sizes| && forall j :: 0 <= j < |sizes| ==> classes[j] == Class(sizes[j])
    ensures at.Some? ==> FullRun(sizes, at.value) && forall i :: i < at.value ==> !FullRun(sizes, i)
    ensures at.None? ==> NoFullRun(sizes)
  {
    hide Class;
    var start := 0;
    while start < |classes|
      invariant 0 <= start <= |classes|
      // every earlier position, and every run crossing into `start`, is short
      invariant forall i :: i < start ==> !FullRun(sizes, i)
    {
      var end := start + 1;
      while end < |classes| && classes[end] == classes[start]
        invariant start < end <= |classes|
        invariant forall j :: start <= j < end ==> classes[j] == classes[start]
      {
        end := end + 1;
      }
      if end - start >= FANOUT {
        assert FullRun(sizes, start);
        return Some(start);
      }
      forall i | start <= i < end ensures !FullRun(sizes, i) {
        // a full run from here would have to contain the segment that ended the scan
        assert end < i + FANOUT <= |sizes| ==> Class(sizes[end]) != Class(sizes[i]);
      }
      start := end;
    }
    assert NoFullRun(sizes);
    return None;
  }

  method CheapestWindow(sizes: seq<U64>, width: nat) returns (best: nat)
    requires width <= |sizes|
    ensures LeftmostCheapest(sizes, width, best)
  {
    hide Cost;
    best := 0;
    for i := 1 to |sizes| - width + 1
      invariant 0 <= best < i
      invariant forall j: nat :: j < i ==> Cost(sizes, best, width) <= Cost(sizes, j, width)
      invariant forall j: nat :: j < best ==> Cost(sizes, best, width) < Cost(sizes, j, width)
    {
      if Cost(sizes, i, width) < Cost(sizes, best, width) { best := i; }
    }
  }

  /** The oldest ten adjacent segments of one class, or, when there are too many segments, the cheapest window. */
  method ChooseMergeWindow(sizes: seq<U64>, maxLive: nat) returns (w: Option<Window>)
    ensures Chosen(sizes, maxLive, w)
    ensures w.Some? ==> w.value.start + 2 <= w.value.end <= |sizes|
  {
    hide Class, Cost;
    if |sizes| < 2 { return None; }
    var classes := Classes(sizes);
    var at := FirstFullRun(sizes, classes);
    if at.Some? { return Some(Window(at.value, at.value + FANOUT)); }
    if |sizes| > maxLive {
      var best := CheapestWindow(sizes, Width(|sizes|));
      return Some(Window(best, best + Width(|sizes|)));
    }
    return None;
  }

  // ----- sums over spliced sequences -----

  lemma {:induction false} SumConcat(a: seq<nat>, b: seq<nat>)
    ensures Sum(a + b) == Sum(a) + Sum(b)
  {
    if a == [] {
      assert a + b == b;
    } else {
      assert (a + b)[1..] == a[1..] + b;
      SumConcat(a[1..], b);
    }
  }

  /** Replace the window by one segment holding all its bytes. */
  function Splice(sizes: seq<nat>, w: Window): seq<nat>
    requires w.start <= w.end <= |sizes|
  {
    sizes[..w.start] + [Sum(sizes[w.start..w.end])] + sizes[w.end..]
  }

  lemma Split3(sizes: seq<nat>, w: Window)
    requires w.start <= w.end <= |sizes|
    ensures sizes == sizes[..w.start] + (sizes[w.start..w.end] + sizes[w.end..])
  {
  }

  lemma SumSplice(sizes: seq<nat>, w: Window)
    requires w.start <= w.end <= |sizes|
    ensures Sum(Splice(sizes, w)) == Sum(sizes)
  {
    var a, b, c := sizes[..w.start], sizes[w.start..w.end], sizes[w.end..];
    Split3(sizes, w);
    SumConcat(a, b + c);
    SumConcat(b, c);
    SumConcat(a + [Sum(b)], c);
    SumConcat(a, [Sum(b)]);
  }

  // ----- ten of one class make one of exactly the next class -----

  lemma {:induction false} RunSum(s: seq<nat>, c: nat)
    requires forall j :: 0 <= j < |s| ==> s[j] >= 1 && Class(s[j]) == c
    ensures |s| * Pow10(c) <= Sum(s) <= |s| * (Pow10(c + 1) - 1)
  {
    if s != [] {
      RunSum(s[1..], c);
      ClassBounds(s[0]);
      OneMore(|s| - 1, Pow10(c));
      OneMore(|s| - 1, Pow10(c + 1) - 1);
    }
  }

  lemma OneMore(n: int, x: int)
    ensures (n + 1) * x == n * x + x
  {
  }

  lemma RunMergesUp(s: seq<nat>, c: nat)
    requires |s| == FANOUT
    requires forall j :: 0 <= j < |s| ==> s[j] >= 1 && Class(s[j]) == c
    ensures Class(Sum(s)) == c + 1
  {
    RunSum(s, c);
    assert Pow10(c + 2) == FANOUT * Pow10(c + 1);
    ClassUnique(Sum(s), c + 1);
  }

  // ----- write amplification over any run -----

  datatype Store = Store(sizes: seq<nat>, appended: nat, rewritten: nat)

  ghost predicate NonEmptySegments(sizes: seq<nat>) {
    forall j :: 0 <= j < |sizes| ==> sizes[j] >= 1
  }

  ghost predicate AppendStep(s: Store, t: Store) {
    exists b: nat :: b >= 1 && t == Store(s.sizes + [b], s.appended + b, s.rewritten)
  }

  /** One compaction step whose window is the policy's choice, merged size being the sum. */
  ghost predicate MergeStep(s: Store, t: Store, maxLive: nat) {
    exists w: Window ::
      && Chosen(s.sizes, maxLive, Some(w))
      && w.start <= w.end <= |s.sizes|
      && t == Store(Splice(s.sizes, w), s.appended, s.rewritten + Sum(s.sizes[w.start..w.end]))
  }

  /** Appends and same-class merges in any order, from an empty store; the backstop is never needed. */
  ghost predicate TieredRun(run: seq<Store>, maxLive: nat) {
    && |run| > 0 && run[0] == Store([], 0, 0)
    && forall i :: 0 <= i < |run| - 1 ==>
         || AppendStep(run[i], run[i + 1])
         || (|run[i].sizes| <= maxLive && MergeStep(run[i], run[i + 1], maxLive))
  }

  function Weight(s: seq<nat>): nat {
    if s == [] then 0 else s[0] * Class(s[0]) + Weight(s[1..])
  }

  lemma {:induction false} WeightConcat(a: seq<nat>, b: seq<nat>)
    ensures Weight(a + b) == Weight(a) + Weight(b)
  {
    if a == [] {
      assert a + b == b;
    } else {
      assert (a + b)[1..] == a[1..] + b;
      WeightConcat(a[1..], b);
    }
  }

  lemma {:induction false} RunWeight(s: seq<nat>, c: nat)
    requires forall j :: 0 <= j < |s| ==> Class(s[j]) == c
    ensures Weight(s) == c * Sum(s)
  {
    hide Class;
    if s != [] {
      RunWeight(s[1..], c);
      assert c * (s[0] + Sum(s[1..])) == c * s[0] + c * Sum(s[1..]);
    }
  }

  /** Every byte's class is at most the class of the whole store. */
  lemma {:induction false} WeightBound(s: seq<nat>, c: nat)
    requires Class(Sum(s)) <= c
    ensures Weight(s) <= c * Sum(s)
  {
    if s != [] {
      ClassMono(s[0], Sum(s));
      ClassMono(Sum(s[1..]), Sum(s));
      WeightBound(s[1..], c);
      MulMono(s[0], Class(s[0]), c);
      Distribute(c, s[0], Sum(s[1..]));
    }
  }

  lemma MulMono(x: nat, a: nat, b: nat)
    requires a <= b
    ensures x * a <= x * b
  {
  }

  lemma Distribute(c: nat, x: nat, y: nat)
    ensures c * (x + y) == x * c + c * y
  {
  }

  ghost predicate Paid(s: Store) {
    && NonEmptySegments(s.sizes)
    && Sum(s.sizes) == s.appended
    && s.rewritten <= Weight(s.sizes)
  }

  lemma PaidAppend(s: Store, t: Store)
    requires Paid(s) && AppendStep(s, t)
    ensures Paid(t)
  {
    var b: nat :| b >= 1 && t == Store(s.sizes + [b], s.appended + b, s.rewritten);
    SumConcat(s.sizes, [b]);
    WeightConcat(s.sizes, [b]);
  }

  /** A same-class merge of B bytes raises the weight by exactly B. */
  lemma SpliceWeight(sizes: seq<nat>, w: Window)
    requires NonEmptySegments(sizes) && FullRun(sizes, w.start) && w.end == w.start + FANOUT
    ensures Weight(Splice(sizes, w)) == Weight(sizes) + Sum(sizes[w.start..w.end])
    ensures NonEmptySegments(Splice(sizes, w))
  {
    var a, b, c := sizes[..w.start], sizes[w.start..w.end], sizes[w.end..];
    var k := Class(sizes[w.start]);
    Split3(sizes, w);
    WeightConcat(a, b + c);
    WeightConcat(b, c);
    WeightConcat(a + [Sum(b)], c);
    WeightConcat(a, [Sum(b)]);
    RunWeight(b, k);
    RunMergesUp(b, k);
    Distribute(Sum(b), k, 1);
    RunSum(b, k);
  }

  lemma PaidMerge(s: Store, t: Store, maxLive: nat)
    requires Paid(s) && MergeStep(s, t, maxLive) && |s.sizes| <= maxLive
    ensures Paid(t)
  {
    var w: Window :|
      && Chosen(s.sizes, maxLive, Some(w))
      && w.start <= w.end <= |s.sizes|
      && t == Store(Splice(s.sizes, w), s.appended, s.rewritten + Sum(s.sizes[w.start..w.end]));
    SumSplice(s.sizes, w);
    SpliceWeight(s.sizes, w);
  }

  lemma {:induction false} PaidAlways(run: seq<Store>, maxLive: nat, n: nat)
    requires TieredRun(run, maxLive) && n < |run|
    ensures Paid(run[n])
  {
    if n > 0 {
      PaidAlways(run, maxLive, n - 1);
      assert n - 1 < |run| - 1;
      var s, t := run[n - 1], run[n - 1 + 1];
      if AppendStep(s, t) {
        PaidAppend(s, t);
      } else {
        PaidMerge(s, t, maxLive);
      }
    }
  }

  /** Over any run, bytes rewritten stay within the class of the store times bytes appended,
      hence within nineteen times while the store fits 64 bits. */
  lemma WriteAmplification(run: seq<Store>, maxLive: nat, n: nat)
    requires TieredRun(run, maxLive) && n < |run|
    ensures run[n].rewritten <= Class(run[n].appended) * run[n].appended
    ensures run[n].appended <= U64_MAX ==> run[n].rewritten <= TOP_CLASS * run[n].appended
  {
    hide TieredRun, Paid, Class;
    PaidAlways(run, maxLive, n);
    PaidBound(run[n]);
  }

  lemma PaidBound(s: Store)
    requires Paid(s)
    ensures s.rewritten <= Class(s.appended) * s.appended
    ensures s.appended <= U64_MAX ==> s.rewritten <= TOP_CLASS * s.appended
  {
    hide Class, Sum, Weight, NonEmptySegments;
    WeightBound(s.sizes, Class(s.appended));
    if s.appended <= U64_MAX {
      ClassTop(s.appended);
      MulMono(s.appended, Class(s.appended), TOP_CLASS);
    }
  }

  // ----- live-segment count over any run -----

  ghost predicate Descending(sizes: seq<nat>) {
    forall i, j :: 0 <= i < j < |sizes| ==> Class(sizes[i]) >= Class(sizes[j])
  }

  ghost predicate AtLeast(sizes: seq<nat>, k: nat) {
    forall j :: 0 <= j < |sizes| ==> sizes[j] >= 1 && Class(sizes[j]) >= k
  }

  ghost predicate AtMost(sizes: seq<nat>, c: int) {
    forall j :: 0 <= j < |sizes| ==> Class(sizes[j]) <= c
  }

  /** Merging the oldest full run of a descending store keeps it descending. */
  lemma MergeKeepsDescending(sizes: seq<nat>, w: Window, k: nat)
    requires Descending(sizes) && AtLeast(sizes, k)
    requires FullRun(sizes, w.start) && w.end == w.start + FANOUT
    requires forall i :: i < w.start ==> !FullRun(sizes, i)
    ensures Descending(Splice(sizes, w)) && AtLeast(Splice(sizes, w), k)
  {
    var c := Class(sizes[w.start]);
    var run := sizes[w.start..w.end];
    RunMergesUp(run, c);
    RunSum(run, c);
    var t := Splice(sizes, w);
    if w.start > 0 {
      // otherwise the run would have started one earlier
      assert !FullRun(sizes, w.start - 1);
      assert Class(sizes[w.start - 1]) >= c + 1;
    }
    forall i, j | 0 <= i < j < |t| ensures Class(t[i]) >= Class(t[j]) {
      if j == w.start {
        assert Class(sizes[i]) >= Class(sizes[w.start - 1]);
      } else if i == w.start {
        assert t[j] == sizes[j + FANOUT - 1];
        assert Class(sizes[w.start]) >= Class(sizes[j + FANOUT - 1]);
      }
    }
  }

  lemma FloorBelowCeiling(sizes: seq<nat>, k: nat, c: int)
    requires AtLeast(sizes, k) && AtMost(sizes, c) && sizes != []
    ensures k <= c
  {
    assert k <= Class(sizes[0]) <= c;
  }

  lemma SuffixRun(sizes: seq<nat>, n: nat, i: int)
    requires n <= |sizes|
    ensures FullRun(sizes[n..], i) ==> FullRun(sizes, n + i)
  {
    var rest := sizes[n..];
    if FullRun(rest, i) {
      forall j | n + i <= j < n + i + FANOUT ensures Class(sizes[j]) == Class(sizes[n + i]) {
        assert sizes[j] == rest[j - n];
      }
    }
  }

  /** At most nine per class, once no full run is left. */
  lemma {:induction false} NinePerClass(sizes: seq<nat>, k: nat, c: int)
    requires Descending(sizes) && NoFullRun(sizes) && AtLeast(sizes, k) && AtMost(sizes, c)
    requires c >= k - 1
    ensures |sizes| <= 9 * (c - k + 1)
    decreases c - k + 1
  {
    if c == k - 1 {
      if sizes != [] { FloorBelowCeiling(sizes, k, c); }
    } else {
      var n := LeadingBlock(sizes, c);
      assert n < FANOUT by {
        assert n >= FANOUT ==> FullRun(sizes, 0);
      }
      var rest := sizes[n..];
      forall i ensures !FullRun(rest, i) { SuffixRun(sizes, n, i); }
      NinePerClass(rest, k, c - 1);
    }
  }

  /** Length of the leading block of class `c` in a descending sequence bounded by `c`. */
  lemma {:induction false} LeadingBlock(sizes: seq<nat>, c: nat) returns (n: nat)
    requires Descending(sizes) && AtMost(sizes, c)
    ensures n <= |sizes|
    ensures forall j :: 0 <= j < n ==> Class(sizes[j]) == c
    ensures forall j :: n <= j < |sizes| ==> Class(sizes[j]) <= c - 1
  {
    n := 0;
    while n < |sizes| && Class(sizes[n]) == c
      invariant n <= |sizes|
      invariant forall j :: 0 <= j < n ==> Class(sizes[j]) == c
    {
      n := n + 1;
    }
  }

  /** Segments of one class `k` are appended only when the policy has nothing left to merge. */
  ghost predicate SteadyRun(run: seq<seq<nat>>, k: nat, maxLive: nat) {
    && |run| > 0 && run[0] == []
    && forall i :: 0 <= i < |run| - 1 ==>
      SteadyAppend(run[i], run[i + 1], k, maxLive) || SteadyMerge(run[i], run[i + 1], maxLive)
  }

  ghost predicate SteadyAppend(s: seq<nat>, t: seq<nat>, k: nat, maxLive: nat) {
    Chosen(s, maxLive, None) && exists b: nat :: b >= 1 && Class(b) == k && t == s + [b]
  }

  ghost predicate SteadyMerge(s: seq<nat>, t: seq<nat>, maxLive: nat) {
    exists w: Window :: Chosen(s, maxLive, Some(w)) && w.start <= w.end <= |s| && t == Splice(s, w)
  }

  /** Nine segments for each class from `k` to the class of the total. */
  function Ceiling(total: nat, k: nat): int {
    9 * (Class(total) - k + 1)
  }

  ghost predicate Tidy(s: seq<nat>, k: nat, limit: int) {
    Descending(s) && AtLeast(s, k) && |s| <= limit + 1
  }

  lemma MemberClass(s: seq<nat>)
    ensures AtMost(s, Class(Sum(s)))
  {
    forall j | 0 <= j < |s| ensures Class(s[j]) <= Class(Sum(s)) {
      assert s == s[..j] + ([s[j]] + s[j + 1..]);
      SumConcat(s[..j], [s[j]] + s[j + 1..]);
      SumConcat([s[j]], s[j + 1..]);
      ClassMono(s[j], Sum(s));
    }
  }

  lemma FixpointCount(s: seq<nat>, k: nat, maxLive: nat)
    requires Descending(s) && AtLeast(s, k) && Chosen(s, maxLive, None)
    ensures s != [] ==> |s| <= Ceiling(Sum(s), k)
  {
    if s != [] {
      MemberClass(s);
      assert Class(s[0]) >= k;
      assert NoFullRun(s) by {
        if |s| < 2 {
          forall i ensures !FullRun(s, i) { }
        }
      }
      NinePerClass(s, k, Class(Sum(s)));
    }
  }

  lemma {:induction false} SteadyAlways(run: seq<seq<nat>>, k: nat, maxLive: nat, total: nat, n: nat)
    requires SteadyRun(run, k, maxLive) && n < |run|
    requires Sum(run[n]) <= total && k <= Class(total) && maxLive >= Ceiling(total, k) + 1
    ensures Tidy(run[n], k, Ceiling(total, k))
  {
    hide Tidy, Sum, Class, SteadyAppend, SteadyMerge;
    if n == 0 {
      TidyEmpty(k, Ceiling(total, k));
    } else {
      var s, t := run[n - 1], run[n];
      assert SteadyAppend(s, run[n - 1 + 1], k, maxLive) || SteadyMerge(s, run[n - 1 + 1], maxLive);
      if SteadyMerge(s, t, maxLive) {
        SteadyMergeSum(s, t, maxLive);
        SteadyAlways(run, k, maxLive, total, n - 1);
        MergeTidy(s, t, k, maxLive, Ceiling(total, k));
      } else {
        SteadyAppendSum(s, t, k, maxLive);
        SteadyAlways(run, k, maxLive, total, n - 1);
        AppendTidy(s, t, k, maxLive, total);
      }
    }
  }

  lemma TidyEmpty(k: nat, limit: int)
    requires limit >= 0
    ensures Tidy([], k, limit)
  {
  }

  lemma SteadyMergeSum(s: seq<nat>, t: seq<nat>, maxLive: nat)
    requires SteadyMerge(s, t, maxLive)
    ensures Sum(s) == Sum(t)
  {
    hide Chosen;
    var w: Window :| Chosen(s, maxLive, Some(w)) && w.start <= w.end <= |s| && t == Splice(s, w);
    SumSplice(s, w);
  }

  lemma SteadyAppendSum(s: seq<nat>, t: seq<nat>, k: nat, maxLive: nat)
    requires SteadyAppend(s, t, k, maxLive)
    ensures Sum(s) <= Sum(t)
  {
    hide Chosen, Class;
    var b: nat :| b >= 1 && Class(b) == k && t == s + [b];
    SumConcat(s, [b]);
  }

  /** A merge takes a full run while the count is within the limit, and keeps the classes descending. */
  lemma MergeTidy(s: seq<nat>, t: seq<nat>, k: nat, maxLive: nat, limit: int)
    requires SteadyMerge(s, t, maxLive) && Tidy(s, k, limit) && limit + 1 <= maxLive
    ensures Tidy(t, k, limit)
  {
    var w: Window :| Chosen(s, maxLive, Some(w)) && w.start <= w.end <= |s| && t == Splice(s, w);
    MergeKeepsDescending(s, w, k);
  }

  lemma AppendTidy(s: seq<nat>, t: seq<nat>, k: nat, maxLive: nat, total: nat)
    requires SteadyAppend(s, t, k, maxLive) && Tidy(s, k, Ceiling(total, k)) && Sum(s) <= total && k <= Class(total)
    ensures Tidy(t, k, Ceiling(total, k))
  {
    hide Chosen, Class, Sum;
    var b: nat :| b >= 1 && Class(b) == k && t == s + [b];
    FixpointCount(s, k, maxLive);
    ClassMono(Sum(s), total);
  }

  /** The number of live segments is logarithmic in the bytes stored: nine per size class
      at rest, one more while an append is being absorbed, and the backstop never fires. */
  lemma LogarithmicSegments(run: seq<seq<nat>>, k: nat, maxLive: nat, n: nat)
    requires SteadyRun(run, k, maxLive) && n < |run| && run[n] != []
    requires maxLive >= Ceiling(Sum(run[n]), k) + 1
    ensures Descending(run[n])
    ensures Chosen(run[n], maxLive, None) ==> |run[n]| <= Ceiling(Sum(run[n]), k)
    ensures |run[n]| <= Ceiling(Sum(run[n]), k) + 1 <= maxLive
  {
    var total := Sum(run[n]);
    SteadyFloor(run, k, maxLive, n);
    MemberClass(run[n]);
    assert Class(run[n][0]) >= k;
    SteadyAlways(run, k, maxLive, total, n);
    if Chosen(run[n], maxLive, None) { FixpointCount(run[n], k, maxLive); }
  }

  lemma SpliceFloor(s: seq<nat>, w: Window, k: nat)
    requires AtLeast(s, k) && w.start < w.end <= |s|
    ensures AtLeast(Splice(s, w), k)
  {
    var b := s[w.start..w.end];
    assert b == [b[0]] + b[1..];
    SumConcat([b[0]], b[1..]);
    ClassMono(b[0], Sum(b));
  }

  /** Merging never lowers a class, whatever the backstop does. */
  lemma {:induction false} SteadyFloor(run: seq<seq<nat>>, k: nat, maxLive: nat, n: nat)
    requires SteadyRun(run, k, maxLive) && n < |run|
    ensures AtLeast(run[n], k)
  {
    if n > 0 {
      SteadyFloor(run, k, maxLive, n - 1);
      var s, t := run[n - 1], run[n];
      assert SteadyAppend(s, run[n - 1 + 1], k, maxLive) || SteadyMerge(s, run[n - 1 + 1], maxLive);
      if SteadyMerge(s, t, maxLive) {
        var w: Window :| Chosen(s, maxLive, Some(w)) && w.start <= w.end <= |s| && t == Splice(s, w);
        SpliceFloor(s, w, k);
      }
    }
  }
}
