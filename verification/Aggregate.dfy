/**
 Mergeable partial aggregates and fixed-window reduction of rows.

 A reduction groups rows by an aligned window and a group label and keeps, per key,
 row count, non-null count, sum, minimum and maximum.  The results here are what lets
 every cache above store partials instead of rows: a reduction depends on its rows only
 up to order, it distributes over concatenation, and a coarser reduction can be
 computed from a finer one.
 */
module Aggregate {
  import opened Wrappers

  datatype Row = Row(t: int, group: string, value: Option<int>)

  datatype Partial = Partial(rows: nat, nonNull: nat, sum: int, min: Option<int>, max: Option<int>)

  const EMPTY := Partial(0, 0, 0, None, None)

  function OfValue(v: Option<int>): (p: Partial)
    ensures p.rows == 1
  {
    match v
    case None => Partial(1, 0, 0, None, None)
    case Some(x) => Partial(1, 1, x, Some(x), Some(x))
  }

  function MergeMin(a: Option<int>, b: Option<int>): Option<int> {
    match (a, b)
    case (Some(x), Some(y)) => Some(if x <= y then x else y)
    case (Some(_), None) => a
    case (None, _) => b
  }

  function MergeMax(a: Option<int>, b: Option<int>): Option<int> {
    match (a, b)
    case (Some(x), Some(y)) => Some(if x >= y then x else y)
    case (Some(_), None) => a
    case (None, _) => b
  }

  function Merge(a: Partial, b: Partial): Partial {
    Partial(a.rows + b.rows, a.nonNull + b.nonNull, a.sum + b.sum,
            MergeMin(a.min, b.min), MergeMax(a.max, b.max))
  }

  lemma MergeLaws(a: Partial, b: Partial, c: Partial)
    ensures Merge(a, b) == Merge(b, a)
    ensures Merge(Merge(a, b), c) == Merge(a, Merge(b, c))
    ensures Merge(a, EMPTY) == a == Merge(EMPTY, a)
    ensures Merge(a, b).rows == a.rows + b.rows
  {
  }

  /** Windows of `width` units aligned to `origin`; a unit is `tick` raw time ticks. */
  datatype Grid = Grid(width: int, origin: int, tick: int) {
    ghost predicate Valid() { width > 0 && tick > 0 }

    function Floor(x: int): int
      requires width > 0
    {
      x - (x - origin) % width
    }

    function Bucket(t: int): int
      requires width > 0 && tick > 0
    {
      Floor(t / tick)
    }
  }

  datatype PartialKey = PartialKey(bucket: int, group: string)

  type Content = map<PartialKey, Partial>

  function KeyOf(r: Row, g: Grid): PartialKey
    requires g.Valid()
  {
    PartialKey(g.Bucket(r.t), r.group)
  }

  /** The contribution of one row to key `k`. */
  function Contribution(r: Row, g: Grid, k: PartialKey): Partial
    requires g.Valid()
  {
    if KeyOf(r, g) == k then OfValue(r.value) else EMPTY
  }

  /** The partial of key `k` over all rows. */
  function Fold(rows: seq<Row>, g: Grid, k: PartialKey): Partial
    requires g.Valid()
  {
    if rows == [] then EMPTY
    else Merge(Contribution(rows[0], g, k), Fold(rows[1..], g, k))
  }

  /** Direct reduction: one entry per key that has at least one row. */
  ghost function Reduce(rows: seq<Row>, g: Grid): Content
    requires g.Valid()
  {
    map k | k in Keys(rows, g) :: Fold(rows, g, k)
  }

  ghost function Keys(rows: seq<Row>, g: Grid): set<PartialKey>
    requires g.Valid()
  {
    set i | 0 <= i < |rows| :: KeyOf(rows[i], g)
  }

  lemma {:induction false} FoldConcat(a: seq<Row>, b: seq<Row>, g: Grid, k: PartialKey)
    requires g.Valid()
    ensures Fold(a + b, g, k) == Merge(Fold(a, g, k), Fold(b, g, k))
  {
    hide KeyOf, Merge;
    if a == [] {
      assert a + b == b;
      MergeLaws(Fold(b, g, k), EMPTY, EMPTY);
    } else {
      assert (a + b)[1..] == a[1..] + b;
      FoldConcat(a[1..], b, g, k);
      MergeLaws(Contribution(a[0], g, k), Fold(a[1..], g, k), Fold(b, g, k));
    }
  }

  lemma KeysCons(rows: seq<Row>, g: Grid)
    requires g.Valid()
    ensures Keys(rows, g) == if rows == [] then {} else {KeyOf(rows[0], g)} + Keys(rows[1..], g)
  {
    hide KeyOf;
    if rows == [] { return; }
    forall k | k in Keys(rows[1..], g) ensures k in Keys(rows, g) {
      var i :| 0 <= i < |rows[1..]| && KeyOf(rows[1..][i], g) == k;
      assert KeyOf(rows[i + 1], g) == k;
    }
    forall k | k in Keys(rows, g) && k != KeyOf(rows[0], g) ensures k in Keys(rows[1..], g) {
      var i :| 0 <= i < |rows| && KeyOf(rows[i], g) == k;
      assert KeyOf(rows[1..][i - 1], g) == k;
    }
  }

  /** A key is reduced exactly when it has a row, and then its partial counts it. */
  lemma {:induction false} FoldPresence(rows: seq<Row>, g: Grid, k: PartialKey)
    requires g.Valid()
    ensures k in Keys(rows, g) <==> Fold(rows, g, k).rows > 0
    ensures k !in Keys(rows, g) ==> Fold(rows, g, k) == EMPTY
  {
    hide KeyOf, Keys, Merge;
    KeysCons(rows, g);
    if rows != [] {
      FoldPresence(rows[1..], g, k);
      MergeLaws(Contribution(rows[0], g, k), Fold(rows[1..], g, k), EMPTY);
    }
  }

  /** Reductions that agree key by key are the same map. */
  lemma ReduceExtensional(a: seq<Row>, b: seq<Row>, g: Grid)
    requires g.Valid()
    requires forall k :: Fold(a, g, k) == Fold(b, g, k)
    ensures Reduce(a, g) == Reduce(b, g)
  {
    forall k ensures k in Keys(a, g) <==> k in Keys(b, g) {
      FoldPresence(a, g, k);
      FoldPresence(b, g, k);
    }
  }

  // ----- what a reduction says about its rows -----

  /** The row belongs to the group and lies in the window that starts at the key's bucket. */
  ghost predicate Inside(r: Row, g: Grid, k: PartialKey)
    requires g.Valid()
  {
    && r.group == k.group && (k.bucket - g.origin) % g.width == 0
    && k.bucket * g.tick <= r.t < (k.bucket + g.width) * g.tick
  }

  ghost function Members(rows: seq<Row>, g: Grid, k: PartialKey): seq<Row>
    requires g.Valid()
  {
    if rows == [] then []
    else (if Inside(rows[0], g, k) then [rows[0]] else []) + Members(rows[1..], g, k)
  }

  ghost function Values(rows: seq<Row>): seq<int> {
    if rows == [] then []
    else (if rows[0].value.Some? then [rows[0].value.value] else []) + Values(rows[1..])
  }

  ghost function Total(s: seq<int>): int {
    if s == [] then 0 else s[0] + Total(s[1..])
  }

  ghost predicate Least(x: Option<int>, s: seq<int>) {
    (x.None? <==> s == []) && (x.Some? ==> x.value in s && forall v :: v in s ==> x.value <= v)
  }

  ghost predicate Greatest(x: Option<int>, s: seq<int>) {
    (x.None? <==> s == []) && (x.Some? ==> x.value in s && forall v :: v in s ==> v <= x.value)
  }

  /** The partial counts the rows and their values, adds the values up, and names their extremes. */
  ghost predicate Summarizes(p: Partial, rows: seq<Row>) {
    var vs := Values(rows);
    p.rows == |rows| && p.nonNull == |vs| && p.sum == Total(vs) && Least(p.min, vs) && Greatest(p.max, vs)
  }

  /** A window start is the one aligned point at most a width below. */
  lemma FloorMeans(x: int, g: Grid, b: int)
    requires g.width > 0
    ensures g.Floor(x) == b <==> (b - g.origin) % g.width == 0 && b <= x < b + g.width
  {
    var w, q := g.width, (x - g.origin) / g.width;
    assert x - g.origin == q * w + (x - g.origin) % w;
    assert g.Floor(x) - g.origin == q * w;
    DivUnique(q * w, w, q);
    assert (g.Floor(x) - g.origin) % w == 0;
    if (b - g.origin) % w == 0 && b <= x < b + w {
      var p := (b - g.origin) / w;
      assert b - g.origin == p * w;
      DivUnique(x - g.origin, w, p);
    }
  }

  lemma TickMeans(t: int, tick: int, b: int)
    requires tick > 0
    ensures b <= t / tick <==> b * tick <= t
  {
    var d := t / tick;
    assert t == d * tick + t % tick;
    if b <= d { MulLe(b, d, tick); } else { MulLe(d + 1, b, tick); }
  }

  /** A row has a key exactly when it lies in its window and group. */
  lemma KeyMeans(r: Row, g: Grid, k: PartialKey)
    requires g.Valid()
    ensures KeyOf(r, g) == k <==> Inside(r, g, k)
  {
    hide g.Floor;
    FloorMeans(r.t / g.tick, g, k.bucket);
    TickMeans(r.t, g.tick, k.bucket);
    TickMeans(r.t, g.tick, k.bucket + g.width);
  }

  /** The members of a key are the rows inside it, each as often as it occurs. */
  lemma {:induction false} MembersCount(rows: seq<Row>, g: Grid, k: PartialKey, r: Row)
    requires g.Valid()
    ensures multiset(Members(rows, g, k))[r] == if Inside(r, g, k) then multiset(rows)[r] else 0
  {
    hide Inside;
    if rows != [] {
      assert rows == [rows[0]] + rows[1..];
      MembersCount(rows[1..], g, k, r);
    }
  }

  /** Their values are those that are not null. */
  lemma {:induction false} ValuesMean(rows: seq<Row>, v: int)
    ensures v in Values(rows) <==> exists r :: r in rows && r.value == Some(v)
  {
    if rows != [] {
      ValuesMean(rows[1..], v);
      assert rows == [rows[0]] + rows[1..];
    }
  }

  lemma SummarizesNone()
    ensures Summarizes(EMPTY, [])
  {
  }

  /** One more row. */
  lemma SummarizesMore(p: Partial, rows: seq<Row>, r: Row)
    requires Summarizes(p, rows)
    ensures Summarizes(Merge(OfValue(r.value), p), [r] + rows)
  {
    var vs, all := Values(rows), Values([r] + rows);
    assert ([r] + rows)[1..] == rows;
    assert all == (if r.value.Some? then [r.value.value] else []) + vs;
    if r.value.Some? {
      assert all[1..] == vs;
    } else {
      assert all == vs;
    }
  }

  /** The partial of a key summarizes exactly the rows of its window and group. */
  lemma {:induction false} FoldMeans(rows: seq<Row>, g: Grid, k: PartialKey)
    requires g.Valid()
    ensures Summarizes(Fold(rows, g, k), Members(rows, g, k))
  {
    hide KeyOf, Inside, Merge, Summarizes, OfValue;
    if rows == [] {
      SummarizesNone();
    } else {
      var rest, part := Members(rows[1..], g, k), Fold(rows[1..], g, k);
      FoldMeans(rows[1..], g, k);
      KeyMeans(rows[0], g, k);
      SummarizesMore(part, rest, rows[0]);
      MergeLaws(part, EMPTY, EMPTY);
      assert [] + rest == rest;
    }
  }

  /** A reduction has the keys that have rows, each with the summary of those rows. */
  lemma ReduceMeans(rows: seq<Row>, g: Grid, k: PartialKey)
    requires g.Valid()
    ensures k in Reduce(rows, g) <==> Members(rows, g, k) != []
    ensures k in Reduce(rows, g) ==> Summarizes(Reduce(rows, g)[k], Members(rows, g, k))
  {
    hide KeyOf, Inside;
    FoldPresence(rows, g, k);
    FoldMeans(rows, g, k);
  }

  // ----- rolling a finer reduction up to a coarser grid -----

  /** Grid `g` refines `c`: every coarse window is a union of fine windows. */
  ghost predicate Refines(g: Grid, c: Grid) {
    && g.Valid() && c.Valid() && g.tick == c.tick
    && c.width % g.width == 0 && (c.origin - g.origin) % g.width == 0
  }

  function Coarse(k: PartialKey, c: Grid): PartialKey
    requires c.Valid()
  {
    PartialKey(c.Floor(k.bucket), k.group)
  }

  lemma DivUnique(x: int, w: int, q: int)
    requires w > 0 && q * w <= x < q * w + w
    ensures x / w == q
  {
    var d := x / w;
    assert x == d * w + x % w;
    if d < q {
      MulLe(d + 1, q, w);
    } else if q < d {
      MulLe(q + 1, d, w);
    }
  }

  lemma MulLe(a: int, b: int, w: int)
    requires a <= b && w >= 0
    ensures a * w <= b * w
  {
  }

  /** Flooring to the fine grid first does not change the coarse window. */
  lemma FloorNests(x: int, g: Grid, c: Grid)
    requires Refines(g, c)
    ensures c.Floor(g.Floor(x)) == c.Floor(x)
  {
    var m := c.width / g.width;
    assert c.width == m * g.width;
    var j := (c.origin - g.origin) / g.width;
    assert c.origin - g.origin == j * g.width;
    var q := (x - c.origin) / c.width;
    var f := (x - g.origin) / g.width;
    assert g.Floor(x) == g.origin + f * g.width;
    // x lies in [c.origin + q*c.width, c.origin + (q+1)*c.width)
    assert q * c.width <= x - c.origin < q * c.width + c.width by {
      assert x - c.origin == q * c.width + (x - c.origin) % c.width;
    }
    assert f * g.width <= x - g.origin < f * g.width + g.width by {
      assert x - g.origin == f * g.width + (x - g.origin) % g.width;
    }
    // both coarse edges are fine-aligned, so the fine floor stays inside
    var lo := j + q * m;
    assert q * c.width == (q * m) * g.width;
    assert lo * g.width == c.origin - g.origin + q * c.width;
    if f < lo {
      MulLe(f + 1, lo, g.width);
      assert false;
    }
    MulLe(lo, f, g.width);
    assert g.Floor(x) - c.origin >= q * c.width;
    DivUnique(g.Floor(x) - c.origin, c.width, q);
  }

  /** One grid refines another exactly when its windows never straddle an edge of the other. */
  lemma RefinesIff(g: Grid, c: Grid)
    requires g.Valid() && c.Valid() && g.tick == c.tick
    ensures Refines(g, c) <==> forall x :: c.Floor(g.Floor(x)) == c.Floor(x)
  {
    hide g.Floor;
    if Refines(g, c) {
      forall x ensures c.Floor(g.Floor(x)) == c.Floor(x) { FloorNests(x, g, c); }
    }
    if forall x :: c.Floor(g.Floor(x)) == c.Floor(x) {
      EdgeAligned(g, c, c.origin);
      EdgeAligned(g, c, c.origin + c.width);
      Difference(c.origin + c.width - g.origin, c.origin - g.origin, g.width);
    }
  }

  /** An edge of the coarse grid is an edge of the fine one. */
  lemma EdgeAligned(g: Grid, c: Grid, e: int)
    requires g.Valid() && c.Valid() && (e - c.origin) % c.width == 0 && c.Floor(g.Floor(e)) == c.Floor(e)
    ensures (e - g.origin) % g.width == 0
  {
    FloorMeans(e, g, g.Floor(e));
    FloorMeans(e, c, e);
    FloorMeans(g.Floor(e), c, e);
  }

  lemma Difference(a: int, b: int, w: int)
    requires w > 0 && a % w == 0 && b % w == 0
    ensures (a - b) % w == 0
  {
    var m, n := a / w, b / w;
    assert a == m * w && b == n * w;
    assert a - b == (m - n) * w;
    DivUnique(a - b, w, m - n);
  }

  lemma CoarseKey(r: Row, g: Grid, c: Grid)
    requires Refines(g, c)
    ensures Coarse(KeyOf(r, g), c) == KeyOf(r, c)
  {
    FloorNests(r.t / g.tick, g, c);
  }

  /** Sum of the partials of `ks` in `m` that fall in coarse key `k`; the order of a merge never matters. */
  ghost function Gather(m: Content, ks: set<PartialKey>, c: Grid, k: PartialKey): Partial
    requires c.Valid() && ks <= m.Keys
  {
    if ks == {} then EMPTY
    else
      var x :| x in ks;
      Merge(if Coarse(x, c) == k then m[x] else EMPTY, Gather(m, ks - {x}, c, k))
  }

  lemma {:induction false} GatherRemove(m: Content, ks: set<PartialKey>, c: Grid, k: PartialKey, y: PartialKey)
    requires c.Valid() && ks <= m.Keys && y in ks
    ensures Gather(m, ks, c, k) == Merge(if Coarse(y, c) == k then m[y] else EMPTY, Gather(m, ks - {y}, c, k))
    decreases |ks|
  {
    hide KeyOf, Coarse, Merge;
    var x :| x in ks && Gather(m, ks, c, k) ==
                        Merge(if Coarse(x, c) == k then m[x] else EMPTY, Gather(m, ks - {x}, c, k));
    if x != y {
      GatherRemove(m, ks - {x}, c, k, y);
      GatherRemove(m, ks - {y}, c, k, x);
      assert ks - {x} - {y} == ks - {y} - {x};
      var px := if Coarse(x, c) == k then m[x] else EMPTY;
      var py := if Coarse(y, c) == k then m[y] else EMPTY;
      var rest := Gather(m, ks - {x} - {y}, c, k);
      MergeLaws(px, py, rest);
      MergeLaws(py, px, rest);
    }
  }

  lemma {:induction false} GatherAgree(m: Content, n: Content, ks: set<PartialKey>, c: Grid, k: PartialKey)
    requires c.Valid() && ks <= m.Keys && ks <= n.Keys
    requires forall x :: x in ks ==> m[x] == n[x]
    ensures Gather(m, ks, c, k) == Gather(n, ks, c, k)
    decreases |ks|
  {
    hide KeyOf, Coarse, Merge;
    if ks != {} {
      var x :| x in ks;
      GatherRemove(m, ks, c, k, x);
      GatherRemove(n, ks, c, k, x);
      GatherAgree(m, n, ks - {x}, c, k);
    }
  }

  /** Roll-up of a whole map: exactly the coarse keys that some fine key maps to. */
  ghost function RollUp(m: Content, c: Grid): Content
    requires c.Valid()
  {
    map k | k in CoarseKeys(m, c) :: Gather(m, m.Keys, c, k)
  }

  ghost function CoarseKeys(m: Content, c: Grid): set<PartialKey>
    requires c.Valid()
  {
    set x | x in m.Keys :: Coarse(x, c)
  }

  /** `Fold` over any superset of the keys present, used as a map so it can be gathered. */
  ghost function FoldOn(rows: seq<Row>, g: Grid, ks: set<PartialKey>): Content
    requires g.Valid()
  {
    map k | k in ks :: Fold(rows, g, k)
  }

  lemma {:induction false} GatherEmpty(ks: set<PartialKey>, g: Grid, c: Grid, k: PartialKey)
    requires g.Valid() && c.Valid()
    ensures Gather(FoldOn([], g, ks), ks, c, k) == EMPTY
    decreases |ks|
  {
    hide KeyOf, Coarse, Merge;
    if ks != {} {
      var x :| x in ks;
      GatherRemove(FoldOn([], g, ks), ks, c, k, x);
      GatherEmpty(ks - {x}, g, c, k);
      GatherAgree(FoldOn([], g, ks), FoldOn([], g, ks - {x}), ks - {x}, c, k);
      MergeLaws(EMPTY, EMPTY, EMPTY);
    }
  }

  /** Splitting one row off splits the gathered sum, whichever keys are gathered. */
  lemma {:induction false} GatherCons(r: Row, rows: seq<Row>, g: Grid, c: Grid, ks: set<PartialKey>, k: PartialKey)
    requires g.Valid() && c.Valid()
    ensures Gather(FoldOn([r] + rows, g, ks), ks, c, k)
         == Merge(if KeyOf(r, g) in ks && Coarse(KeyOf(r, g), c) == k then OfValue(r.value) else EMPTY,
                  Gather(FoldOn(rows, g, ks), ks, c, k))
    decreases |ks|
  {
    hide KeyOf, Coarse, Merge;
    if ks != {} {
      var x :| x in ks;
      var all, sub := FoldOn([r] + rows, g, ks), FoldOn(rows, g, ks);
      GatherRemove(all, ks, c, k, x);
      GatherRemove(sub, ks, c, k, x);
      GatherCons(r, rows, g, c, ks - {x}, k);
      GatherAgree(all, FoldOn([r] + rows, g, ks - {x}), ks - {x}, c, k);
      GatherAgree(sub, FoldOn(rows, g, ks - {x}), ks - {x}, c, k);
      assert ([r] + rows)[1..] == rows;
      var head := if Coarse(x, c) == k then Contribution(r, g, x) else EMPTY;
      var tail := if Coarse(x, c) == k then Fold(rows, g, x) else EMPTY;
      var headRest := if KeyOf(r, g) in ks - {x} && Coarse(KeyOf(r, g), c) == k then OfValue(r.value) else EMPTY;
      var tailRest := Gather(FoldOn(rows, g, ks - {x}), ks - {x}, c, k);
      // (head + tail) + (headRest + tailRest), with one of head, headRest empty
      MergeFour(head, tail, headRest, tailRest);
      MergeLaws(head, EMPTY, EMPTY);
      MergeLaws(headRest, EMPTY, EMPTY);
    } else {
      MergeLaws(EMPTY, EMPTY, EMPTY);
    }
  }

  lemma MergeFour(a: Partial, b: Partial, c: Partial, d: Partial)
    ensures Merge(Merge(a, b), Merge(c, d)) == Merge(Merge(a, c), Merge(b, d))
  {
  }

  lemma {:induction false} GatherRows(rows: seq<Row>, g: Grid, c: Grid, ks: set<PartialKey>, k: PartialKey)
    requires Refines(g, c) && Keys(rows, g) <= ks
    ensures Gather(FoldOn(rows, g, ks), ks, c, k) == Fold(rows, c, k)
    decreases |rows|
  {
    if rows == [] {
      GatherEmpty(ks, g, c, k);
    } else {
      assert rows == [rows[0]] + rows[1..];
      forall x | x in Keys(rows[1..], g) ensures x in ks {
        var i :| 0 <= i < |rows[1..]| && KeyOf(rows[1..][i], g) == x;
        assert KeyOf(rows[i + 1], g) == x;
      }
      assert KeyOf(rows[0], g) in Keys(rows, g);
      GatherCons(rows[0], rows[1..], g, c, ks, k);
      GatherRows(rows[1..], g, c, ks, k);
      CoarseKey(rows[0], g, c);
    }
  }

  /** Rolling the fine reduction up gives exactly the direct coarse reduction. */
  lemma RollUpIsReduce(rows: seq<Row>, g: Grid, c: Grid)
    requires Refines(g, c)
    ensures RollUp(Reduce(rows, g), c) == Reduce(rows, c)
  {
    var m := Reduce(rows, g);
    forall k ensures k in CoarseKeys(m, c) <==> k in Keys(rows, c) {
      if k in CoarseKeys(m, c) {
        var x :| x in m.Keys && Coarse(x, c) == k;
        var i :| 0 <= i < |rows| && KeyOf(rows[i], g) == x;
        CoarseKey(rows[i], g, c);
        assert KeyOf(rows[i], c) == k;
      }
      if k in Keys(rows, c) {
        var i :| 0 <= i < |rows| && KeyOf(rows[i], c) == k;
        CoarseKey(rows[i], g, c);
        assert KeyOf(rows[i], g) in m.Keys;
      }
    }
    forall k | k in Keys(rows, c) ensures Gather(m, m.Keys, c, k) == Fold(rows, c, k) {
      GatherRows(rows, g, c, m.Keys, k);
      GatherAgree(m, FoldOn(rows, g, m.Keys), m.Keys, c, k);
    }
  }

  /** One more fine entry adds its partial to the coarse key it falls in. */
  lemma RollUpInsert(m: Content, ks: set<PartialKey>, x: PartialKey, c: Grid)
    requires c.Valid() && ks <= m.Keys && x in m && x !in ks
    ensures var part, k := RollUp(Restrict(m, ks), c), Coarse(x, c);
      RollUp(Restrict(m, ks + {x}), c) == part[k := if k in part then Merge(part[k], m[x]) else m[x]]
  {
    hide Coarse, Merge;
    var a, b := Restrict(m, ks), Restrict(m, ks + {x});
    assert a.Keys == ks && b.Keys == ks + {x};
    assert b.Keys - {x} == ks;
    assert CoarseKeys(b, c) == CoarseKeys(a, c) + {Coarse(x, c)};
    forall k | k in CoarseKeys(b, c)
      ensures Gather(b, b.Keys, c, k) == Merge(if Coarse(x, c) == k then m[x] else EMPTY, Gather(a, a.Keys, c, k))
    {
      GatherRemove(b, b.Keys, c, k, x);
      GatherAgree(b, a, ks, c, k);
    }
    var k := Coarse(x, c);
    MergeLaws(m[x], Gather(a, a.Keys, c, k), EMPTY);
    forall j ensures Merge(EMPTY, Gather(a, a.Keys, c, j)) == Gather(a, a.Keys, c, j) {
      MergeLaws(Gather(a, a.Keys, c, j), EMPTY, EMPTY);
    }
    if k !in CoarseKeys(a, c) { GatherNone(a, a.Keys, c, k); }
  }

  lemma {:induction false} GatherNone(m: Content, ks: set<PartialKey>, c: Grid, k: PartialKey)
    requires c.Valid() && ks <= m.Keys && (forall x :: x in ks ==> Coarse(x, c) != k)
    ensures Gather(m, ks, c, k) == EMPTY
    decreases |ks|
  {
    hide Coarse, Merge;
    if ks != {} {
      var x :| x in ks;
      GatherRemove(m, ks, c, k, x);
      GatherNone(m, ks - {x}, c, k);
      MergeLaws(EMPTY, EMPTY, EMPTY);
    }
  }

  function Restrict(m: Content, ks: set<PartialKey>): Content {
    map k | k in m && k in ks :: m[k]
  }

  /** Fold a map of partials to a coarser grid, entry by entry in any order. */
  method FoldTo(m: Content, c: Grid) returns (out: Content)
    requires c.Valid()
    ensures out == RollUp(m, c)
  {
    hide Merge, Coarse;
    out := map[];
    var todo := m.Keys;
    assert Restrict(m, {}) == map[];
    while todo != {}
      invariant todo <= m.Keys && out == RollUp(Restrict(m, m.Keys - todo), c)
      decreases |todo|
    {
      var x :| x in todo;
      RollUpInsert(m, m.Keys - todo, x, c);
      assert m.Keys - todo + {x} == m.Keys - (todo - {x});
      var k := Coarse(x, c);
      out := out[k := if k in out then Merge(out[k], m[x]) else m[x]];
      todo := todo - {x};
    }
    assert m.Keys - todo == m.Keys;
    assert Restrict(m, m.Keys - todo) == m;
  }
}
