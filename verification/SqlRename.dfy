/**
 Renaming table references in a parsed query, and when the rewritten query still means the same.
 */
module SqlRename {
  import opened Wrappers

  /** One part of a name; a dot only ever separates parts. */
  type Ident = s: string | '.' !in s witness ""

  /** A possibly qualified object name. */
  type Name = n: seq<Ident> | n != [] witness [""]

  datatype Query = Query(ctes: seq<Cte>, body: Body)

  datatype Cte = Cte(name: Ident, query: Query)

  datatype Body =
    | Select(froms: seq<From>, columns: seq<ColumnRef>, subqueries: seq<Query>)
    | SetOp(op: string, left: Body, right: Body)
    | Nested(query: Query)
    | Values(text: string)

  datatype From = From(relation: Factor, joins: seq<Factor>)

  /** A table, a derived subquery, or a form the rewriter does not descend into. */
  datatype Factor =
    | Table(name: Name, alias: Option<string>)
    | Derived(query: Query, alias: Option<string>)
    | Grouped(parts: seq<Factor>)

  datatype ColumnRef = ColumnRef(qualifier: Option<string>, column: string)

  datatype Options = Options(mappings: Option<map<string, Ident>>, source: Option<Ident>)

  /** The name as printed: its parts joined by dots. */
  function Printed(n: Name): string {
    if |n| == 1 then n[0] else n[0] + "." + Printed(n[1..])
  }

  /** The name a reference is rewritten to; mappings take precedence over the source replacement. */
  function Rename(o: Options, n: Name): Name {
    match o.mappings
    case Some(m) => if Printed(n) in m then [m[Printed(n)]] else n
    case None => if o.source.Some? && Printed(n) == "source" then [o.source.value] else n
  }

  function NewAlias(o: Options, n: Name, alias: Option<string>): Option<string> {
    if o.mappings.Some? && Printed(n) in o.mappings.value && alias.None? then Some(Printed(n)) else alias
  }

  // ----- the rewrite -----

  function RewriteQuery(o: Options, q: Query): Query
    decreases q
  {
    Query(seq(|q.ctes|, i requires 0 <= i < |q.ctes| => RewriteCte(o, q.ctes[i])), RewriteBody(o, q.body))
  }

  function RewriteCte(o: Options, c: Cte): Cte
    decreases c
  {
    Cte(c.name, RewriteQuery(o, c.query))
  }

  function RewriteBody(o: Options, b: Body): Body
    decreases b
  {
    match b
    case Select(froms, columns, subqueries) =>
      Select(seq(|froms|, i requires 0 <= i < |froms| => RewriteFrom(o, froms[i])), columns, subqueries)
    case SetOp(op, left, right) => SetOp(op, RewriteBody(o, left), RewriteBody(o, right))
    case Nested(q) => Nested(RewriteQuery(o, q))
    case Values(_) => b
  }

  function RewriteFrom(o: Options, f: From): From
    decreases f
  {
    From(RewriteFactor(o, f.relation), seq(|f.joins|, i requires 0 <= i < |f.joins| => RewriteFactor(o, f.joins[i])))
  }

  function RewriteFactor(o: Options, f: Factor): Factor
    decreases f
  {
    match f
    case Table(name, alias) => Table(Rename(o, name), NewAlias(o, name, alias))
    case Derived(q, alias) => Derived(RewriteQuery(o, q), alias)
    case Grouped(_) => f
  }

  // ----- what a query resolves to -----

  /** What the catalog registers under each name. */
  type Catalog = Name -> Option<int>

  /** A common table expression in scope, by position, or a base relation. */
  datatype Target = Bound(index: nat) | Base(relation: Option<int>)

  /** A query with every table and qualified column resolved; evaluation depends on nothing else. */
  datatype Plan = Plan(ctes: seq<Plan>, body: BodyPlan)

  datatype BodyPlan =
    | PSelect(froms: seq<FromPlan>, columns: seq<ColumnPlan>, subqueries: seq<Plan>)
    | PSetOp(op: string, left: BodyPlan, right: BodyPlan)
    | PNested(plan: Plan)
    | PValues(text: string)

  datatype FromPlan = PFrom(relation: FactorPlan, joins: seq<FactorPlan>)

  datatype FactorPlan = PTable(target: Target) | PDerived(plan: Plan) | PGrouped(parts: seq<FactorPlan>)

  /** Which of the select's items a column reference may belong to. */
  datatype ColumnPlan = PColumn(items: Option<set<nat>>, column: string)

  function LastIndex(scope: seq<Ident>, s: Ident): (i: nat)
    requires s in scope
    ensures i < |scope| && scope[i] == s
  {
    if scope[|scope| - 1] == s then |scope| - 1 else LastIndex(scope[..|scope| - 1], s)
  }

  predicate BoundIn(n: Name, scope: seq<Ident>) {
    |n| == 1 && n[0] in scope
  }

  function Lookup(n: Name, scope: seq<Ident>, db: Catalog): Target {
    if BoundIn(n, scope) then Bound(LastIndex(scope, n[0])) else Base(db(n))
  }

  function CteNames(q: Query): seq<Ident> {
    seq(|q.ctes|, i requires 0 <= i < |q.ctes| => q.ctes[i].name)
  }

  function Qualifier(f: Factor): Option<string> {
    match f
    case Table(name, alias) => if alias.Some? then alias else Some(name[|name| - 1])
    case Derived(_, alias) => alias
    case Grouped(_) => None
  }

  function Qualifiers(froms: seq<From>): seq<Option<string>> {
    if froms == [] then []
    else
      var last := froms[|froms| - 1];
      Qualifiers(froms[..|froms| - 1]) + [Qualifier(last.relation)] + JoinQualifiers(last.joins)
  }

  function JoinQualifiers(joins: seq<Factor>): seq<Option<string>> {
    seq(|joins|, i requires 0 <= i < |joins| => Qualifier(joins[i]))
  }

  ghost function PlanColumn(quals: seq<Option<string>>, c: ColumnRef): ColumnPlan {
    PColumn(if c.qualifier.Some? then Some(set i: nat | i < |quals| && quals[i] == c.qualifier) else None, c.column)
  }

  ghost function PlanQuery(q: Query, scope: seq<Ident>, db: Catalog): Plan
    decreases q
  {
    Plan(seq(|q.ctes|, i requires 0 <= i < |q.ctes| => PlanCte(q.ctes[i], scope + CteNames(q)[..i], db)),
         PlanBody(q.body, scope + CteNames(q), db))
  }

  ghost function PlanCte(c: Cte, scope: seq<Ident>, db: Catalog): Plan
    decreases c
  {
    PlanQuery(c.query, scope, db)
  }

  ghost function PlanBody(b: Body, scope: seq<Ident>, db: Catalog): BodyPlan
    decreases b
  {
    match b
    case Select(froms, columns, subqueries) =>
      PSelect(seq(|froms|, i requires 0 <= i < |froms| => PlanFrom(froms[i], scope, db)),
              seq(|columns|, i requires 0 <= i < |columns| => PlanColumn(Qualifiers(froms), columns[i])),
              seq(|subqueries|, i requires 0 <= i < |subqueries| => PlanQuery(subqueries[i], scope, db)))
    case SetOp(op, left, right) => PSetOp(op, PlanBody(left, scope, db), PlanBody(right, scope, db))
    case Nested(q) => PNested(PlanQuery(q, scope, db))
    case Values(text) => PValues(text)
  }

  ghost function PlanFrom(f: From, scope: seq<Ident>, db: Catalog): FromPlan
    decreases f
  {
    PFrom(PlanFactor(f.relation, scope, db),
          seq(|f.joins|, i requires 0 <= i < |f.joins| => PlanFactor(f.joins[i], scope, db)))
  }

  ghost function PlanFactor(f: Factor, scope: seq<Ident>, db: Catalog): FactorPlan
    decreases f
  {
    match f
    case Table(name, _) => PTable(Lookup(name, scope, db))
    case Derived(q, _) => PDerived(PlanQuery(q, scope, db))
    case Grouped(parts) => PGrouped(seq(|parts|, i requires 0 <= i < |parts| => PlanFactor(parts[i], scope, db)))
  }

  // ----- when the rewrite preserves what a query resolves to -----

  /** What the options ask for: a mapped name becomes its replacement, or, without mappings, the
      source becomes the source replacement. */
  predicate RenamesTo(o: Options, n: Name, r: Name) {
    || (o.mappings.Some? && Printed(n) in o.mappings.value && r == [o.mappings.value[Printed(n)]])
    || (o.mappings.None? && o.source.Some? && n == ["source"] && r == [o.source.value])
  }

  ghost predicate Renames(o: Options, n: Name) {
    exists r: Name :: RenamesTo(o, n, r) && r != n
  }

  /** Some other name is rewritten to `n`. */
  ghost predicate IsReplacement(o: Options, n: Name) {
    exists m: Name :: RenamesTo(o, m, n) && m != n
  }

  /** Each replacement denotes, afterwards, what the name it replaces denoted before. */
  ghost predicate Denotes(o: Options, db: Catalog, after: Catalog) {
    forall n: Name, r: Name :: RenamesTo(o, n, r) && r != n ==> after(r) == db(n)
  }

  /** A set of names, by membership. */
  type Names = Name -> bool

  /** Every name of `stable` denotes the same in both catalogs. */
  ghost predicate Agree(stable: Names, db: Catalog, after: Catalog) {
    forall n: Name :: stable(n) ==> after(n) == db(n)
  }

  /** And no other name does. */
  ghost predicate AgreeOnly(stable: Names, db: Catalog, after: Catalog) {
    forall n: Name :: after(n) == db(n) ==> stable(n)
  }

  /** The names both catalogs resolve alike. */
  ghost function Unmoved(db: Catalog, after: Catalog): Names {
    (n: Name) => after(n) == db(n)
  }

  /** The names the options do not mention on either side. */
  ghost function Unconcerned(o: Options): Names {
    (n: Name) => !Renames(o, n) && !IsReplacement(o, n)
  }

  /** A reference the rewriter visits: a renamed one is captured by no expression in scope, before or
      after; any other is bound in scope or stable. */
  ghost predicate VisitedOk(o: Options, n: Name, scope: seq<Ident>, stable: Names) {
    if Renames(o, n) then forall r: Name :: RenamesTo(o, n, r) && r != n ==> !BoundIn(n, scope) && !BoundIn(r, scope)
    else BoundIn(n, scope) || stable(n)
  }

  /** A reference it does not visit is bound in scope or stable. */
  ghost predicate UnvisitedOk(n: Name, scope: seq<Ident>, stable: Names) {
    BoundIn(n, scope) || stable(n)
  }

  /** A qualified column names no item whose qualifier the rewrite changes, by its old or new qualifier. */
  predicate ColumnOk(before: seq<Option<string>>, after: seq<Option<string>>, c: ColumnRef) {
    && |before| == |after|
    && (c.qualifier.Some? ==> forall i :: 0 <= i < |before| && before[i] != after[i] ==>
        before[i] != c.qualifier && after[i] != c.qualifier)
  }

  ghost predicate SafeQuery(o: Options, q: Query, scope: seq<Ident>, stable: Names)
    decreases q
  {
    && (forall i :: 0 <= i < |q.ctes| ==> SafeCte(o, q.ctes[i], scope + CteNames(q)[..i], stable))
    && SafeBody(o, q.body, scope + CteNames(q), stable)
  }

  ghost predicate SafeCte(o: Options, c: Cte, scope: seq<Ident>, stable: Names)
    decreases c
  {
    SafeQuery(o, c.query, scope, stable)
  }

  ghost predicate SafeBody(o: Options, b: Body, scope: seq<Ident>, stable: Names)
    decreases b
  {
    match b
    case Select(froms, columns, subqueries) =>
      && (forall i :: 0 <= i < |froms| ==> SafeFrom(o, froms[i], scope, stable))
      && (forall i :: 0 <= i < |columns| ==>
          ColumnOk(Qualifiers(froms), Qualifiers(RewriteBody(o, b).froms), columns[i]))
      && (forall i :: 0 <= i < |subqueries| ==> FixedQuery(subqueries[i], scope, stable))
    case SetOp(_, left, right) => SafeBody(o, left, scope, stable) && SafeBody(o, right, scope, stable)
    case Nested(q) => SafeQuery(o, q, scope, stable)
    case Values(_) => true
  }

  ghost predicate SafeFrom(o: Options, f: From, scope: seq<Ident>, stable: Names)
    decreases f
  {
    && SafeFactor(o, f.relation, scope, stable)
    && forall i :: 0 <= i < |f.joins| ==> SafeFactor(o, f.joins[i], scope, stable)
  }

  ghost predicate SafeFactor(o: Options, f: Factor, scope: seq<Ident>, stable: Names)
    decreases f
  {
    match f
    case Table(name, _) => VisitedOk(o, name, scope, stable)
    case Derived(q, _) => SafeQuery(o, q, scope, stable)
    case Grouped(parts) => forall i :: 0 <= i < |parts| ==> FixedFactor(parts[i], scope, stable)
  }

  ghost predicate FixedQuery(q: Query, scope: seq<Ident>, stable: Names)
    decreases q
  {
    && (forall i :: 0 <= i < |q.ctes| ==> FixedCte(q.ctes[i], scope + CteNames(q)[..i], stable))
    && FixedBody(q.body, scope + CteNames(q), stable)
  }

  ghost predicate FixedCte(c: Cte, scope: seq<Ident>, stable: Names)
    decreases c
  {
    FixedQuery(c.query, scope, stable)
  }

  ghost predicate FixedBody(b: Body, scope: seq<Ident>, stable: Names)
    decreases b
  {
    match b
    case Select(froms, _, subqueries) =>
      && (forall i :: 0 <= i < |froms| ==> FixedFrom(froms[i], scope, stable))
      && (forall i :: 0 <= i < |subqueries| ==> FixedQuery(subqueries[i], scope, stable))
    case SetOp(_, left, right) => FixedBody(left, scope, stable) && FixedBody(right, scope, stable)
    case Nested(q) => FixedQuery(q, scope, stable)
    case Values(_) => true
  }

  ghost predicate FixedFrom(f: From, scope: seq<Ident>, stable: Names)
    decreases f
  {
    FixedFactor(f.relation, scope, stable) && forall i :: 0 <= i < |f.joins| ==> FixedFactor(f.joins[i], scope, stable)
  }

  ghost predicate FixedFactor(f: Factor, scope: seq<Ident>, stable: Names)
    decreases f
  {
    match f
    case Table(name, _) => UnvisitedOk(name, scope, stable)
    case Derived(q, _) => FixedQuery(q, scope, stable)
    case Grouped(parts) => forall i :: 0 <= i < |parts| ==> FixedFactor(parts[i], scope, stable)
  }

  /** The condition makes the two sides equal, and when nothing else is stable it is the only way. */
  ghost predicate Matches(safe: bool, same: bool, stable: Names, db: Catalog, after: Catalog) {
    (safe ==> same) && (AgreeOnly(stable, db, after) && same ==> safe)
  }

  lemma SeqEq<T>(a: seq<T>, b: seq<T>)
    requires |a| == |b|
    ensures a == b <==> forall i :: 0 <= i < |a| ==> a[i] == b[i]
  {
  }

  lemma VisitedIff(o: Options, n: Name, scope: seq<Ident>, db: Catalog, after: Catalog, stable: Names)
    requires Denotes(o, db, after) && Agree(stable, db, after)
    ensures VisitedOk(o, n, scope, stable) ==> Lookup(Rename(o, n), scope, after) == Lookup(n, scope, db)
    ensures AgreeOnly(stable, db, after) && Lookup(Rename(o, n), scope, after) == Lookup(n, scope, db) ==>
      VisitedOk(o, n, scope, stable)
  {
    hide Printed;
    RenameMeans(o, n);
    var r := Rename(o, n);
    assert Renames(o, n) <==> r != n;
  }

  /** Printing joins the parts by dots, first part first. */
  lemma {:induction false} PrintedJoins(a: Name, b: Name)
    ensures |a| == 1 ==> Printed(a) == a[0]
    ensures Printed(a + b) == Printed(a) + "." + Printed(b)
  {
    if |a| == 1 {
      assert (a + b)[1..] == b;
    } else {
      assert (a + b)[1..] == a[1..] + b;
      PrintedJoins(a[1..], b);
    }
  }

  lemma {:induction false} DotInPrinted(n: Name)
    ensures |n| > 1 ==> '.' in Printed(n)
  {
    if |n| > 1 { assert Printed(n)[|n[0]|] == '.'; }
  }

  /** The rewriter's name lookup does what the options ask for, and nothing else. */
  lemma RenameMeans(o: Options, n: Name)
    ensures forall r: Name :: RenamesTo(o, n, r) ==> r == Rename(o, n)
    ensures Rename(o, n) != n ==> RenamesTo(o, n, Rename(o, n))
  {
    DotInPrinted(n);
    assert '.' !in "source";
    assert Printed(["source"]) == "source";
    assert |n| == 1 ==> n == [n[0]];
  }

  lemma UnvisitedIff(n: Name, scope: seq<Ident>, db: Catalog, after: Catalog, stable: Names)
    requires Agree(stable, db, after)
    ensures UnvisitedOk(n, scope, stable) ==> Lookup(n, scope, after) == Lookup(n, scope, db)
    ensures AgreeOnly(stable, db, after) && Lookup(n, scope, after) == Lookup(n, scope, db) ==>
      UnvisitedOk(n, scope, stable)
  {
  }

  lemma ColumnIff(before: seq<Option<string>>, after: seq<Option<string>>, c: ColumnRef)
    requires |before| == |after|
    ensures PlanColumn(after, c) == PlanColumn(before, c) <==> ColumnOk(before, after, c)
  {
    var q := c.qualifier;
    if q.Some? {
      var a, b := PlanColumn(after, c).items.value, PlanColumn(before, c).items.value;
      if ColumnOk(before, after, c) {
        assert a == b;
      } else {
        var i :| 0 <= i < |before| && before[i] != after[i] && (before[i] == q || after[i] == q);
        assert (i as nat) in a <==> (i as nat) !in b;
        assert a != b;
      }
    }
  }

  lemma {:induction false} QualifierCount(o: Options, froms: seq<From>, renamed: seq<From>)
    requires |froms| == |renamed| && forall i :: 0 <= i < |froms| ==> renamed[i] == RewriteFrom(o, froms[i])
    ensures |Qualifiers(renamed)| == |Qualifiers(froms)|
  {
    if froms != [] {
      QualifierCount(o, froms[..|froms| - 1], renamed[..|froms| - 1]);
    }
  }

  // ----- untouched parts -----

  lemma {:induction false} FixedQueryIff(q: Query, scope: seq<Ident>, db: Catalog, after: Catalog, stable: Names)
    requires Agree(stable, db, after)
    ensures FixedQuery(q, scope, stable) ==> PlanQuery(q, scope, after) == PlanQuery(q, scope, db)
    ensures AgreeOnly(stable, db, after) && PlanQuery(q, scope, after) == PlanQuery(q, scope, db) ==>
      FixedQuery(q, scope, stable)
    decreases q
  {
    hide Denotes, Agree, AgreeOnly;
    var p, p2 := PlanQuery(q, scope, db), PlanQuery(q, scope, after);
    forall i | 0 <= i < |q.ctes|
      ensures Matches(FixedCte(q.ctes[i], scope + CteNames(q)[..i], stable), p2.ctes[i] == p.ctes[i], stable, db, after)
    {
      FixedCteIff(q.ctes[i], scope + CteNames(q)[..i], db, after, stable);
    }
    FixedBodyIff(q.body, scope + CteNames(q), db, after, stable);
    SeqEq(p2.ctes, p.ctes);
  }

  lemma {:induction false} FixedCteIff(c: Cte, scope: seq<Ident>, db: Catalog, after: Catalog, stable: Names)
    requires Agree(stable, db, after)
    ensures FixedCte(c, scope, stable) ==> PlanCte(c, scope, after) == PlanCte(c, scope, db)
    ensures AgreeOnly(stable, db, after) && PlanCte(c, scope, after) == PlanCte(c, scope, db) ==>
      FixedCte(c, scope, stable)
    decreases c
  {
    FixedQueryIff(c.query, scope, db, after, stable);
  }

  lemma {:induction false} FixedBodyIff(b: Body, scope: seq<Ident>, db: Catalog, after: Catalog, stable: Names)
    requires Agree(stable, db, after)
    ensures FixedBody(b, scope, stable) ==> PlanBody(b, scope, after) == PlanBody(b, scope, db)
    ensures AgreeOnly(stable, db, after) && PlanBody(b, scope, after) == PlanBody(b, scope, db) ==>
      FixedBody(b, scope, stable)
    decreases b
  {
    hide Denotes, Agree, AgreeOnly;
    match b {
      case Select(froms, columns, subqueries) =>
        var p, p2 := PlanBody(b, scope, db), PlanBody(b, scope, after);
        forall i | 0 <= i < |froms|
          ensures Matches(FixedFrom(froms[i], scope, stable), p2.froms[i] == p.froms[i], stable, db, after)
        {
          FixedFromIff(froms[i], scope, db, after, stable);
        }
        forall i | 0 <= i < |subqueries|
          ensures Matches(FixedQuery(subqueries[i], scope, stable), p2.subqueries[i] == p.subqueries[i],
                          stable, db, after)
        {
          FixedQueryIff(subqueries[i], scope, db, after, stable);
        }
        SeqEq(p2.froms, p.froms);
        SeqEq(p2.subqueries, p.subqueries);
        assert p2.columns == p.columns;
      case SetOp(_, left, right) =>
        FixedBodyIff(left, scope, db, after, stable);
        FixedBodyIff(right, scope, db, after, stable);
      case Nested(q) => FixedQueryIff(q, scope, db, after, stable);
      case Values(_) =>
    }
  }

  lemma {:induction false} FixedFromIff(f: From, scope: seq<Ident>, db: Catalog, after: Catalog, stable: Names)
    requires Agree(stable, db, after)
    ensures FixedFrom(f, scope, stable) ==> PlanFrom(f, scope, after) == PlanFrom(f, scope, db)
    ensures AgreeOnly(stable, db, after) && PlanFrom(f, scope, after) == PlanFrom(f, scope, db) ==>
      FixedFrom(f, scope, stable)
    decreases f
  {
    hide Denotes, Agree, AgreeOnly;
    var p, p2 := PlanFrom(f, scope, db), PlanFrom(f, scope, after);
    FixedFactorIff(f.relation, scope, db, after, stable);
    forall i | 0 <= i < |f.joins|
      ensures Matches(FixedFactor(f.joins[i], scope, stable), p2.joins[i] == p.joins[i], stable, db, after)
    {
      FixedFactorIff(f.joins[i], scope, db, after, stable);
    }
    SeqEq(p2.joins, p.joins);
  }

  lemma {:induction false} FixedFactorIff(f: Factor, scope: seq<Ident>, db: Catalog, after: Catalog, stable: Names)
    requires Agree(stable, db, after)
    ensures FixedFactor(f, scope, stable) ==> PlanFactor(f, scope, after) == PlanFactor(f, scope, db)
    ensures AgreeOnly(stable, db, after) && PlanFactor(f, scope, after) == PlanFactor(f, scope, db) ==>
      FixedFactor(f, scope, stable)
    decreases f
  {
    hide Denotes, Agree, AgreeOnly;
    match f {
      case Table(name, _) => UnvisitedIff(name, scope, db, after, stable);
      case Derived(q, _) => FixedQueryIff(q, scope, db, after, stable);
      case Grouped(parts) =>
        var p, p2 := PlanFactor(f, scope, db), PlanFactor(f, scope, after);
        forall i | 0 <= i < |parts|
          ensures Matches(FixedFactor(parts[i], scope, stable), p2.parts[i] == p.parts[i], stable, db, after)
        {
          FixedFactorIff(parts[i], scope, db, after, stable);
        }
        SeqEq(p2.parts, p.parts);
    }
  }

  // ----- rewritten parts -----

  /** Where each replacement denotes the original relation, a safe query resolves as before; and a query
      that does is safe, when nothing but the stable names is unmoved. */
  lemma {:induction false} RewriteIff(o: Options, q: Query, scope: seq<Ident>, db: Catalog, after: Catalog,
                                      stable: Names)
    requires Denotes(o, db, after) && Agree(stable, db, after)
    ensures SafeQuery(o, q, scope, stable) ==> PlanQuery(RewriteQuery(o, q), scope, after) == PlanQuery(q, scope, db)
    ensures AgreeOnly(stable, db, after) && PlanQuery(RewriteQuery(o, q), scope, after) == PlanQuery(q, scope, db) ==>
      SafeQuery(o, q, scope, stable)
    decreases q
  {
    hide Denotes, Agree, AgreeOnly;
    var r := RewriteQuery(o, q);
    assert CteNames(r) == CteNames(q);
    var p, p2 := PlanQuery(q, scope, db), PlanQuery(r, scope, after);
    forall i | 0 <= i < |q.ctes|
      ensures Matches(SafeCte(o, q.ctes[i], scope + CteNames(q)[..i], stable), p2.ctes[i] == p.ctes[i],
                      stable, db, after)
    {
      RewriteCteIff(o, q.ctes[i], scope + CteNames(q)[..i], db, after, stable);
    }
    RewriteBodyIff(o, q.body, scope + CteNames(q), db, after, stable);
    SeqEq(p2.ctes, p.ctes);
  }

  lemma {:induction false} RewriteCteIff(o: Options, c: Cte, scope: seq<Ident>, db: Catalog, after: Catalog,
                                         stable: Names)
    requires Denotes(o, db, after) && Agree(stable, db, after)
    ensures SafeCte(o, c, scope, stable) ==> PlanCte(RewriteCte(o, c), scope, after) == PlanCte(c, scope, db)
    ensures AgreeOnly(stable, db, after) && PlanCte(RewriteCte(o, c), scope, after) == PlanCte(c, scope, db) ==>
      SafeCte(o, c, scope, stable)
    decreases c
  {
    RewriteIff(o, c.query, scope, db, after, stable);
  }

  lemma {:induction false} RewriteBodyIff(o: Options, b: Body, scope: seq<Ident>, db: Catalog, after: Catalog,
                                          stable: Names)
    requires Denotes(o, db, after) && Agree(stable, db, after)
    ensures SafeBody(o, b, scope, stable) ==> PlanBody(RewriteBody(o, b), scope, after) == PlanBody(b, scope, db)
    ensures AgreeOnly(stable, db, after) && PlanBody(RewriteBody(o, b), scope, after) == PlanBody(b, scope, db) ==>
      SafeBody(o, b, scope, stable)
    decreases b
  {
    hide Denotes, Agree, AgreeOnly, PlanColumn, ColumnOk, Qualifiers;
    match b {
      case Select(froms, columns, subqueries) =>
        var r := RewriteBody(o, b);
        var p, p2 := PlanBody(b, scope, db), PlanBody(r, scope, after);
        forall i | 0 <= i < |froms|
          ensures Matches(SafeFrom(o, froms[i], scope, stable), p2.froms[i] == p.froms[i], stable, db, after)
        {
          RewriteFromIff(o, froms[i], scope, db, after, stable);
        }
        forall i | 0 <= i < |subqueries|
          ensures Matches(FixedQuery(subqueries[i], scope, stable), p2.subqueries[i] == p.subqueries[i],
                          stable, db, after)
        {
          FixedQueryIff(subqueries[i], scope, db, after, stable);
        }
        QualifierCount(o, froms, r.froms);
        forall i | 0 <= i < |columns|
          ensures p2.columns[i] == p.columns[i] <==> ColumnOk(Qualifiers(froms), Qualifiers(r.froms), columns[i])
        {
          ColumnIff(Qualifiers(froms), Qualifiers(r.froms), columns[i]);
        }
        SeqEq(p2.froms, p.froms);
        SeqEq(p2.columns, p.columns);
        SeqEq(p2.subqueries, p.subqueries);
      case SetOp(_, left, right) =>
        RewriteBodyIff(o, left, scope, db, after, stable);
        RewriteBodyIff(o, right, scope, db, after, stable);
      case Nested(q) => RewriteIff(o, q, scope, db, after, stable);
      case Values(_) =>
    }
  }

  lemma {:induction false} RewriteFromIff(o: Options, f: From, scope: seq<Ident>, db: Catalog, after: Catalog,
                                          stable: Names)
    requires Denotes(o, db, after) && Agree(stable, db, after)
    ensures SafeFrom(o, f, scope, stable) ==> PlanFrom(RewriteFrom(o, f), scope, after) == PlanFrom(f, scope, db)
    ensures AgreeOnly(stable, db, after) && PlanFrom(RewriteFrom(o, f), scope, after) == PlanFrom(f, scope, db) ==>
      SafeFrom(o, f, scope, stable)
    decreases f
  {
    hide Denotes, Agree, AgreeOnly;
    var p, p2 := PlanFrom(f, scope, db), PlanFrom(RewriteFrom(o, f), scope, after);
    RewriteFactorIff(o, f.relation, scope, db, after, stable);
    forall i | 0 <= i < |f.joins|
      ensures Matches(SafeFactor(o, f.joins[i], scope, stable), p2.joins[i] == p.joins[i], stable, db, after)
    {
      RewriteFactorIff(o, f.joins[i], scope, db, after, stable);
    }
    SeqEq(p2.joins, p.joins);
  }

  lemma {:induction false} RewriteFactorIff(o: Options, f: Factor, scope: seq<Ident>, db: Catalog, after: Catalog,
                                            stable: Names)
    requires Denotes(o, db, after) && Agree(stable, db, after)
    ensures SafeFactor(o, f, scope, stable) ==>
      PlanFactor(RewriteFactor(o, f), scope, after) == PlanFactor(f, scope, db)
    ensures AgreeOnly(stable, db, after)
            && PlanFactor(RewriteFactor(o, f), scope, after) == PlanFactor(f, scope, db)
            ==> SafeFactor(o, f, scope, stable)
    decreases f
  {
    hide Denotes, Agree, AgreeOnly;
    match f {
      case Table(name, _) => VisitedIff(o, name, scope, db, after, stable);
      case Derived(q, _) => RewriteIff(o, q, scope, db, after, stable);
      case Grouped(parts) =>
        var p, p2 := PlanFactor(f, scope, db), PlanFactor(f, scope, after);
        forall i | 0 <= i < |parts|
          ensures Matches(FixedFactor(parts[i], scope, stable), p2.parts[i] == p.parts[i], stable, db, after)
        {
          FixedFactorIff(parts[i], scope, db, after, stable);
        }
        SeqEq(p2.parts, p.parts);
    }
  }

  /** The exact condition, for any two catalogs in which the replacements denote the originals: no renamed
      reference is captured, every other free reference is unmoved, no qualified column names a changed item. */
  lemma RewriteExact(o: Options, q: Query, db: Catalog, after: Catalog)
    requires Denotes(o, db, after)
    ensures PlanQuery(RewriteQuery(o, q), [], after) == PlanQuery(q, [], db) <==>
      SafeQuery(o, q, [], Unmoved(db, after))
  {
    RewriteIff(o, q, [], db, after, Unmoved(db, after));
  }

  /** Without looking at the catalogs: it is enough that the other references are not named by the options
      at all, if names the options do not mention are left alone. */
  lemma RewritePreserves(o: Options, q: Query, db: Catalog, after: Catalog)
    requires Denotes(o, db, after) && Agree(Unconcerned(o), db, after) && SafeQuery(o, q, [], Unconcerned(o))
    ensures PlanQuery(RewriteQuery(o, q), [], after) == PlanQuery(q, [], db)
  {
    RewriteIff(o, q, [], db, after, Unconcerned(o));
  }

  // ----- qualified columns -----

  lemma {:induction false} PrintedLonger(n: Name)
    ensures |n| == 1 ==> Printed(n) == n[0]
    ensures |n| > 1 ==> |Printed(n)| > |n[|n| - 1]|
  {
    if |n| > 1 {
      PrintedLonger(n[1..]);
      assert n[1..][|n| - 2] == n[|n| - 1];
    }
  }

  /** The rewrite loses an item's qualifier exactly when it has no alias and is either a mapped name of
      several parts or the source under another replacement name. */
  lemma QualifierKeptIff(o: Options, f: Factor)
    ensures Qualifier(RewriteFactor(o, f)) != Qualifier(f) <==> (
        && f.Table? && f.alias.None?
        && (if o.mappings.Some? then Printed(f.name) in o.mappings.value && |f.name| > 1
            else o.source.Some? && Printed(f.name) == "source" && o.source.value != f.name[|f.name| - 1]))
  {
    if f.Table? { PrintedLonger(f.name); }
  }

  /** Reading a qualified column of `source`, as in SELECT source.x FROM source. */
  function ReadSource(column: string): Query {
    Query([], Select([From(Table(["source"], None), [])], [ColumnRef(Some("source"), column)], []))
  }

  lemma ReadSourceQualifiers(o: Options, column: string)
    ensures Qualifiers(ReadSource(column).body.froms) == [Some("source")]
    ensures var b := RewriteBody(o, ReadSource(column).body);
      b.Select? && Qualifiers(b.froms) == [Qualifier(RewriteFactor(o, Table(["source"], None)))]
  {
    var b := ReadSource(column).body;
    var froms, renamed := b.froms, RewriteBody(o, b).froms;
    assert renamed == [RewriteFrom(o, froms[0])];
    assert froms[..0] == [] && renamed[..0] == [];
    assert JoinQualifiers(froms[0].joins) == [] && JoinQualifiers(renamed[0].joins) == [];
    assert Qualifiers(froms[..0]) == [] && Qualifiers(renamed[..0]) == [];
  }

  /** The source replacement adds no alias, so the qualifier stops resolving; the same renaming given as
      a table mapping adds one and keeps it. */
  lemma SourceReplacementLosesQualifier(r: Ident, column: string, stable: Names)
    requires r != "source"
    ensures !SafeQuery(Options(None, Some(r)), ReadSource(column), [], stable)
    ensures SafeQuery(Options(Some(map["source" := r]), None), ReadSource(column), [], stable)
  {
    var q := ReadSource(column);
    var bare, mapped := Options(None, Some(r)), Options(Some(map["source" := r]), None);
    ReadSourceQualifiers(bare, column);
    ReadSourceQualifiers(mapped, column);
    assert Printed(["source"]) == "source";
    assert [] + CteNames(q) == [];
    assert Qualifiers(RewriteBody(bare, q.body).froms) == [Some(r)];
    assert Qualifiers(RewriteBody(mapped, q.body).froms) == [Some("source")];
    assert [Some("source")][0] != [Some(r)][0];
    assert !ColumnOk([Some("source")], [Some(r)], q.body.columns[0]);
    assert RenamesTo(mapped, ["source"], [r]) && [r][0] != ["source"][0];
    assert SafeFactor(mapped, q.body.froms[0].relation, [], stable);
    assert SafeFrom(mapped, q.body.froms[0], [], stable);
    assert ColumnOk([Some("source")], [Some("source")], q.body.columns[0]);
  }

  // ----- the ordinary case -----

  /** The name is neither renamed nor a replacement. */
  ghost predicate Clear(o: Options, s: Ident) {
    !Renames(o, [s]) && !IsReplacement(o, [s])
  }

  ghost predicate PlainQuery(o: Options, q: Query)
    decreases q
  {
    (forall i :: 0 <= i < |q.ctes| ==> PlainCte(o, q.ctes[i])) && PlainBody(o, q.body)
  }

  ghost predicate PlainCte(o: Options, c: Cte)
    decreases c
  {
    Clear(o, c.name) && PlainQuery(o, c.query)
  }

  ghost predicate PlainBody(o: Options, b: Body)
    decreases b
  {
    match b
    case Select(froms, _, subqueries) => subqueries == [] && forall i :: 0 <= i < |froms| ==> PlainFrom(o, froms[i])
    case SetOp(_, left, right) => PlainBody(o, left) && PlainBody(o, right)
    case Nested(q) => PlainQuery(o, q)
    case Values(_) => true
  }

  ghost predicate PlainFrom(o: Options, f: From)
    decreases f
  {
    PlainFactor(o, f.relation) && forall i :: 0 <= i < |f.joins| ==> PlainFactor(o, f.joins[i])
  }

  /** A renamed table has a simple name or an alias, and any other is no replacement. */
  ghost predicate PlainFactor(o: Options, f: Factor)
    decreases f
  {
    match f
    case Table(name, alias) => if Renames(o, name) then |name| == 1 || alias.Some? else !IsReplacement(o, name)
    case Derived(q, _) => PlainQuery(o, q)
    case Grouped(parts) => parts == []
  }

  ghost predicate ClearScope(o: Options, scope: seq<Ident>) {
    forall s :: s in scope ==> Clear(o, s)
  }

  lemma PlainFactorQualifier(o: Options, f: Factor)
    requires o.mappings.Some? && PlainFactor(o, f)
    ensures Qualifier(RewriteFactor(o, f)) == Qualifier(f)
  {
    QualifierKeptIff(o, f);
    if f.Table? && Printed(f.name) in o.mappings.value {
      assert RenamesTo(o, f.name, [o.mappings.value[Printed(f.name)]]);
    }
  }

  lemma {:induction false} PlainQualifiers(o: Options, froms: seq<From>, renamed: seq<From>)
    requires o.mappings.Some? && |froms| == |renamed|
    requires forall i :: 0 <= i < |froms| ==> PlainFrom(o, froms[i]) && renamed[i] == RewriteFrom(o, froms[i])
    ensures Qualifiers(renamed) == Qualifiers(froms)
  {
    hide Qualifier, PlainFactor, RewriteFactor;
    if froms != [] {
      var f := froms[|froms| - 1];
      PlainQualifiers(o, froms[..|froms| - 1], renamed[..|froms| - 1]);
      assert PlainFrom(o, f) && renamed[|froms| - 1] == RewriteFrom(o, f);
      PlainFactorQualifier(o, f.relation);
      forall i | 0 <= i < |f.joins| ensures Qualifier(RewriteFactor(o, f.joins[i])) == Qualifier(f.joins[i]) {
        PlainFactorQualifier(o, f.joins[i]);
      }
      assert JoinQualifiers(RewriteFrom(o, f).joins) == JoinQualifiers(f.joins);
    }
  }

  lemma {:induction false} PlainFactorSafe(o: Options, f: Factor, scope: seq<Ident>)
    requires o.mappings.Some? && PlainFactor(o, f) && ClearScope(o, scope)
    ensures SafeFactor(o, f, scope, Unconcerned(o))
    decreases f
  {
    match f {
      case Table(name, _) =>
        assert BoundIn(name, scope) ==> Clear(o, name[0]) && name == [name[0]];
        var n := Rename(o, name);
        assert BoundIn(n, scope) ==> Clear(o, n[0]) && n == [n[0]];
      case Derived(q, _) => PlainIsSafe(o, q, scope);
      case Grouped(_) =>
    }
  }

  lemma {:induction false} PlainBodySafe(o: Options, b: Body, scope: seq<Ident>)
    requires o.mappings.Some? && PlainBody(o, b) && ClearScope(o, scope)
    ensures SafeBody(o, b, scope, Unconcerned(o))
    decreases b
  {
    hide PlainFactor, SafeFactor, Qualifiers;
    match b {
      case Select(froms, columns, _) =>
        forall i | 0 <= i < |froms| ensures SafeFrom(o, froms[i], scope, Unconcerned(o)) {
          assert PlainFrom(o, froms[i]);
          PlainFactorSafe(o, froms[i].relation, scope);
          forall j | 0 <= j < |froms[i].joins| ensures SafeFactor(o, froms[i].joins[j], scope, Unconcerned(o)) {
            PlainFactorSafe(o, froms[i].joins[j], scope);
          }
        }
        PlainQualifiers(o, froms, RewriteBody(o, b).froms);
      case SetOp(_, left, right) =>
        PlainBodySafe(o, left, scope);
        PlainBodySafe(o, right, scope);
      case Nested(q) => PlainIsSafe(o, q, scope);
      case Values(_) =>
    }
  }

  /** With table mappings, common table expressions named apart from mapped and replacement names, and
      every reference in a FROM, a JOIN or a derived table, the rewrite is safe. */
  lemma {:induction false} PlainIsSafe(o: Options, q: Query, scope: seq<Ident>)
    requires o.mappings.Some? && PlainQuery(o, q) && ClearScope(o, scope)
    ensures SafeQuery(o, q, scope, Unconcerned(o))
    decreases q
  {
    hide PlainBody, SafeBody, Clear;
    var names := CteNames(q);
    forall s | s in scope + names ensures Clear(o, s) {
      if s !in scope {
        var i :| 0 <= i < |names| && names[i] == s;
        assert PlainCte(o, q.ctes[i]);
      }
    }
    forall i | 0 <= i < |q.ctes| ensures SafeCte(o, q.ctes[i], scope + names[..i], Unconcerned(o)) {
      assert PlainCte(o, q.ctes[i]);
      assert forall s :: s in scope + names[..i] ==> s in scope + names;
      PlainIsSafe(o, q.ctes[i].query, scope + names[..i]);
    }
    PlainBodySafe(o, q.body, scope + names);
  }

  // ----- the in-place traversal -----

  /** Rewrite every common table expression, then the body. */
  method ReplaceInQuery(o: Options, q: Query) returns (r: Query)
    ensures r == RewriteQuery(o, q)
    decreases q
  {
    hide RewriteBody;
    var ctes := q.ctes;
    for i := 0 to |q.ctes|
      invariant |ctes| == |q.ctes|
      invariant forall j :: 0 <= j < i ==> ctes[j] == RewriteCte(o, q.ctes[j])
      invariant forall j :: i <= j < |ctes| ==> ctes[j] == q.ctes[j]
    {
      var inner := ReplaceInQuery(o, q.ctes[i].query);
      ctes := ctes[i := ctes[i].(query := inner)];
    }
    var body := ReplaceInBody(o, q.body);
    r := Query(ctes, body);
    assert ctes == RewriteQuery(o, q).ctes;
  }

  method ReplaceInBody(o: Options, b: Body) returns (r: Body)
    ensures r == RewriteBody(o, b)
    decreases b
  {
    match b {
      case Select(original, columns, subqueries) =>
        var froms := original;
        for i := 0 to |original|
          invariant |froms| == |original|
          invariant forall j :: 0 <= j < i ==> froms[j] == RewriteFrom(o, original[j])
          invariant forall j :: i <= j < |froms| ==> froms[j] == original[j]
        {
          var f := ReplaceInFrom(o, original[i]);
          froms := froms[i := f];
        }
        r := Select(froms, columns, subqueries);
        assert froms == RewriteBody(o, b).froms;
      case SetOp(op, left, right) =>
        var l := ReplaceInBody(o, left);
        var t := ReplaceInBody(o, right);
        r := SetOp(op, l, t);
      case Nested(q) =>
        var inner := ReplaceInQuery(o, q);
        r := Nested(inner);
      case Values(_) => r := b;
    }
  }

  method ReplaceInFrom(o: Options, f: From) returns (r: From)
    ensures r == RewriteFrom(o, f)
    decreases f
  {
    var relation := ReplaceTableName(o, f.relation);
    var joins := f.joins;
    for i := 0 to |f.joins|
      invariant |joins| == |f.joins|
      invariant forall j :: 0 <= j < i ==> joins[j] == RewriteFactor(o, f.joins[j])
      invariant forall j :: i <= j < |joins| ==> joins[j] == f.joins[j]
    {
      var factor := ReplaceTableName(o, f.joins[i]);
      joins := joins[i := factor];
    }
    r := From(relation, joins);
    assert joins == RewriteFrom(o, f).joins;
  }

  method ReplaceTableName(o: Options, f: Factor) returns (r: Factor)
    ensures r == RewriteFactor(o, f)
    decreases f
  {
    r := f;
    match f {
      case Table(name, alias) =>
        var printed, newName: Name, newAlias := Printed(name), name, alias;
        if o.mappings.Some? {
          if printed in o.mappings.value {
            if newAlias.None? { newAlias := Some(printed); }
            newName := [o.mappings.value[printed]];
          }
        } else if o.source.Some? && printed == "source" {
          newName := [o.source.value];
        }
        r := Table(newName, newAlias);
      case Derived(q, alias) =>
        var inner := ReplaceInQuery(o, q);
        r := Derived(inner, alias);
      case Grouped(_) =>
    }
  }
}
