/**
 Partition paths such as `year=2025/month=7`, and the time bounds the export reads back from them.

 `Exact` says when those bounds are right: the half-open interval they name holds exactly the
 instants of that partition.  It holds if and only if the list of parts is `Nested`.
 */
module Partitions {
  import opened Wrappers
  import opened Calendar

  datatype Part = Year | Quarter | Month | Day | Hour | Minute | Second

  /** A Hive-style relative directory: `[(Year, 2025), (Month, 7)]` is `year=2025/month=7`. */
  type Path = seq<(Part, int)>

  /** `date_part(p, t)`. */
  function Field(p: Part, c: Civil): int {
    match p
    case Year => c.year
    case Quarter => (c.month - 1) / 3 + 1
    case Month => c.month
    case Day => c.day
    case Hour => c.hour
    case Minute => c.minute
    case Second => c.second
  }

  function PathOf(parts: seq<Part>, t: int): Path {
    seq(|parts|, i requires 0 <= i < |parts| => (parts[i], Field(parts[i], CivilOf(t))))
  }

  // ----- reading bounds back from a path -----

  /** The value of a part in the path; a later component overrides an earlier one. */
  function Lookup(path: Path, p: Part): Option<int> {
    if path == [] then None
    else if path[|path| - 1].0 == p then Some(path[|path| - 1].1)
    else Lookup(path[..|path| - 1], p)
  }

  function Or(x: Option<int>, d: int): int {
    if x.Some? then x.value else d
  }

  /** First instant the date library cannot represent. */
  function Horizon(): int {
    (YearStart(MAX_YEAR + 1) - EPOCH) * DAY
  }

  function WithYear(c: Civil, y: int): Option<Civil> {
    var d := c.(year := y);
    if y <= MAX_YEAR && d.Valid() then Some(d) else None
  }

  function WithMonth(c: Civil, m: int): Option<Civil> {
    var d := c.(month := m);
    if d.Valid() then Some(d) else None
  }

  function After(c: Civil, seconds: int): Result<int>
    requires c.Valid()
  {
    var e := c.Timestamp() + seconds;
    if e < Horizon() then Ok(e) else Err
  }

  function Stamp(c: Option<Civil>): Result<int>
    requires c.Some? ==> c.value.Valid()
  {
    if c.Some? then Ok(c.value.Timestamp()) else Err
  }

  /** The end of the partition: the finest part advanced by one. */
  function EndTime(c: Civil, last: Part): Result<int>
    requires c.Valid()
  {
    match last
    case Year => Stamp(WithYear(c, c.year + 1))
    case Quarter => AdvanceMonths(c, 3)
    case Month => AdvanceMonths(c, 1)
    case Day => After(c, DAY)
    case Hour => After(c, 3600)
    case Minute => After(c, 60)
    case Second => After(c, 1)
  }

  function AdvanceMonths(c: Civil, n: int): Result<int>
    requires c.Valid() && 0 < n <= 12
  {
    if c.month + n > 12 then
      var next := WithYear(c, c.year + 1);
      if next.None? then Err else Stamp(WithMonth(next.value, c.month + n - 12))
    else Stamp(WithMonth(c, c.month + n))
  }

  /** Missing finer parts take their first value; a quarter stands for its first month. */
  function StartOf(path: Path): Option<Civil> {
    var year := Lookup(path, Year);
    if year.None? then None
    else
      var month := match Lookup(path, Month)
        case Some(m) => m
        case None => (match Lookup(path, Quarter) case Some(q) => (q - 1) * 3 + 1 case None => 1);
      Some(Civil(year.value, month, Or(Lookup(path, Day), 1), Or(Lookup(path, Hour), 0),
                 Or(Lookup(path, Minute), 0), Or(Lookup(path, Second), 0)))
  }

  /** Start and end of a partition in epoch seconds; a path with no temporal part has none. */
  function Bounds(path: Path): Result<Option<(int, int)>> {
    if path == [] then Ok(None)
    else match StartOf(path)
      case None => Err
      case Some(c) =>
        if c.year <= 0 || c.year > MAX_YEAR || !c.Valid() then Err
        else match EndTime(c, path[|path| - 1].0)
          case Err => Err
          case Ok(e) => Ok(Some((c.Timestamp(), e)))
  }

  // ----- exactness -----

  function Rank(p: Part): nat {
    match p
    case Year => 0 case Quarter => 1 case Month => 2 case Day => 3
    case Hour => 4 case Minute => 5 case Second => 6
  }

  /** The parts without which `p` does not say when. */
  function Chain(p: Part): set<Part> {
    match p
    case Year => {Year}
    case Quarter => {Year, Quarter}
    case Month => {Year, Month}
    case Day => {Year, Month, Day}
    case Hour => {Year, Month, Day, Hour}
    case Minute => {Year, Month, Day, Hour, Minute}
    case Second => {Year, Month, Day, Hour, Minute, Second}
  }

  /** The last part is the finest, and no coarser level it depends on is skipped. */
  ghost predicate Nested(parts: seq<Part>) {
    && parts != []
    && (forall i :: 0 <= i < |parts| ==> Rank(parts[i]) <= Rank(parts[|parts| - 1]))
    && (forall p :: p in Chain(parts[|parts| - 1]) ==> p in parts)
  }

  ghost predicate Dated(t: int) {
    1 <= CivilOf(t).year < MAX_YEAR
  }

  /** The bounds of `t`'s partition hold `u` exactly when `u` is in the same partition. */
  ghost predicate ExactAt(parts: seq<Part>, t: int, u: int) {
    match Bounds(PathOf(parts, t))
    case Ok(Some((s, e))) => s <= u < e <==> PathOf(parts, u) == PathOf(parts, t)
    case _ => false
  }

  ghost predicate Exact(parts: seq<Part>) {
    forall t, u :: Dated(t) ==> ExactAt(parts, t, u)
  }

  // ----- calendar units as intervals -----

  /** `t` and `u` lie in the same calendar unit. */
  ghost predicate Same(p: Part, t: int, u: int) {
    var a, b := CivilOf(t), CivilOf(u);
    && a.year == b.year
    && (p == Quarter ==> Field(Quarter, a) == Field(Quarter, b))
    && (Rank(p) >= 2 ==> a.month == b.month)
    && (Rank(p) >= 3 ==> a.day == b.day)
    && (Rank(p) >= 4 ==> a.hour == b.hour)
    && (Rank(p) >= 5 ==> a.minute == b.minute)
    && (Rank(p) >= 6 ==> a.second == b.second)
  }

  /** The first instant of the unit, broken down. */
  function Truncate(p: Part, c: Civil): Civil {
    match p
    case Year => Civil(c.year, 1, 1, 0, 0, 0)
    case Quarter => Civil(c.year, (c.month - 1) / 3 * 3 + 1, 1, 0, 0, 0)
    case Month => Civil(c.year, c.month, 1, 0, 0, 0)
    case Day => Civil(c.year, c.month, c.day, 0, 0, 0)
    case Hour => Civil(c.year, c.month, c.day, c.hour, 0, 0)
    case Minute => Civil(c.year, c.month, c.day, c.hour, c.minute, 0)
    case Second => c
  }

  ghost predicate Facts(t: int, c: Civil) {
    && c.Valid() && c == CivilOf(t)
    && t / DAY == c.DayNumber() && t % DAY == c.hour * 3600 + c.minute * 60 + c.second
    && IsYear(t / DAY + EPOCH, c.year)
    && IsMonth(c.year, t / DAY + EPOCH - YearStart(c.year), c.month)
  }

  lemma CivilFacts(t: int)
    ensures Facts(t, CivilOf(t))
  {
    var c := CivilOf(t);
    hide CivilOf, YearStart, MonthStart;
    SecondsSplit(c.DayNumber(), c.hour, c.minute, c.second, t);
    DayOfYear(c);
  }

  /** Day number of the first of month `m`, month 13 being the next January. */
  function MonthDay(y: int, m: int): int
    requires 1 <= m <= 13
  {
    YearStart(y) + MonthStart(y, m)
  }

  /** Consecutive months `a..b` of year `y` are exactly the days between their edges. */
  lemma MonthSpan(y: int, a: int, b: int, u: int)
    requires 1 <= a < b <= 13
    ensures MonthDay(y, a) <= u / DAY + EPOCH < MonthDay(y, b) <==> CivilOf(u).year == y && a <= CivilOf(u).month < b
  {
    CivilFacts(u);
    var c, d := CivilOf(u), u / DAY + EPOCH;
    hide CivilOf;
    YearStep(y);
    MonthMono(y, 1, a);
    MonthMono(y, b, 13);
    if MonthDay(y, a) <= d < MonthDay(y, b) {
      YearUnique(d, y, c.year);
      MonthEdges(y, d - YearStart(y), c.month, a, b);
    }
    if c.year == y && a <= c.month < b {
      MonthMono(y, a, c.month);
      MonthMono(y, c.month + 1, b);
    }
  }

  lemma MonthEdges(y: int, doy: int, m: int, a: int, b: int)
    requires 1 <= a < b <= 13 && IsMonth(y, doy, m) && MonthStart(y, a) <= doy < MonthStart(y, b)
    ensures a <= m < b
  {
    if m < a { MonthMono(y, m + 1, a); }
    if b <= m { MonthMono(y, b, m); }
  }

  lemma DayEdge(u: int, d: int)
    ensures d * DAY <= u <==> d <= u / DAY
  {
  }

  lemma MonthStamp(y: int, m: int)
    requires 1 <= m <= 13
    ensures m <= 12 ==>
      Civil(y, m, 1, 0, 0, 0).Valid() && Civil(y, m, 1, 0, 0, 0).Timestamp() == (MonthDay(y, m) - EPOCH) * DAY
    ensures m == 13 ==> Civil(y + 1, 1, 1, 0, 0, 0).Timestamp() == (MonthDay(y, m) - EPOCH) * DAY
  {
    YearStep(y);
  }

  /** A unit of whole months is the half-open interval from its first day to its end. */
  lemma MonthsExact(p: Part, t: int, u: int)
    requires Rank(p) <= 2
    ensures var c := Truncate(p, CivilOf(t));
      && c.Valid() && (c.year < MAX_YEAR ==> EndTime(c, p).Ok?)
      && (EndTime(c, p).Ok? ==> (c.Timestamp() <= u < EndTime(c, p).value <==> Same(p, t, u)))
  {
    CivilFacts(t);
    var o := CivilOf(t);
    var y := o.year;
    var c := Truncate(p, o);
    hide CivilOf, YearStart, MonthStart;
    var n := if p == Year then 12 else if p == Quarter then 3 else 1;
    var a := c.month;
    assert a + n <= 13;
    MonthSpan(y, a, a + n, u);
    MonthStamp(y, a);
    MonthStamp(y, a + n);
    DayEdge(u, MonthDay(y, a) - EPOCH);
    DayEdge(u, MonthDay(y, a + n) - EPOCH);
    assert EndTime(c, p).Ok? ==> EndTime(c, p) == Ok((MonthDay(y, a + n) - EPOCH) * DAY);
  }

  lemma DayExact(t: int, u: int)
    ensures t / DAY == u / DAY <==> Same(Day, t, u)
  {
    CivilFacts(t);
    CivilFacts(u);
    var a, b := CivilOf(t), CivilOf(u);
    hide CivilOf;
    if t / DAY == u / DAY {
      YearUnique(t / DAY + EPOCH, a.year, b.year);
      MonthUnique(a.year, t / DAY + EPOCH - YearStart(a.year), a.month, b.month);
    }
  }

  lemma ClockExact(p: Part, t: int, u: int)
    requires Rank(p) >= 3
    ensures var c := Truncate(p, CivilOf(t));
      var n := if p == Day then DAY else if p == Hour then 3600 else if p == Minute then 60 else 1;
      c.Valid() && (c.Timestamp() <= u < c.Timestamp() + n <==> Same(p, t, u))
  {
    CivilFacts(t);
    CivilFacts(u);
    DayExact(t, u);
    var a, b := CivilOf(t), CivilOf(u);
    var c := Truncate(p, a);
    hide CivilOf, IsYear, IsMonth;
    assert c.DayNumber() == a.DayNumber() == t / DAY;
    var start, x, y := c.Timestamp() - t / DAY * DAY, t % DAY, u % DAY;
    assert u == u / DAY * DAY + y;
    SameClock(p, a, b, start, y, t / DAY, u / DAY);
  }

  /** A slot inside a day holds an instant exactly when the day matches and the clock is in the slot. */
  lemma DayCarry(dt: int, du: int, start: int, n: int, y: int)
    requires 0 <= start && 0 < n && start + n <= DAY && 0 <= y < DAY
    ensures dt * DAY + start <= du * DAY + y < dt * DAY + start + n <==> dt == du && start <= y < start + n
  {
  }

  lemma Slot(a: int, b: int, r: int, n: int)
    requires n == 3600 || n == 60 || n == 1
    requires 0 <= r < n
    ensures a * n <= b * n + r < a * n + n <==> a == b
  {
  }

  lemma SameClock(p: Part, a: Civil, b: Civil, start: int, y: int, dt: int, du: int)
    requires Rank(p) >= 3 && a.Valid() && b.Valid()
    requires y == b.hour * 3600 + b.minute * 60 + b.second
    requires start == (if Rank(p) >= 4 then a.hour * 3600 else 0) + (if Rank(p) >= 5 then a.minute * 60 else 0)
                      + (if Rank(p) >= 6 then a.second else 0)
    ensures var n := if p == Day then DAY else if p == Hour then 3600 else if p == Minute then 60 else 1;
      (dt * DAY + start <= du * DAY + y < dt * DAY + start + n) <==>
      (dt == du && (Rank(p) >= 4 ==> a.hour == b.hour) && (Rank(p) >= 5 ==> a.minute == b.minute)
       && (Rank(p) >= 6 ==> a.second == b.second))
  {
    var n := if p == Day then DAY else if p == Hour then 3600 else if p == Minute then 60 else 1;
    assert 0 <= y < DAY && 0 <= start && start + n <= DAY;
    DayCarry(dt, du, start, n, y);
    if p == Hour {
      Slot(a.hour, b.hour, b.minute * 60 + b.second, 3600);
    } else if p == Minute {
      Slot(a.hour * 60 + a.minute, b.hour * 60 + b.minute, b.second, 60);
    } else if p == Second {
      Slot(a.hour * 60 + a.minute, b.hour * 60 + b.minute, b.second, 60);
    }
  }

  // ----- the path of an instant -----

  lemma {:induction false} LookupPath(parts: seq<Part>, t: int, p: Part)
    ensures Lookup(PathOf(parts, t), p) == if p in parts then Some(Field(p, CivilOf(t))) else None
  {
    hide CivilOf;
    if parts != [] {
      var n := |parts| - 1;
      assert PathOf(parts, t)[..n] == PathOf(parts[..n], t);
      LookupPath(parts[..n], t, p);
      assert parts == parts[..n] + [parts[n]];
    }
  }

  lemma PathEqual(parts: seq<Part>, t: int, u: int)
    ensures PathOf(parts, t) == PathOf(parts, u) <==>
      forall p :: p in parts ==> Field(p, CivilOf(t)) == Field(p, CivilOf(u))
  {
    hide CivilOf;
    var a, b := PathOf(parts, t), PathOf(parts, u);
    if a == b {
      forall p | p in parts ensures Field(p, CivilOf(t)) == Field(p, CivilOf(u)) {
        var i :| 0 <= i < |parts| && parts[i] == p;
        assert a[i] == b[i];
      }
    }
  }

  /** Under nested parts, a shared path means a shared unit of the finest part. */
  lemma NestedPath(parts: seq<Part>, t: int, u: int)
    requires Nested(parts)
    ensures PathOf(parts, t) == PathOf(parts, u) <==> Same(parts[|parts| - 1], t, u)
  {
    PathEqual(parts, t, u);
    var last := parts[|parts| - 1];
    var a, b := CivilOf(t), CivilOf(u);
    hide CivilOf;
    if forall p :: p in parts ==> Field(p, a) == Field(p, b) {
      forall p | p in Chain(last) ensures Field(p, a) == Field(p, b) { assert p in parts; }
      ChainSame(last, t, u);
    }
    if Same(last, t, u) {
      forall p | p in parts ensures Field(p, a) == Field(p, b) {
        var i :| 0 <= i < |parts| && parts[i] == p;
        assert Rank(parts[i]) <= Rank(last);
      }
    }
  }

  lemma ChainSame(last: Part, t: int, u: int)
    requires forall p :: p in Chain(last) ==> Field(p, CivilOf(t)) == Field(p, CivilOf(u))
    ensures Same(last, t, u)
  {
    var a, b := CivilOf(t), CivilOf(u);
    hide CivilOf;
    assert Year in Chain(last) && (last == Quarter ==> Quarter in Chain(last));
    assert Field(Year, a) == Field(Year, b);
    if Rank(last) >= 2 { assert Month in Chain(last); assert Field(Month, a) == Field(Month, b); }
    if Rank(last) >= 3 { assert Day in Chain(last); assert Field(Day, a) == Field(Day, b); }
    if Rank(last) >= 4 { assert Hour in Chain(last); assert Field(Hour, a) == Field(Hour, b); }
    if Rank(last) >= 5 { assert Minute in Chain(last); assert Field(Minute, a) == Field(Minute, b); }
    if Rank(last) >= 6 { assert Second in Chain(last); assert Field(Second, a) == Field(Second, b); }
  }

  lemma NestedStart(parts: seq<Part>, t: int)
    requires Nested(parts)
    ensures StartOf(PathOf(parts, t)) == Some(Truncate(parts[|parts| - 1], CivilOf(t)))
  {
    hide PathOf, CivilOf;
    var last := parts[|parts| - 1];
    forall p | p in parts ensures Rank(p) <= Rank(last) {
      var i :| 0 <= i < |parts| && parts[i] == p;
    }
    forall p ensures p in Chain(last) ==> p in parts { }
    LookupPath(parts, t, Year);
    LookupPath(parts, t, Quarter);
    LookupPath(parts, t, Month);
    LookupPath(parts, t, Day);
    LookupPath(parts, t, Hour);
    LookupPath(parts, t, Minute);
    LookupPath(parts, t, Second);
  }

  lemma WithinHorizon(c: Civil, n: int)
    requires c.Valid() && c.year <= MAX_YEAR && n <= DAY
    ensures c.year < MAX_YEAR ==> After(c, n) == Ok(c.Timestamp() + n)
  {
    if c.year == MAX_YEAR { return; }
    DayOfYear(c);
    YearMono(c.year + 1, MAX_YEAR);
    YearStep(MAX_YEAR);
  }

  lemma UnitExact(p: Part, t: int, u: int)
    requires CivilOf(t).year <= MAX_YEAR
    ensures var c := Truncate(p, CivilOf(t));
      && c.Valid() && c.year == CivilOf(t).year && (c.year < MAX_YEAR ==> EndTime(c, p).Ok?)
      && (EndTime(c, p).Ok? ==> (c.Timestamp() <= u < EndTime(c, p).value <==> Same(p, t, u)))
  {
    hide CivilOf, Same, Truncate, Civil.Timestamp, Civil.Valid, Horizon, AdvanceMonths, WithYear;
    var c := Truncate(p, CivilOf(t));
    TruncateYear(p, CivilOf(t));
    if Rank(p) <= 2 {
      MonthsExact(p, t, u);
    } else {
      ClockExact(p, t, u);
      var n := if p == Day then DAY else if p == Hour then 3600 else if p == Minute then 60 else 1;
      WithinHorizon(c, n);
      assert EndTime(c, p) == After(c, n);
    }
  }

  /** Whenever bounds are read back from the path of an instant at all, they are exact. */
  lemma BoundsExact(parts: seq<Part>, t: int, u: int)
    requires Nested(parts)
    ensures Dated(t) ==> Bounds(PathOf(parts, t)).Ok?
    ensures Bounds(PathOf(parts, t)).Ok? ==> ExactAt(parts, t, u)
  {
    hide CivilOf, Truncate, EndTime, Same, StartOf, Civil.Timestamp, Civil.Valid;
    NestedStart(parts, t);
    NestedPath(parts, t, u);
    var path, last := PathOf(parts, t), parts[|parts| - 1];
    assert path != [] && path[|path| - 1].0 == last;
    TruncateYear(last, CivilOf(t));
    if CivilOf(t).year <= MAX_YEAR { UnitExact(last, t, u); }
  }

  lemma TruncateYear(p: Part, c: Civil)
    ensures Truncate(p, c).year == c.year
  {
  }

  // ----- and when they are read back -----

  /** The last second the date library can represent. */
  const DUSK: Civil := Civil(MAX_YEAR, 12, 31, 23, 59, 59)

  lemma DuskStamp()
    ensures DUSK.Valid() && DUSK.Timestamp() == Horizon() - 1 && CivilOf(DUSK.Timestamp()) == DUSK
  {
    YearStep(MAX_YEAR);
    CivilUnique(DUSK);
  }

  lemma BeforeHorizon(c: Civil)
    requires c.Valid() && c.year <= MAX_YEAR
    ensures c.Timestamp() < Horizon()
  {
    hide YearStart;
    DayOfYear(c);
    YearMono(c.year + 1, MAX_YEAR + 1);
  }

  /** In the last year a unit has an end exactly when it is not the last one. */
  lemma LastUnit(p: Part, t: int)
    requires CivilOf(t).year == MAX_YEAR
    ensures var c := Truncate(p, CivilOf(t));
      c.Valid() && (EndTime(c, p).Ok? <==> !Same(p, t, DUSK.Timestamp()))
  {
    DuskStamp();
    CivilFacts(t);
    hide CivilOf, YearStart, Horizon, Civil.Timestamp;
    var c := Truncate(p, CivilOf(t));
    if Rank(p) >= 3 {
      ClockExact(p, t, DUSK.Timestamp());
      BeforeHorizon(c);
    }
  }

  /** Bounds are read back from the path of an instant exactly when its year counts from 1 and the date library
      reaches past its partition. */
  lemma BoundsReadIff(parts: seq<Part>, t: int)
    requires Nested(parts)
    ensures Bounds(PathOf(parts, t)).Ok? <==>
      1 <= CivilOf(t).year <= MAX_YEAR && PathOf(parts, t) != PathOf(parts, DUSK.Timestamp())
  {
    hide CivilOf, EndTime, Same, ExactAt, Truncate, Horizon, Civil.Timestamp, Civil.Valid, StartOf;
    var last, dusk := parts[|parts| - 1], DUSK.Timestamp();
    DuskStamp();
    BoundsExact(parts, t, t);
    NestedStart(parts, t);
    NestedPath(parts, t, dusk);
    TruncateYear(last, CivilOf(t));
    YearApart(last, t, dusk);
    if CivilOf(t).year == MAX_YEAR { LastUnit(last, t); }
    assert PathOf(parts, t)[|parts| - 1].0 == last;
  }

  lemma YearApart(p: Part, t: int, u: int)
    ensures Same(p, t, u) ==> CivilOf(t).year == CivilOf(u).year
  {
  }

  lemma NestedExact(parts: seq<Part>)
    requires Nested(parts)
    ensures Exact(parts)
  {
    hide ExactAt, Dated, Nested, Bounds, PathOf;
    forall t, u | Dated(t) ensures ExactAt(parts, t, u) { BoundsExact(parts, t, u); }
  }

  // ----- and only then -----

  /** 2001-01-01T00:00:00Z, where every field has its first value. */
  const DAWN: Civil := Civil(2001, 1, 1, 0, 0, 0)

  /** The instant one unit later, in which only that field has moved (a new quarter moves the month too). */
  function Later(p: Part): Civil {
    match p
    case Year => Civil(2002, 1, 1, 0, 0, 0)
    case Quarter => Civil(2001, 4, 1, 0, 0, 0)
    case Month => Civil(2001, 2, 1, 0, 0, 0)
    case Day => Civil(2001, 1, 2, 0, 0, 0)
    case Hour => Civil(2001, 1, 1, 1, 0, 0)
    case Minute => Civil(2001, 1, 1, 0, 1, 0)
    case Second => Civil(2001, 1, 1, 0, 0, 1)
  }

  function Length(p: Part): int {
    match p
    case Year => 365 * DAY case Quarter => 90 * DAY case Month => 31 * DAY case Day => DAY
    case Hour => 3600 case Minute => 60 case Second => 1
  }

  lemma DawnStamp()
    ensures YearStart(2001) == 730485 && YearStart(2002) == 730850
    ensures DAWN.Valid() && DAWN.Timestamp() == 978307200
  {
  }

  lemma LaterStamp(p: Part)
    ensures Later(p).Valid() && Later(p).Timestamp() == 978307200 + Length(p)
  {
    DawnStamp();
    hide YearStart;
  }

  lemma DawnEnd(p: Part)
    ensures DAWN.Valid() && EndTime(DAWN, p) == Ok(978307200 + Length(p))
  {
    DawnStamp();
    LaterStamp(p);
    hide YearStart;
    if Rank(p) >= 3 { WithinHorizon(DAWN, Length(p)); }
  }

  lemma Dawn(p: Part)
    ensures DAWN.Valid() && DAWN.Timestamp() == 978307200 && CivilOf(978307200) == DAWN
    ensures Later(p).Valid() && Later(p).Timestamp() == 978307200 + Length(p)
    ensures CivilOf(978307200 + Length(p)) == Later(p)
    ensures EndTime(DAWN, p) == Ok(978307200 + Length(p))
  {
    hide CivilOf, YearStart, EndTime, Civil.Valid, Civil.Timestamp;
    DawnStamp();
    LaterStamp(p);
    DawnEnd(p);
    CivilUnique(DAWN);
    CivilUnique(Later(p));
  }

  lemma LookupDawn(parts: seq<Part>, p: Part)
    ensures Lookup(PathOf(parts, 978307200), p) == if p in parts then Some(Field(p, DAWN)) else None
  {
    Dawn(p);
    LookupPath(parts, 978307200, p);
  }

  lemma DawnStartOf(parts: seq<Part>)
    ensures StartOf(PathOf(parts, 978307200)) == if Year in parts then Some(DAWN) else None
  {
    hide PathOf, Lookup, CivilOf;
    LookupDawn(parts, Year);
    LookupDawn(parts, Quarter);
    LookupDawn(parts, Month);
    LookupDawn(parts, Day);
    LookupDawn(parts, Hour);
    LookupDawn(parts, Minute);
    LookupDawn(parts, Second);
  }

  /** Whatever parts are present, the path of dawn starts at dawn. */
  lemma DawnStart(parts: seq<Part>)
    requires parts != []
    ensures var path := PathOf(parts, 978307200);
      Bounds(path) == if Year in parts then Ok(Some((978307200, 978307200 + Length(parts[|parts| - 1])))) else Err
  {
    hide CivilOf, EndTime, StartOf, Civil.Timestamp;
    var path, last := PathOf(parts, 978307200), parts[|parts| - 1];
    Dawn(last);
    DawnStartOf(parts);
    assert path[|path| - 1].0 == last;
  }

  /** One unit of `p` later, exactly the paths that mention `p` differ (or the month, after a quarter). */
  lemma LaterPath(parts: seq<Part>, p: Part)
    requires p != Quarter || p in parts
    ensures PathOf(parts, 978307200 + Length(p)) == PathOf(parts, 978307200) <==> p !in parts
  {
    Dawn(p);
    PathEqual(parts, 978307200 + Length(p), 978307200);
    hide CivilOf;
    assert Field(p, Later(p)) != Field(p, DAWN);
    assert p != Quarter ==> forall q :: q != p ==> Field(q, Later(p)) == Field(q, DAWN);
  }

  lemma Distances(p: Part, q: Part)
    ensures Rank(p) < Rank(q) ==> Length(q) < Length(p)
  {
  }

  lemma NotNestedNotExact(parts: seq<Part>)
    requires parts != [] && !Nested(parts)
    ensures !Exact(parts)
  {
    hide CivilOf, Bounds, PathOf;
    var last := parts[|parts| - 1];
    var t := 978307200;
    Dawn(last);
    DawnStart(parts);
    assert Dated(t);
    if Year !in parts {
      assert !ExactAt(parts, t, t);
    } else if i :| 0 <= i < |parts| && Rank(parts[i]) > Rank(last) {
      var u := t + Length(parts[i]);
      LaterPath(parts, parts[i]);
      Distances(last, parts[i]);
      assert !ExactAt(parts, t, u);
    } else {
      var r :| r in Chain(last) && r !in parts;
      var u := t + Length(r);
      assert r != Quarter && last in parts;
      LaterPath(parts, r);
      Distances(r, last);
      assert !ExactAt(parts, t, u);
    }
  }

  /** The bounds read back from partition paths are exact precisely for nested lists of parts. */
  lemma ExactIffNested(parts: seq<Part>)
    requires parts != []
    ensures Exact(parts) <==> Nested(parts)
  {
    hide Exact, Nested;
    if Nested(parts) { NestedExact(parts); } else { NotNestedNotExact(parts); }
  }
}
