/**
 Reconciling a sidecar directory with the live versions, filling it, and reading it through an
 explicit file set, over any history of writes and collapses.
 */
module SidecarCache {
  import opened Wrappers
  import opened Sidecar

  /** What a version of a content key parses to under the node's one format. */
  type Parse = (nat, string) -> seq<Record>

  ghost function LiveRows(node: NodeId, live: seq<VersionInfo>, parse: Parse): seq<Record> {
    if live == [] then [] else parse(live[0].version, VersionKey(node, live[0])) + LiveRows(node, live[1..], parse)
  }

  /** Every sidecar of the node on disk holds its version's rows. */
  ghost predicate Honest(disk: Disk, sd: SidecarDir, node: NodeId, parse: Parse) {
    forall v {:trigger SidecarPath(sd, node, v)} :: SidecarPath(sd, node, v) in disk ==>
      disk[SidecarPath(sd, node, v)] == parse(v.version, VersionKey(node, v))
  }

  function Keep(sd: SidecarDir, node: NodeId, live: seq<VersionInfo>): set<Path> {
    set i | 0 <= i < |live| :: SidecarPath(sd, node, live[i])
  }

  predicate IsStale(sd: SidecarDir, node: NodeId, live: seq<VersionInfo>, p: Path) {
    Owned(sd, node, p) && p !in Keep(sd, node, live)
  }

  ghost function StaleIn(disk: Disk, sd: SidecarDir, node: NodeId, live: seq<VersionInfo>): set<Path> {
    set p | p in disk && IsStale(sd, node, live, p)
  }

  /** The directory is a projection of the live versions: its own files are theirs and no others. */
  ghost predicate Projection(disk: Disk, sd: SidecarDir, node: NodeId, live: seq<VersionInfo>) {
    && (forall p :: p in disk && Owned(sd, node, p) ==> p in Keep(sd, node, live))
    && (forall p :: p in Keep(sd, node, live) ==> p in disk)
  }

  function MissingOf(disk: Disk, sd: SidecarDir, node: NodeId, live: seq<VersionInfo>): seq<VersionInfo> {
    if live == [] then []
    else (if SidecarPath(sd, node, live[0]) in disk then [] else [live[0]]) + MissingOf(disk, sd, node, live[1..])
  }

  lemma {:induction false} MissingMembers(disk: Disk, sd: SidecarDir, node: NodeId, live: seq<VersionInfo>,
                                          v: VersionInfo)
    ensures v in MissingOf(disk, sd, node, live) <==> v in live && SidecarPath(sd, node, v) !in disk
  {
    hide SidecarPath;
    if live != [] {
      assert live == [live[0]] + live[1..];
      MissingMembers(disk, sd, node, live[1..], v);
    }
  }

  // ----- the explicit file set -----

  datatype Bounds = Bounds(eventTimeLo: Option<int>, versionGt: Option<int>)

  predicate Retains(b: Bounds, v: VersionInfo) {
    && (b.eventTimeLo.Some? && v.maxEventTime.Some? ==> v.maxEventTime.value >= b.eventTimeLo.value)
    && (b.versionGt.Some? ==> v.version > b.versionGt.value)
  }

  function RetainedBy(b: Bounds, live: seq<VersionInfo>): seq<VersionInfo> {
    if live == [] then [] else (if Retains(b, live[0]) then [live[0]] else []) + RetainedBy(b, live[1..])
  }

  /** Which versions a bounded read opens: those numbered above the watermark whose recorded times reach the
      bound or are not recorded. */
  lemma {:induction false} RetainedIff(b: Bounds, live: seq<VersionInfo>, v: VersionInfo)
    ensures v in RetainedBy(b, live) <==> (
      && v in live && (b.versionGt.None? || b.versionGt.value < v.version)
      && (b.eventTimeLo.None? || v.maxEventTime.None? || b.eventTimeLo.value <= v.maxEventTime.value))
  {
    if live != [] {
      RetainedIff(b, live[1..], v);
      assert live == [live[0]] + live[1..];
    }
  }

  datatype CachedSet = CachedSet(files: seq<Path>, missing: seq<Path>) {
    function Extend(other: CachedSet): CachedSet {
      CachedSet(files + other.files, missing + other.missing)
    }
  }

  ghost function Paths(sd: SidecarDir, node: NodeId, vs: seq<VersionInfo>): seq<Path> {
    if vs == [] then [] else [SidecarPath(sd, node, vs[0])] + Paths(sd, node, vs[1..])
  }

  ghost function Scan(disk: Disk, files: seq<Path>): seq<Record>
    requires forall p :: p in files ==> p in disk
  {
    if files == [] then [] else disk[files[0]] + Scan(disk, files[1..])
  }

  lemma {:induction false} ScanConcat(disk: Disk, a: seq<Path>, b: seq<Path>)
    requires forall p :: p in a + b ==> p in disk
    ensures (forall p :: p in a ==> p in disk) && (forall p :: p in b ==> p in disk)
    ensures Scan(disk, a + b) == Scan(disk, a) + Scan(disk, b)
  {
    forall p | p in a || p in b ensures p in disk { assert p in a + b; }
    if a == [] {
      assert a + b == b;
    } else {
      assert (a + b)[1..] == a[1..] + b;
      ScanConcat(disk, a[1..], b);
    }
  }

  /** Reading the sidecars of versions that are all on disk reads exactly their rows, in order. */
  lemma {:induction false} ScanIsLive(disk: Disk, sd: SidecarDir, node: NodeId, vs: seq<VersionInfo>, parse: Parse)
    requires Honest(disk, sd, node, parse) && forall v :: v in vs ==> SidecarPath(sd, node, v) in disk
    ensures (forall p :: p in Paths(sd, node, vs) ==> p in disk)
    ensures Scan(disk, Paths(sd, node, vs)) == LiveRows(node, vs, parse)
  {
    hide SidecarPath, VersionKey;
    if vs != [] {
      ScanIsLive(disk, sd, node, vs[1..], parse);
      assert Paths(sd, node, vs)[1..] == Paths(sd, node, vs[1..]);
    }
  }

  lemma NothingRetained(sd: SidecarDir, node: NodeId, b: Bounds)
    ensures RetainedBy(b, []) == [] && Paths(sd, node, []) == []
  {
  }

  /** Split the retained versions' files into those on disk and those missing. */
  method CachedSetFor(disk: Disk, sd: SidecarDir, node: NodeId, live: seq<VersionInfo>, b: Bounds)
    returns (c: CachedSet)
    ensures forall p :: p in c.files ==> p in disk
    ensures forall p :: p in c.missing ==> p !in disk
    ensures multiset(c.files) + multiset(c.missing) == multiset(Paths(sd, node, RetainedBy(b, live)))
    ensures c.missing == [] ==> c.files == Paths(sd, node, RetainedBy(b, live))
  {
    hide SidecarPath, Retains, Paths, RetainedBy;
    c := CachedSet([], []);
    ghost var seen: seq<VersionInfo> := [];
    NothingRetained(sd, node, b);
    for n := 0 to |live|
      invariant forall p :: p in c.files ==> p in disk
      invariant forall p :: p in c.missing ==> p !in disk
      invariant seen == RetainedBy(b, live[..n])
      invariant multiset(c.files) + multiset(c.missing) == multiset(Paths(sd, node, seen))
      invariant c.missing == [] ==> c.files == Paths(sd, node, seen)
    {
      RetainedSnoc(b, live, n);
      if Retains(b, live[n]) {
        PathsSnoc(sd, node, seen, live[n]);
        seen := seen + [live[n]];
        var p := SidecarPath(sd, node, live[n]);
        if p in disk { c := c.(files := c.files + [p]); } else { c := c.(missing := c.missing + [p]); }
      }
    }
    assert live[..|live|] == live;
  }

  lemma {:induction false} RetainedSnoc(b: Bounds, live: seq<VersionInfo>, n: nat)
    requires n < |live|
    ensures RetainedBy(b, live[..n + 1]) == RetainedBy(b, live[..n]) + if Retains(b, live[n]) then [live[n]] else []
  {
    hide Retains;
    if n == 0 {
      assert live[..1] == [live[0]] && live[..0] == [];
    } else {
      assert live[..n + 1][1..] == live[1..][..n] && live[..n][1..] == live[1..][..n - 1];
      RetainedSnoc(b, live[1..], n - 1);
    }
  }

  lemma {:induction false} PathsSnoc(sd: SidecarDir, node: NodeId, vs: seq<VersionInfo>, v: VersionInfo)
    ensures Paths(sd, node, vs + [v]) == Paths(sd, node, vs) + [SidecarPath(sd, node, v)]
  {
    hide SidecarPath;
    if vs != [] {
      assert (vs + [v])[1..] == vs[1..] + [v];
      PathsSnoc(sd, node, vs[1..], v);
    }
  }

  lemma {:induction false} RetainedAll(live: seq<VersionInfo>)
    ensures RetainedBy(Bounds(None, None), live) == live
  {
    if live != [] { RetainedAll(live[1..]); }
  }

  // ----- pruning by an event-time bound -----

  ghost function From(lo: int, rows: seq<Record>): seq<Record> {
    if rows == [] then [] else (if rows[0].t >= lo then [rows[0]] else []) + From(lo, rows[1..])
  }

  lemma {:induction false} FromConcat(lo: int, a: seq<Record>, b: seq<Record>)
    ensures From(lo, a + b) == From(lo, a) + From(lo, b)
  {
    if a == [] {
      assert a + b == b;
    } else {
      var rest := a[1..];
      assert a + b == [a[0]] + (rest + b);
      assert (a + b)[1..] == rest + b;
      FromConcat(lo, rest, b);
      var head := if a[0].t >= lo then [a[0]] else [];
      assert From(lo, a) == head + From(lo, rest);
      assert head + (From(lo, rest) + From(lo, b)) == head + From(lo, rest) + From(lo, b);
    }
  }

  /** A version's rows reach the bound. */
  ghost predicate ReachesBound(lo: int, node: NodeId, v: VersionInfo, parse: Parse) {
    From(lo, parse(v.version, VersionKey(node, v))) != []
  }

  /** Pruning keeps the order and never invents rows. */
  lemma {:induction false} PruneShorter(lo: int, node: NodeId, live: seq<VersionInfo>, parse: Parse)
    ensures |From(lo, LiveRows(node, RetainedBy(Bounds(Some(lo), None), live), parse))| <=
      |From(lo, LiveRows(node, live, parse))|
  {
    hide VersionKey;
    if live != [] {
      var b := Bounds(Some(lo), None);
      PruneShorter(lo, node, live[1..], parse);
      FromConcat(lo, parse(live[0].version, VersionKey(node, live[0])), LiveRows(node, live[1..], parse));
      var kept := RetainedBy(b, live[1..]);
      if Retains(b, live[0]) {
        assert ([live[0]] + kept)[1..] == kept;
        FromConcat(lo, parse(live[0].version, VersionKey(node, live[0])), LiveRows(node, kept, parse));
      } else {
        assert [] + kept == kept;
      }
    }
  }

  /** Pruning then filtering equals filtering the full read exactly when no pruned version reaches the bound. */
  lemma {:induction false} PruneExactIff(lo: int, node: NodeId, live: seq<VersionInfo>, parse: Parse)
    ensures var pruned := RetainedBy(Bounds(Some(lo), None), live);
      From(lo, LiveRows(node, pruned, parse)) == From(lo, LiveRows(node, live, parse))
      <==> forall v :: v in live && !Retains(Bounds(Some(lo), None), v) ==> !ReachesBound(lo, node, v, parse)
  {
    hide VersionKey;
    if live != [] {
      var b := Bounds(Some(lo), None);
      var kept := RetainedBy(b, live[1..]);
      var head := parse(live[0].version, VersionKey(node, live[0]));
      assert live == [live[0]] + live[1..];
      FromConcat(lo, head, LiveRows(node, live[1..], parse));
      PruneExactIff(lo, node, live[1..], parse);
      PruneShorter(lo, node, live[1..], parse);
      var full, part := From(lo, LiveRows(node, live[1..], parse)), From(lo, LiveRows(node, kept, parse));
      if Retains(b, live[0]) {
        assert ([live[0]] + kept)[1..] == kept;
        FromConcat(lo, head, LiveRows(node, kept, parse));
        assert From(lo, head) + part == From(lo, head) + full <==> part == full by {
          assert (From(lo, head) + part)[|From(lo, head)|..] == part;
          assert (From(lo, head) + full)[|From(lo, head)|..] == full;
        }
      } else {
        assert [] + kept == kept;
        assert part == From(lo, head) + full <==> From(lo, head) == [] && part == full by {
          assert |From(lo, head) + full| == |From(lo, head)| + |full|;
        }
      }
    }
  }

  /** A recorded bound that is truthful is enough; a version without one is always kept. */
  lemma {:induction false} BelowBound(lo: int, rows: seq<Record>, max: int)
    requires max < lo && forall i :: 0 <= i < |rows| ==> rows[i].t <= max
    ensures From(lo, rows) == []
  {
    if rows != [] { BelowBound(lo, rows[1..], max); }
  }

  ghost predicate TruthfulBound(node: NodeId, v: VersionInfo, parse: Parse) {
    v.maxEventTime.Some? ==> forall r :: r in parse(v.version, VersionKey(node, v)) ==> r.t <= v.maxEventTime.value
  }

  lemma PruneLosesNothing(lo: int, node: NodeId, live: seq<VersionInfo>, parse: Parse)
    requires forall v :: v in live ==> TruthfulBound(node, v, parse)
    ensures From(lo, LiveRows(node, RetainedBy(Bounds(Some(lo), None), live), parse)) ==
      From(lo, LiveRows(node, live, parse))
  {
    hide VersionKey;
    forall v | v in live && !Retains(Bounds(Some(lo), None), v) ensures !ReachesBound(lo, node, v, parse) {
      assert TruthfulBound(node, v, parse);
      BelowBound(lo, parse(v.version, VersionKey(node, v)), v.maxEventTime.value);
    }
    PruneExactIff(lo, node, live, parse);
  }

  // ----- the directory -----

  predicate NoRepeats(s: seq<Path>) {
    forall i, j :: 0 <= i < j < |s| ==> s[i] != s[j]
  }

  // ----- name order -----

  predicate NameLe(a: string, b: string) {
    a == "" || (b != "" && (a[0] < b[0] || (a[0] == b[0] && NameLe(a[1..], b[1..]))))
  }

  ghost predicate Ascending(s: seq<Path>) {
    forall i, j :: 0 <= i < j < |s| ==> NameLe(s[i].name, s[j].name)
  }

  lemma {:induction false} NameLeTotal(a: string, b: string)
    ensures NameLe(a, b) || NameLe(b, a)
  {
    if a != "" && b != "" { NameLeTotal(a[1..], b[1..]); }
  }

  lemma {:induction false} NameLeTrans(a: string, b: string, c: string)
    requires NameLe(a, b) && NameLe(b, c)
    ensures NameLe(a, c)
  {
    if a != "" && a[0] == b[0] && b[0] == c[0] { NameLeTrans(a[1..], b[1..], c[1..]); }
  }

  function Insert(p: Path, s: seq<Path>): seq<Path> {
    if s == [] || NameLe(p.name, s[0].name) then [p] + s else [s[0]] + Insert(p, s[1..])
  }

  function Sort(s: seq<Path>): seq<Path> {
    if s == [] then [] else Insert(s[0], Sort(s[1..]))
  }

  lemma {:induction false} InsertKeeps(p: Path, s: seq<Path>)
    requires NoRepeats(s) && p !in s
    ensures NoRepeats(Insert(p, s)) && forall x :: x in Insert(p, s) <==> x == p || x in s
  {
    hide NameLe;
    if s != [] && !NameLe(p.name, s[0].name) {
      assert s == [s[0]] + s[1..];
      InsertKeeps(p, s[1..]);
      assert s[0] !in Insert(p, s[1..]);
    }
  }

  lemma {:induction false} InsertAscends(p: Path, s: seq<Path>)
    requires NoRepeats(s) && p !in s && Ascending(s)
    ensures Ascending(Insert(p, s))
  {
    hide NameLe;
    if s == [] {
    } else if NameLe(p.name, s[0].name) {
      forall j | 0 <= j < |s| ensures NameLe(p.name, s[j].name) {
        if j > 0 { NameLeTrans(p.name, s[0].name, s[j].name); }
      }
    } else {
      NameLeTotal(p.name, s[0].name);
      InsertAscends(p, s[1..]);
      InsertKeeps(p, s[1..]);
      var rest := Insert(p, s[1..]);
      forall j | 0 <= j < |rest| ensures NameLe(s[0].name, rest[j].name) {
        assert rest[j] in rest;
        assert rest[j] in s[1..] ==> exists i :: 1 <= i < |s| && s[i] == rest[j];
      }
    }
  }

  lemma {:induction false} SortKeeps(s: seq<Path>)
    requires NoRepeats(s)
    ensures NoRepeats(Sort(s)) && Ascending(Sort(s)) && forall x :: x in Sort(s) <==> x in s
  {
    hide NameLe;
    if s != [] {
      assert s == [s[0]] + s[1..];
      SortKeeps(s[1..]);
      InsertKeeps(s[0], Sort(s[1..]));
      InsertAscends(s[0], Sort(s[1..]));
    }
  }

  datatype Reconciliation = Reconciliation(missing: seq<VersionInfo>, removed: seq<Path>)

  lemma OwnedByIts(sd: SidecarDir, node: NodeId, live: seq<VersionInfo>)
    ensures forall p :: p in Keep(sd, node, live) ==> Owned(sd, node, p)
  {
    hide Owned, SidecarPath;
    forall p | p in Keep(sd, node, live) ensures Owned(sd, node, p) {
      var i :| 0 <= i < |live| && SidecarPath(sd, node, live[i]) == p;
      OwnedExactly(sd, node, node, live[i]);
    }
  }

  /** A written sidecar can only stand for versions with its own key. */
  lemma WriteKeepsHonest(disk: Disk, sd: SidecarDir, node: NodeId, v: VersionInfo, parse: Parse)
    requires Honest(disk, sd, node, parse)
    ensures Honest(disk[SidecarPath(sd, node, v) := parse(v.version, VersionKey(node, v))], sd, node, parse)
  {
    hide SidecarName, VersionKey;
    var out := disk[SidecarPath(sd, node, v) := parse(v.version, VersionKey(node, v))];
    forall w {:trigger SidecarPath(sd, node, w)} | SidecarPath(sd, node, w) in out
      ensures out[SidecarPath(sd, node, w)] == parse(w.version, VersionKey(node, w))
    {
      if SidecarPath(sd, node, w) == SidecarPath(sd, node, v) { NameInjective(sd.naming, node, w, node, v); }
    }
  }

  function TmpPath(p: Path): Path {
    Path(p.dir, p.name + ".tmp")
  }

  lemma TmpIsNoSidecar(sd: SidecarDir, node: NodeId, p: Path)
    ensures !Owned(sd, node, TmpPath(p)) && forall v :: SidecarPath(sd, node, v) != TmpPath(p)
  {
    hide SidecarName, IsParquet;
    TmpIsNotParquet(p.name);
    forall v ensures SidecarPath(sd, node, v) != TmpPath(p) { NameShape(sd.naming, node, v); }
  }

  class Cache {
    var disk: Disk

    /** Sidecars of this node that correspond to no live version, in name order. */
    method Stale(sd: SidecarDir, node: NodeId, live: seq<VersionInfo>) returns (stale: seq<Path>)
      ensures forall p :: p in stale <==> p in StaleIn(disk, sd, node, live)
      ensures NoRepeats(stale) && Ascending(stale)
    {
      hide Owned, Keep;
      stale := [];
      var todo := disk.Keys;
      while todo != {}
        invariant todo <= disk.Keys
        invariant forall p :: p in stale <==> p in StaleIn(disk, sd, node, live) && p !in todo
        invariant NoRepeats(stale)
        decreases |todo|
      {
        var p :| p in todo;
        if IsStale(sd, node, live, p) { stale := stale + [p]; }
        todo := todo - {p};
      }
      SortKeeps(stale);
      stale := Sort(stale);
    }

    /** Delete the node's stale sidecars in order and report the live versions still to be written.  A file
        already gone is no error; any other failure, here of the files in `stuck`, ends the sweep. */
    method Reconcile(sd: SidecarDir, node: NodeId, live: seq<VersionInfo>, stuck: set<Path>)
      returns (r: Result<Reconciliation>)
      modifies this
      ensures r.Ok? <==> StaleIn(old(disk), sd, node, live) !! stuck
      ensures r.Ok? ==>
        && disk == old(disk) - StaleIn(old(disk), sd, node, live)
        && NoRepeats(r.value.removed) && Ascending(r.value.removed)
        && (forall p :: p in r.value.removed <==> p in StaleIn(old(disk), sd, node, live))
        && r.value.missing == MissingOf(disk, sd, node, live)
      ensures r.Err? ==>
        && (forall p :: p in disk ==> p in old(disk) && disk[p] == old(disk)[p])
        && (forall p :: p in old(disk) && p !in disk ==> p in StaleIn(old(disk), sd, node, live) - stuck)
    {
      hide IsStale;
      var stale := Stale(sd, node, live);
      var removed: seq<Path> := [];
      for n := 0 to |stale|
        invariant removed == stale[..n]
        invariant forall i :: 0 <= i < n ==> stale[i] !in stuck
        invariant forall p :: p in disk <==> p in old(disk) && p !in stale[..n]
        invariant forall p :: p in disk ==> disk[p] == old(disk)[p]
      {
        assert stale[n] in StaleIn(old(disk), sd, node, live);
        assert stale[..n + 1] == stale[..n] + [stale[n]];
        if stale[n] in disk {
          if stale[n] in stuck { return Err; }
          disk := disk - {stale[n]};
          removed := removed + [stale[n]];
        }
      }
      assert stale[..|stale|] == stale;
      return Ok(Reconciliation(MissingOf(disk, sd, node, live), removed));
    }

    /** Write one sidecar under a temporary name and rename it into place; a crash may come between. */
    method WriteSidecar(sd: SidecarDir, node: NodeId, v: VersionInfo, rows: seq<Record>, partial: seq<Record>,
                        crash: bool) returns (ok: bool)
      modifies this
      ensures ok <==> !crash
      ensures ok ==> disk == (old(disk) - {TmpPath(SidecarPath(sd, node, v))})[SidecarPath(sd, node, v) := rows]
      ensures !ok ==> disk == old(disk)[TmpPath(SidecarPath(sd, node, v)) := partial]
    {
      hide SidecarPath;
      var final := SidecarPath(sd, node, v);
      var tmp := TmpPath(final);
      if crash {
        disk := disk[tmp := partial];
        return false;
      }
      disk := disk[tmp := rows];
      disk := (disk - {tmp})[final := rows];
      return true;
    }

    /** Write the missing versions; a crash leaves an honest directory without stray sidecars. */
    method Fill(sd: SidecarDir, node: NodeId, missing: seq<VersionInfo>, parse: Parse, crashAt: Option<nat>)
      returns (ok: bool)
      requires Honest(disk, sd, node, parse)
      modifies this
      ensures Honest(disk, sd, node, parse)
      ensures crashAt.None? ==> ok
      ensures ok ==> forall v :: v in missing ==> SidecarPath(sd, node, v) in disk
      ensures forall p :: p in disk && Owned(sd, node, p) && p !in old(disk) ==> p in Keep(sd, node, missing)
      ensures forall p :: p in old(disk) && Owned(sd, node, p) ==> p in disk
    {
      hide SidecarPath, Owned, VersionKey;
      for n := 0 to |missing|
        invariant Honest(disk, sd, node, parse)
        invariant forall i :: 0 <= i < n ==> SidecarPath(sd, node, missing[i]) in disk
        invariant forall p :: p in disk && Owned(sd, node, p) && p !in old(disk) ==> p in Keep(sd, node, missing)
        invariant forall p :: p in old(disk) && Owned(sd, node, p) ==> p in disk
      {
        var v := missing[n];
        var tmp := TmpPath(SidecarPath(sd, node, v));
        TmpIsNoSidecar(sd, node, SidecarPath(sd, node, v));
        WriteKeepsHonest(disk, sd, node, v, parse);
        ok := WriteSidecar(sd, node, v, parse(v.version, VersionKey(node, v)), [], crashAt == Some(n));
        if !ok { return false; }
      }
      return true;
    }

    /** Reconcile, write what is missing, and name the files to read. */
    method ReadThrough(sd: SidecarDir, node: NodeId, live: seq<VersionInfo>, b: Bounds, parse: Parse)
      returns (c: CachedSet)
      requires Honest(disk, sd, node, parse)
      modifies this
      ensures Honest(disk, sd, node, parse) && Projection(disk, sd, node, live)
      ensures c.missing == [] && c.files == Paths(sd, node, RetainedBy(b, live))
      ensures forall p :: p in c.files ==> p in disk
      ensures Scan(disk, c.files) == LiveRows(node, RetainedBy(b, live), parse)
    {
      hide SidecarPath, Owned, VersionKey, Retains;
      var swept := Reconcile(sd, node, live, {});
      var ok := Fill(sd, node, swept.value.missing, parse, None);
      OwnedByIts(sd, node, live);
      forall v | v in live ensures SidecarPath(sd, node, v) in disk {
        MissingMembers(old(disk) - StaleIn(old(disk), sd, node, live), sd, node, live, v);
        OwnedExactly(sd, node, node, v);
      }
      MissingAreLive(old(disk) - StaleIn(old(disk), sd, node, live), sd, node, live);
      RetainedAreLive(b, live);
      PathsMembers(sd, node, RetainedBy(b, live));
      c := CachedSetFor(disk, sd, node, live, b);
      AllPresent(disk, c, Paths(sd, node, RetainedBy(b, live)));
      ScanIsLive(disk, sd, node, RetainedBy(b, live), parse);
    }
  }

  lemma MissingAreLive(disk: Disk, sd: SidecarDir, node: NodeId, live: seq<VersionInfo>)
    ensures Keep(sd, node, MissingOf(disk, sd, node, live)) <= Keep(sd, node, live)
  {
    hide SidecarPath;
    var missing := MissingOf(disk, sd, node, live);
    forall p | p in Keep(sd, node, missing) ensures p in Keep(sd, node, live) {
      var i :| 0 <= i < |missing| && SidecarPath(sd, node, missing[i]) == p;
      MissingMembers(disk, sd, node, live, missing[i]);
      assert missing[i] in live;
      var j :| 0 <= j < |live| && live[j] == missing[i];
      assert SidecarPath(sd, node, live[j]) == p;
    }
  }

  lemma {:induction false} RetainedAreLive(b: Bounds, live: seq<VersionInfo>)
    ensures forall v :: v in RetainedBy(b, live) ==> v in live
  {
    hide Retains;
    if live != [] {
      RetainedAreLive(b, live[1..]);
      assert live == [live[0]] + live[1..];
    }
  }

  lemma {:induction false} PathsMembers(sd: SidecarDir, node: NodeId, vs: seq<VersionInfo>)
    ensures forall p :: p in Paths(sd, node, vs) ==> exists v :: v in vs && SidecarPath(sd, node, v) == p
  {
    hide SidecarPath;
    if vs != [] {
      PathsMembers(sd, node, vs[1..]);
      assert vs == [vs[0]] + vs[1..];
    }
  }

  lemma AllPresent(disk: Disk, c: CachedSet, all: seq<Path>)
    requires forall p :: p in all ==> p in disk
    requires forall p :: p in c.missing ==> p !in disk
    requires multiset(c.files) + multiset(c.missing) == multiset(all)
    ensures c.missing == []
  {
    forall p ensures multiset(c.missing)[p] == 0 {
      assert p in multiset(c.missing) ==> p in multiset(all) && p in c.missing;
      assert p in multiset(all) ==> p in all;
    }
    assert multiset(c.missing) == multiset{};
    assert |c.missing| == |multiset(c.missing)|;
  }

  // ----- histories of writes and collapses -----

  /** A new version, or a run of live versions replaced by one that stands for all of them. */
  datatype Event = Written(v: VersionInfo) | Collapsed(i: nat, j: nat, merged: VersionInfo)

  ghost function LiveAfter(events: seq<Event>): seq<VersionInfo> {
    if events == [] then []
    else
      var live := LiveAfter(events[..|events| - 1]);
      match events[|events| - 1]
      case Written(v) => live + [v]
      case Collapsed(i, j, merged) => if i <= j <= |live| then live[..i] + [merged] + live[j..] else live
  }

  /** Every row ever written, in order. */
  ghost function WrittenRows(node: NodeId, events: seq<Event>, parse: Parse): seq<Record> {
    if events == [] then []
    else
      var rows := WrittenRows(node, events[..|events| - 1], parse);
      match events[|events| - 1]
      case Written(v) => rows + parse(v.version, VersionKey(node, v))
      case Collapsed(_, _, _) => rows
  }

  /** Each merged version holds exactly the rows of the run it replaced. */
  ghost predicate Lossless(node: NodeId, events: seq<Event>, parse: Parse) {
    events != [] ==>
      && Lossless(node, events[..|events| - 1], parse)
      && (events[|events| - 1].Collapsed? ==>
            var e, live := events[|events| - 1], LiveAfter(events[..|events| - 1]);
            && e.i <= e.j <= |live|
            && parse(e.merged.version, VersionKey(node, e.merged)) == LiveRows(node, live[e.i..e.j], parse))
  }

  lemma {:induction false} LiveRowsConcat(node: NodeId, a: seq<VersionInfo>, b: seq<VersionInfo>, parse: Parse)
    ensures LiveRows(node, a + b, parse) == LiveRows(node, a, parse) + LiveRows(node, b, parse)
  {
    hide VersionKey;
    if a == [] {
      assert a + b == b;
    } else {
      assert (a + b)[1..] == a[1..] + b;
      LiveRowsConcat(node, a[1..], b, parse);
    }
  }

  lemma LiveRowsOne(node: NodeId, v: VersionInfo, parse: Parse)
    ensures LiveRows(node, [v], parse) == parse(v.version, VersionKey(node, v))
  {
  }

  lemma CollapseRows(node: NodeId, a: seq<VersionInfo>, b: seq<VersionInfo>, c: seq<VersionInfo>, merged: VersionInfo,
                     parse: Parse)
    ensures LiveRows(node, a + [merged] + c, parse) ==
      LiveRows(node, a, parse) + LiveRows(node, [merged], parse) + LiveRows(node, c, parse)
    ensures LiveRows(node, a + b + c, parse) ==
      LiveRows(node, a, parse) + LiveRows(node, b, parse) + LiveRows(node, c, parse)
  {
    hide LiveRows;
    LiveRowsConcat(node, a + [merged], c, parse);
    LiveRowsConcat(node, a, [merged], parse);
    LiveRowsConcat(node, a + b, c, parse);
    LiveRowsConcat(node, a, b, parse);
  }

  /** The live versions hold every row ever written, once, in order. */
  lemma {:induction false} HistoryConserves(node: NodeId, events: seq<Event>, parse: Parse)
    requires Lossless(node, events, parse)
    ensures LiveRows(node, LiveAfter(events), parse) == WrittenRows(node, events, parse)
  {
    hide VersionKey;
    if events != [] {
      var init, last := events[..|events| - 1], events[|events| - 1];
      HistoryConserves(node, init, parse);
      var live := LiveAfter(init);
      hide LiveRows;
      match last {
        case Written(v) =>
          LiveRowsConcat(node, live, [v], parse);
          LiveRowsOne(node, v, parse);
        case Collapsed(i, j, merged) =>
          CollapseKeepsRows(node, live, i, j, merged, parse);
      }
    }
  }

  lemma CollapseKeepsRows(node: NodeId, live: seq<VersionInfo>, i: nat, j: nat, merged: VersionInfo, parse: Parse)
    requires i <= j <= |live|
    requires parse(merged.version, VersionKey(node, merged)) == LiveRows(node, live[i..j], parse)
    ensures LiveRows(node, live[..i] + [merged] + live[j..], parse) == LiveRows(node, live, parse)
  {
    hide LiveRows, VersionKey;
    LiveRowsOne(node, merged, parse);
    CollapseRows(node, live[..i], live[i..j], live[j..], merged, parse);
    assert live == live[..i] + live[i..j] + live[j..];
  }

  lemma TakeOut(b: seq<VersionInfo>, v: VersionInfo) returns (before: seq<VersionInfo>, after: seq<VersionInfo>)
    requires v in b
    ensures b == before + ([v] + after) && multiset(before + after) == multiset(b) - multiset{v}
  {
    var i :| 0 <= i < |b| && b[i] == v;
    before, after := b[..i], b[i + 1..];
    assert b == before + ([v] + after);
    assert multiset(b) == multiset(before) + (multiset{v} + multiset(after));
  }

  /** The same versions in any order hold the same rows. */
  lemma {:induction false} RowsAnyOrder(node: NodeId, a: seq<VersionInfo>, b: seq<VersionInfo>, parse: Parse)
    requires multiset(a) == multiset(b)
    ensures multiset(LiveRows(node, a, parse)) == multiset(LiveRows(node, b, parse))
    decreases |a|
  {
    hide LiveRows;
    if a == [] {
      assert |b| == |multiset(b)| == 0;
    } else {
      var v, rest := a[0], a[1..];
      assert a == [v] + rest;
      assert v in multiset(b);
      var before, after := TakeOut(b, v);
      assert multiset(rest) == multiset(a) - multiset{v};
      RowsAnyOrder(node, rest, before + after, parse);
      MiddleRows(node, before, v, after, rest, parse);
    }
  }

  lemma MiddleRows(node: NodeId, before: seq<VersionInfo>, v: VersionInfo, after: seq<VersionInfo>,
                   rest: seq<VersionInfo>, parse: Parse)
    requires multiset(LiveRows(node, rest, parse)) == multiset(LiveRows(node, before + after, parse))
    ensures multiset(LiveRows(node, [v] + rest, parse)) == multiset(LiveRows(node, before + ([v] + after), parse))
  {
    hide LiveRows;
    LiveRowsConcat(node, [v], rest, parse);
    LiveRowsConcat(node, before, [v] + after, parse);
    LiveRowsConcat(node, [v], after, parse);
    LiveRowsConcat(node, before, after, parse);
  }

  lemma {:induction false} FromCounts(lo: int, rows: seq<Record>, r: Record)
    ensures multiset(From(lo, rows))[r] == if r.t >= lo then multiset(rows)[r] else 0
  {
    if rows != [] {
      FromCounts(lo, rows[1..], r);
      assert rows == [rows[0]] + rows[1..];
    }
  }

  lemma FromAnyOrder(lo: int, a: seq<Record>, b: seq<Record>)
    requires multiset(a) == multiset(b)
    ensures multiset(From(lo, a)) == multiset(From(lo, b))
  {
    forall r ensures multiset(From(lo, a))[r] == multiset(From(lo, b))[r] {
      FromCounts(lo, a, r);
      FromCounts(lo, b, r);
    }
  }

  /** A read after any history, from whatever honest directory earlier reads and crashes left, with the live
      versions listed in any order: every row once, in the order written if the versions are. */
  method ReadSeries(cache: Cache, sd: SidecarDir, node: NodeId, ghost events: seq<Event>, live: seq<VersionInfo>,
                    lo: Option<int>, parse: Parse) returns (c: CachedSet)
    requires Honest(cache.disk, sd, node, parse) && Lossless(node, events, parse)
    requires multiset(live) == multiset(LiveAfter(events)) && forall v :: v in live ==> TruthfulBound(node, v, parse)
    modifies cache
    ensures Honest(cache.disk, sd, node, parse) && Projection(cache.disk, sd, node, live)
    ensures c.missing == [] && forall p :: p in c.files ==> p in cache.disk
    ensures lo.None? ==> multiset(Scan(cache.disk, c.files)) == multiset(WrittenRows(node, events, parse))
    ensures lo.Some? ==>
      multiset(From(lo.value, Scan(cache.disk, c.files))) == multiset(From(lo.value, WrittenRows(node, events, parse)))
    ensures live == LiveAfter(events) && lo.None? ==> Scan(cache.disk, c.files) == WrittenRows(node, events, parse)
    ensures live == LiveAfter(events) && lo.Some? ==>
      From(lo.value, Scan(cache.disk, c.files)) == From(lo.value, WrittenRows(node, events, parse))
  {
    hide VersionKey, TruthfulBound, Projection, Honest, Lossless, LiveRows, From, WrittenRows, LiveAfter;
    c := cache.ReadThrough(sd, node, live, Bounds(lo, None), parse);
    HistoryConserves(node, events, parse);
    RowsAnyOrder(node, live, LiveAfter(events), parse);
    if lo.Some? {
      PruneLosesNothing(lo.value, node, live, parse);
      FromAnyOrder(lo.value, LiveRows(node, live, parse), WrittenRows(node, events, parse));
    } else {
      RetainedAll(live);
    }
  }

  // ----- one read over several nodes -----

  datatype Member = Member(sd: SidecarDir, node: NodeId, live: seq<VersionInfo>)

  ghost function GlobPaths(members: seq<Member>, b: Bounds): seq<Path> {
    if members == [] then []
    else
      var last := members[|members| - 1];
      GlobPaths(members[..|members| - 1], b) + Paths(last.sd, last.node, RetainedBy(b, last.live))
  }

  ghost function GlobRows(members: seq<Member>, b: Bounds, parse: Parse): seq<Record> {
    if members == [] then []
    else
      var last := members[|members| - 1];
      GlobRows(members[..|members| - 1], b, parse) + LiveRows(last.node, RetainedBy(b, last.live), parse)
  }

  lemma GlobPathsNone(b: Bounds)
    ensures GlobPaths([], b) == []
  {
  }

  lemma GlobPathsNext(members: seq<Member>, n: nat, b: Bounds)
    requires n < |members|
    ensures var m := members[n];
      GlobPaths(members[..n + 1], b) == GlobPaths(members[..n], b) + Paths(m.sd, m.node, RetainedBy(b, m.live))
  {
    hide Paths, RetainedBy;
    assert members[..n + 1][..n] == members[..n];
  }

  /** The union of every member's own set; what is not on disk is reported, never dropped. */
  method GlobCachedSet(disk: Disk, members: seq<Member>, b: Bounds) returns (c: CachedSet)
    ensures forall p :: p in c.files ==> p in disk
    ensures forall p :: p in c.missing ==> p !in disk
    ensures multiset(c.files) + multiset(c.missing) == multiset(GlobPaths(members, b))
    ensures c.missing == [] ==> c.files == GlobPaths(members, b)
  {
    hide Paths, RetainedBy, GlobPaths;
    c := CachedSet([], []);
    GlobPathsNone(b);
    for n := 0 to |members|
      invariant forall p :: p in c.files ==> p in disk
      invariant forall p :: p in c.missing ==> p !in disk
      invariant multiset(c.files) + multiset(c.missing) == multiset(GlobPaths(members[..n], b))
      invariant c.missing == [] ==> c.files == GlobPaths(members[..n], b)
    {
      var one := CachedSetFor(disk, members[n].sd, members[n].node, members[n].live, b);
      GlobPathsNext(members, n, b);
      c := c.Extend(one);
    }
    assert members[..|members|] == members;
  }

  ghost predicate GlobHonest(disk: Disk, members: seq<Member>, parse: Parse) {
    forall i :: 0 <= i < |members| ==> Honest(disk, members[i].sd, members[i].node, parse)
  }

  /** A glob read with nothing missing is the concatenation of its members' live rows. */
  lemma {:induction false} GlobScan(disk: Disk, members: seq<Member>, b: Bounds, parse: Parse)
    requires GlobHonest(disk, members, parse) && forall p :: p in GlobPaths(members, b) ==> p in disk
    ensures Scan(disk, GlobPaths(members, b)) == GlobRows(members, b, parse)
  {
    hide VersionKey, SidecarPath, RetainedBy;
    if members != [] {
      var init, last := members[..|members| - 1], members[|members| - 1];
      var vs := RetainedBy(b, last.live);
      var a, z := GlobPaths(init, b), Paths(last.sd, last.node, vs);
      ScanConcat(disk, a, z);
      GlobScan(disk, init, b, parse);
      PathsHit(last.sd, last.node, vs);
      assert Honest(disk, last.sd, last.node, parse);
      ScanIsLive(disk, last.sd, last.node, vs, parse);
    }
  }

  lemma {:induction false} PathsHit(sd: SidecarDir, node: NodeId, vs: seq<VersionInfo>)
    ensures forall v :: v in vs ==> SidecarPath(sd, node, v) in Paths(sd, node, vs)
  {
    hide SidecarPath;
    if vs != [] {
      PathsHit(sd, node, vs[1..]);
      assert vs == [vs[0]] + vs[1..];
    }
  }
}
