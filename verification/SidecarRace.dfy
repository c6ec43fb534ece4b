/**
 Several readers reconciling one directory at once, without a lock: each lists the stale sidecars,
 then unlinks them one by one, treating a file already gone as done.
 */
module SidecarRace {
  import opened Sidecar
  import opened SidecarCache

  /** The node and the live set every reader works from. */
  datatype Target = Target(sd: SidecarDir, node: NodeId, live: seq<VersionInfo>) {
    predicate Stale(p: Path) {
      IsStale(sd, node, live, p)
    }
  }

  datatype Reader = Unlisted | Sweeping(todo: seq<Path>, removed: set<Path>)

  datatype State = State(files: set<Path>, readers: seq<Reader>)

  /** A reader lists or unlinks; anyone may publish a file that is not stale. */
  datatype Action = List(i: nat, todo: seq<Path>) | Unlink(i: nat) | Publish(p: Path)

  ghost predicate Step(t: Target, s: State, a: Action, n: State) {
    match a
    case List(i, todo) =>
      && i < |s.readers| && s.readers[i].Unlisted? && NoRepeats(todo)
      && (forall p :: p in todo <==> p in s.files && t.Stale(p))
      && n == s.(readers := s.readers[i := Sweeping(todo, {})])
    case Unlink(i) =>
      && i < |s.readers| && s.readers[i].Sweeping? && s.readers[i].todo != []
      && var r := s.readers[i];
      && var p := r.todo[0];
      && n.files == s.files - {p}
      && n.readers == s.readers[i := Sweeping(r.todo[1..], if p in s.files then r.removed + {p} else r.removed)]
    case Publish(p) => !t.Stale(p) && n == s.(files := s.files + {p})
  }

  /** Reader `i` reports `p` removed. */
  ghost predicate Reports(s: State, i: int, p: Path) {
    0 <= i < |s.readers| && s.readers[i].Sweeping? && p in s.readers[i].removed
  }

  ghost predicate Listed(s: State, i: int) {
    0 <= i < |s.readers| && s.readers[i].Sweeping?
  }

  ghost predicate Pending(s: State, i: int, p: Path)
    requires Listed(s, i)
  {
    p in s.readers[i].todo
  }

  ghost predicate Inv(t: Target, init: set<Path>, s: State) {
    && (forall p :: p in init && !t.Stale(p) ==> p in s.files)
    && (forall p :: p in s.files && t.Stale(p) ==> p in init)
    && (forall i, p :: Reports(s, i, p) ==> t.Stale(p) && p in init && p !in s.files)
    && (forall p :: p in init && t.Stale(p) && p !in s.files ==> exists i :: Reports(s, i, p))
    && (forall i, j, p :: Reports(s, i, p) && Reports(s, j, p) ==> i == j)
    && (forall i, p :: Listed(s, i) && p in s.files && t.Stale(p) ==> Pending(s, i, p))
    && (forall i :: Listed(s, i) ==> Enlisted(t, init, s.readers[i].todo))
  }

  /** A work list holds distinct stale files of the initial directory. */
  ghost predicate Enlisted(t: Target, init: set<Path>, todo: seq<Path>) {
    NoRepeats(todo) && forall p :: p in todo ==> t.Stale(p) && p in init
  }

  lemma TailEnlisted(t: Target, init: set<Path>, todo: seq<Path>)
    requires todo != [] && Enlisted(t, init, todo)
    ensures Enlisted(t, init, todo[1..]) && t.Stale(todo[0]) && todo[0] in init && todo[0] !in todo[1..]
  {
    assert todo == [todo[0]] + todo[1..];
  }

  lemma ListKeeps(t: Target, init: set<Path>, s: State, i: nat, todo: seq<Path>, n: State)
    requires Inv(t, init, s) && Step(t, s, List(i, todo), n)
    ensures Inv(t, init, n)
  {
    forall j, p ensures Reports(n, j, p) <==> Reports(s, j, p) {}
    forall j | Listed(n, j) ensures Enlisted(t, init, n.readers[j].todo) {
      if j != i { assert Listed(s, j); }
    }
    forall j, p | Listed(n, j) && p in n.files && t.Stale(p) ensures Pending(n, j, p) {
      if j != i { assert Listed(s, j) && Pending(s, j, p); }
    }
    forall p | p in init && t.Stale(p) && p !in n.files ensures exists j :: Reports(n, j, p) {
      var j :| Reports(s, j, p);
      assert Reports(n, j, p);
    }
  }

  lemma UnlinkKeeps(t: Target, init: set<Path>, s: State, i: nat, n: State)
    requires Inv(t, init, s) && Step(t, s, Unlink(i), n)
    ensures Inv(t, init, n)
  {
    var x := s.readers[i].todo[0];
    assert Listed(s, i);
    TailEnlisted(t, init, s.readers[i].todo);
    forall j, p ensures Reports(n, j, p) <==> Reports(s, j, p) || (j == i && p == x && x in s.files) {}
    forall j | Listed(n, j) ensures Enlisted(t, init, n.readers[j].todo) {
      assert Listed(s, j);
    }
    forall j, p | Listed(n, j) && p in n.files && t.Stale(p) ensures Pending(n, j, p) {
      assert Listed(s, j) && Pending(s, j, p);
    }
    forall p | p in init && t.Stale(p) && p !in n.files ensures exists j :: Reports(n, j, p) {
      if p == x && x in s.files {
        assert Reports(n, i, p);
      } else {
        var j :| Reports(s, j, p);
        assert Reports(n, j, p);
      }
    }
  }

  lemma PublishKeeps(t: Target, init: set<Path>, s: State, q: Path, n: State)
    requires Inv(t, init, s) && Step(t, s, Publish(q), n)
    ensures Inv(t, init, n)
  {
    forall j, p ensures Reports(n, j, p) <==> Reports(s, j, p) {}
    forall j, p | Listed(n, j) && p in n.files && t.Stale(p) ensures Pending(n, j, p) {
      assert Listed(s, j) && Pending(s, j, p);
    }
    forall j | Listed(n, j) ensures Enlisted(t, init, n.readers[j].todo) { assert Listed(s, j); }
    forall p | p in init && t.Stale(p) && p !in n.files ensures exists j :: Reports(n, j, p) {
      var j :| Reports(s, j, p);
      assert Reports(n, j, p);
    }
  }

  /** A run of any actions of any readers, from a directory nobody has listed yet. */
  ghost predicate IsRun(t: Target, states: seq<State>, actions: seq<Action>) {
    && |states| == |actions| + 1
    && (forall i :: 0 <= i < |states[0].readers| ==> states[0].readers[i].Unlisted?)
    && (forall k :: 0 <= k < |actions| ==> Step(t, states[k], actions[k], states[k + 1]))
  }

  lemma {:induction false} RunKeeps(t: Target, states: seq<State>, actions: seq<Action>, k: nat)
    requires IsRun(t, states, actions) && k < |states|
    ensures Inv(t, states[0].files, states[k])
  {
    hide Inv, Step;
    if k == 0 {
      Start(t, states[0]);
    } else {
      RunKeeps(t, states, actions, k - 1);
      var s, n := states[k - 1], states[k];
      assert Step(t, s, actions[k - 1], n);
      match actions[k - 1] {
        case List(i, todo) => ListKeeps(t, states[0].files, s, i, todo, n);
        case Unlink(i) => UnlinkKeeps(t, states[0].files, s, i, n);
        case Publish(p) => PublishKeeps(t, states[0].files, s, p, n);
      }
    }
  }

  lemma Start(t: Target, s: State)
    requires forall i :: 0 <= i < |s.readers| ==> s.readers[i].Unlisted?
    ensures Inv(t, s.files, s)
  {
  }

  /** At every moment of every run: what is not stale is still there, whatever was unlinked was stale
      and is reported by exactly one reader; and once any reader is done, nothing stale is left. */
  lemma ReconcilersConverge(t: Target, states: seq<State>, actions: seq<Action>, k: nat, p: Path)
    requires IsRun(t, states, actions) && k < |states| && p in states[0].files
    ensures !t.Stale(p) ==> p in states[k].files && forall i :: !Reports(states[k], i, p)
    ensures t.Stale(p) ==> (p in states[k].files <==> forall i :: !Reports(states[k], i, p))
    ensures forall i, j :: Reports(states[k], i, p) && Reports(states[k], j, p) ==> i == j
    ensures t.Stale(p) && (exists i :: Listed(states[k], i) && states[k].readers[i].todo == []) ==>
      p !in states[k].files
  {
    hide Step;
    RunKeeps(t, states, actions, k);
  }

  /** Live sidecars, files that are not Parquet, and in a shared directory other nodes' sidecars are never stale. */
  lemma NeverStale(t: Target, p: Path, other: NodeId, v: VersionInfo)
    ensures v in t.live ==> !t.Stale(SidecarPath(t.sd, t.node, v))
    ensures !IsParquet(p.name) ==> !t.Stale(p)
    ensures t.sd.naming.NodeScoped? && other != t.node ==> !t.Stale(SidecarPath(t.sd, other, v))
  {
    hide SidecarPath;
    if v in t.live {
      var i :| 0 <= i < |t.live| && t.live[i] == v;
      assert SidecarPath(t.sd, t.node, t.live[i]) in Keep(t.sd, t.node, t.live);
    }
    OwnedExactly(t.sd, t.node, other, v);
  }

  // ----- every reader finishes -----

  ghost function StaleAt(t: Target, s: State): set<Path> {
    set p | p in s.files && t.Stale(p)
  }

  ghost function Remaining(r: Reader, stale: nat): nat {
    if r.Unlisted? then stale + 1 else |r.todo|
  }

  ghost function Work(readers: seq<Reader>, stale: nat): nat {
    if readers == [] then 0 else Remaining(readers[0], stale) + Work(readers[1..], stale)
  }

  lemma {:induction false} WorkUpdate(readers: seq<Reader>, i: nat, r: Reader, stale: nat)
    requires i < |readers|
    ensures Work(readers[i := r], stale) + Remaining(readers[i], stale) == Work(readers, stale) + Remaining(r, stale)
  {
    var after := readers[i := r];
    if i == 0 {
      assert after[1..] == readers[1..];
    } else {
      assert after[1..] == readers[1..][i - 1 := r];
      WorkUpdate(readers[1..], i - 1, r, stale);
    }
  }

  lemma {:induction false} DistinctFit(todo: seq<Path>, all: set<Path>)
    requires NoRepeats(todo) && forall p :: p in todo ==> p in all
    ensures |todo| <= |all|
  {
    if todo != [] {
      var p := todo[0];
      assert todo == [p] + todo[1..];
      DistinctFit(todo[1..], all - {p});
    }
  }

  /** Every listing or unlinking takes one off a budget fixed at the start. */
  lemma StepWorks(t: Target, init: State, s: State, a: Action, n: State)
    requires Inv(t, init.files, s) && Step(t, s, a, n)
    ensures var budget := |StaleAt(t, init)|;
      if a.Publish? then Work(n.readers, budget) == Work(s.readers, budget)
      else Work(n.readers, budget) < Work(s.readers, budget)
  {
    var budget := |StaleAt(t, init)|;
    match a {
      case List(i, todo) =>
        DistinctFit(todo, StaleAt(t, init));
        WorkUpdate(s.readers, i, Sweeping(todo, {}), budget);
      case Unlink(i) =>
        WorkUpdate(s.readers, i, n.readers[i], budget);
      case Publish(_) =>
    }
  }

  ghost function ReaderSteps(actions: seq<Action>): nat {
    if actions == [] then 0
    else ReaderSteps(actions[..|actions| - 1]) + if actions[|actions| - 1].Publish? then 0 else 1
  }

  lemma {:induction false} WorkStart(readers: seq<Reader>, stale: nat)
    requires forall i :: 0 <= i < |readers| ==> readers[i].Unlisted?
    ensures Work(readers, stale) == |readers| * (stale + 1)
  {
    if readers != [] {
      WorkStart(readers[1..], stale);
      assert |readers| * (stale + 1) == (stale + 1) + (|readers| - 1) * (stale + 1);
    }
  }

  /** No run has more reader steps than one listing and one unlink per stale file for each reader. */
  lemma {:induction false} ReadersFinish(t: Target, states: seq<State>, actions: seq<Action>)
    requires IsRun(t, states, actions)
    ensures var budget := |StaleAt(t, states[0])|;
      ReaderSteps(actions) + Work(states[|actions|].readers, budget) <= |states[0].readers| * (budget + 1)
    decreases |actions|
  {
    hide Step, Inv;
    var budget := |StaleAt(t, states[0])|;
    if actions == [] {
      WorkStart(states[0].readers, budget);
    } else {
      var k := |actions| - 1;
      assert IsRun(t, states[..k + 1], actions[..k]) by {
        forall j | 0 <= j < k ensures Step(t, states[..k + 1][j], actions[..k][j], states[..k + 1][j + 1]) {
          assert Step(t, states[j], actions[j], states[j + 1]);
        }
      }
      ReadersFinish(t, states[..k + 1], actions[..k]);
      RunKeeps(t, states, actions, k);
      assert Step(t, states[k], actions[k], states[k + 1]);
      StepWorks(t, states[0], states[k], actions[k], states[k + 1]);
    }
  }
}
