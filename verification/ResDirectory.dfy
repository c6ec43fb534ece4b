/**
 One resolution directory on disk and its crash behaviour.

 Files change one operation at a time and the process may die between any two of them:
 `budget` counts the operations left before it does, if it does.  `DiskOk` is what survives every such crash.
 */
module ResDirectory {
  import opened Wrappers
  import opened Aggregate
  import opened SegmentCache
  import opened SourceSet
  import SizeTier

  const SEALED_FORMAT: string := "segments-v4"

  /** What the output digest of a manifest covers; freshness bookkeeping is not part of it. */
  datatype Artifacts = Artifacts(format: string, sealedHi: Option<int>, segments: seq<Segment>,
                                 hotDigest: Option<Content>) {
    function Content(): Content {
      ReadAll(Digests(segments) + [if hotDigest.Some? then hotDigest.value else map[]])
    }
  }

  datatype Manifest = Manifest(
    format: string, lateness: int, sealedHi: Option<int>, nextSeq: nat, segments: seq<Segment>,
    hotDigest: Option<Content>, hotBytes: SizeTier.U64, sources: Sources, sourceDigest: Option<Artifacts>)
  {
    function Output(): Artifacts {
      Artifacts(format, sealedHi, segments, hotDigest)
    }
  }

  datatype Name = Seg(n: nat) | Hot | ManifestFile | Tmp(of: Name)

  datatype Blob = Parquet(content: Content) | Json(manifest: Manifest) | Torn

  type Files = map<Name, Blob>

  // ----- what holds of the directory after any crash -----

  ghost predicate Distinct(x: Segment, y: Segment) {
    x.seqNo != y.seqNo
  }

  /** File names are fresh: each below the next sequence number, no two alike. */
  ghost predicate Named(segs: seq<Segment>, next: nat) {
    && (forall i :: 0 <= i < |segs| ==> segs[i].seqNo < next)
    && (forall i, j :: 0 <= i < j < |segs| ==> Distinct(segs[i], segs[j]))
  }

  /** No empty segment is ever recorded. */
  ghost predicate Recorded(segs: seq<Segment>) {
    forall i :: 0 <= i < |segs| ==> segs[i].digest != map[]
  }

  predicate OnDisk(files: Files, s: Segment) {
    Seg(s.seqNo) in files
  }

  ghost predicate Present(files: Files, segs: seq<Segment>) {
    forall i :: 0 <= i < |segs| ==> OnDisk(files, segs[i])
  }

  ghost predicate Intact(files: Files, s: Segment) {
    OnDisk(files, s) ==> files[Seg(s.seqNo)] == Parquet(s.digest)
  }

  ghost predicate Backed(files: Files, segs: seq<Segment>) {
    forall i :: 0 <= i < |segs| ==> Intact(files, segs[i])
  }

  ghost predicate Layout(m: Manifest, all: Content) {
    Sealed(m.segments, m.sealedHi, all) && Named(m.segments, m.nextSeq) && Recorded(m.segments)
  }

  /** A published manifest describes the direct reduction of the sources it names. */
  ghost predicate ManifestOk(m: Manifest, g: Grid)
    requires g.Valid()
  {
    var all := Direct(m.sources.Keys, g);
    && Truthful(m.sources)
    && Layout(m, all)
    && m.hotDigest == Some(Slice(all, m.sealedHi, None))
    && (m.sourceDigest.Some? ==> RollUp(m.sourceDigest.value.Content(), g) == all)
  }

  ghost predicate DiskOk(files: Files, g: Grid)
    requires g.Valid()
  {
    && (Hot in files ==> files[Hot].Parquet?)
    && (ManifestFile in files ==>
          && files[ManifestFile].Json?
          && ManifestOk(files[ManifestFile].manifest, g)
          && Backed(files, files[ManifestFile].manifest.segments))
  }

  ghost predicate NextFresh(files: Files, n: nat) {
    ManifestFile in files && files[ManifestFile].Json? ==> files[ManifestFile].manifest.nextSeq <= n
  }

  /** The artifacts of a good manifest read back as its content. */
  lemma OutputContent(m: Manifest, g: Grid)
    requires g.Valid() && ManifestOk(m, g)
    ensures m.Output().Content() == Direct(m.sources.Keys, g)
  {
    hide Direct, Sealed, ReadAll;
    ServedExactly(m.segments, m.sealedHi, m.hotDigest.value, Direct(m.sources.Keys, g));
  }

  // ----- frames -----

  /** Equal on every final name outside `x`; temporary files are nobody's. */
  ghost predicate SameBut(a: Files, b: Files, x: Name) {
    forall n: Name :: !n.Tmp? && n != x ==> (n in a <==> n in b) && (n in a && n in b ==> a[n] == b[n])
  }

  lemma SegsFrame(a: Files, b: Files, x: Name, segs: seq<Segment>)
    requires SameBut(a, b, x) && Backed(a, segs)
    requires forall i :: 0 <= i < |segs| ==> x != Seg(segs[i].seqNo)
    ensures Backed(b, segs) && (Present(a, segs) <==> Present(b, segs))
  {
    forall i | 0 <= i < |segs| ensures Intact(b, segs[i]) && (OnDisk(a, segs[i]) <==> OnDisk(b, segs[i])) {
      assert Intact(a, segs[i]);
    }
  }

  /** Changing a file the published manifest does not name, or deleting any but the manifest, is harmless. */
  lemma DiskFrame(a: Files, b: Files, x: Name, g: Grid)
    requires g.Valid() && DiskOk(a, g) && SameBut(a, b, x) && x != ManifestFile
    requires x.Seg? && x in b ==> NextFresh(a, x.n)
    requires x == Hot && x in b ==> b[x].Parquet?
    ensures DiskOk(b, g)
    ensures ManifestFile in b <==> ManifestFile in a
    ensures ManifestFile in b ==> b[ManifestFile] == a[ManifestFile]
  {
    hide ManifestOk;
    if ManifestFile in a {
      var m := a[ManifestFile].manifest;
      forall i | 0 <= i < |m.segments| ensures Intact(b, m.segments[i]) {
        assert Intact(a, m.segments[i]);
        if x == Seg(m.segments[i].seqNo) && x in b { ManifestNames(m, g, i); }
      }
    }
  }

  lemma ManifestNames(m: Manifest, g: Grid, i: nat)
    requires g.Valid() && ManifestOk(m, g) && i < |m.segments|
    ensures m.segments[i].seqNo < m.nextSeq
  {
    hide Direct;
  }

  lemma DiskFewer(a: Files, b: Files, g: Grid)
    requires g.Valid() && DiskOk(a, g)
    requires forall n :: n in b ==> n in a && b[n] == a[n]
    ensures DiskOk(b, g)
  {
    hide ManifestOk;
    if ManifestFile in b {
      var segs := a[ManifestFile].manifest.segments;
      forall i | 0 <= i < |segs| ensures Intact(b, segs[i]) {
        assert Intact(a, segs[i]);
      }
    }
  }

  lemma DiskPublish(a: Files, b: Files, m: Manifest, g: Grid)
    requires g.Valid() && DiskOk(a, g) && SameBut(a, b, ManifestFile) && ManifestOk(m, g) && Backed(a, m.segments)
    requires ManifestFile in b && b[ManifestFile] == Json(m)
    ensures DiskOk(b, g)
  {
    hide ManifestOk;
    SegsFrame(a, b, ManifestFile, m.segments);
  }

  // ----- the directory -----

  /** What a reader of the directory gets. */
  datatype Served = Rebuild | Corrupt | Rows(content: Content)

  class ResDir {
    var files: Files
    var budget: Option<nat>
    var order: seq<Name>  // entries the file system lists first

    constructor ()
      ensures files == map[] && budget == None
    {
      files, budget, order := map[], None, [];
    }

    /** One more operation, unless the process dies here. */
    method Tick() returns (alive: bool)
      modifies this`budget
      ensures alive <==> old(budget) != Some(0)
      ensures budget == if old(budget).Some? && old(budget).value > 0 then Some(old(budget).value - 1) else old(budget)
    {
      if budget == Some(0) { return false; }
      if budget.Some? { budget := Some(budget.value - 1); }
      return true;
    }

    /** Write to a temporary name, then rename.  A crash leaves at most a temporary file. */
    method WriteAtomic(name: Name, blob: Blob) returns (alive: bool)
      requires !name.Tmp?
      modifies this
      ensures alive ==> SameBut(old(files), files, name) && name in files && files[name] == blob
      ensures !alive ==> SameBut(old(files), files, Tmp(name))
      ensures old(budget).None? ==> alive && budget.None?
    {
      alive := Tick();
      if !alive { return false; }
      files := files[Tmp(name) := Torn];
      alive := Tick();
      if !alive { return false; }
      files := files[Tmp(name) := blob];
      alive := Tick();
      if !alive { return false; }
      files := (files - {Tmp(name)})[name := blob];
      return true;
    }

    /** Deleting a file that is already gone is not an error. */
    method Remove(name: Name) returns (alive: bool)
      modifies this
      ensures files == if alive then old(files) - {name} else old(files)
      ensures old(budget).None? ==> alive && budget.None?
    {
      alive := Tick();
      if !alive { return false; }
      files := files - {name};
      return true;
    }

    /** `remove_dir_all`: entries go one by one as the file system lists them, so a crash leaves any part. */
    method Wipe() returns (alive: bool)
      modifies this
      ensures alive ==> files == map[]
      ensures forall n :: n in files ==> n in old(files) && files[n] == old(files)[n]
      ensures old(budget).None? ==> alive && budget.None?
      ensures order == old(order)
      ensures |old(files)| > 1 && old(budget) == Some(1) && order != [] && order[0] in old(files) ==>
        !alive && files == old(files) - {order[0]}
    {
      var first := true;
      while files != map[]
        invariant forall n :: n in files ==> n in old(files) && files[n] == old(files)[n]
        invariant old(budget).None? ==> budget.None?
        invariant order == old(order)
        invariant first ==> files == old(files) && budget == old(budget)
        invariant !first && old(budget) == Some(1) ==> budget == Some(0)
        invariant !first && old(budget) == Some(1) && |old(files)| > 1 && order != [] && order[0] in old(files) ==>
          files == old(files) - {order[0]}
        decreases |files|
      {
        var n :| n in files && (first && order != [] && order[0] in files ==> n == order[0]);
        alive := Tick();
        if !alive { return false; }
        files := files - {n};
        first := false;
      }
      alive := true;
    }

    /** The manifest, unless absent or contradicted by the hot file it recorded. */
    function ReadVerified(): Result<Option<Manifest>>
      reads this
    {
      if ManifestFile !in files then Ok(None)
      else match files[ManifestFile]
        case Json(m) =>
          if m.hotDigest.Some? && Hot in files && files[Hot] != Parquet(m.hotDigest.value) then Ok(None)
          else Ok(Some(m))
        case _ => Err
    }

    /** The contents of exactly these segments; a missing one is an error, never a hole. */
    method ReadSegments(segs: seq<Segment>) returns (r: Result<seq<Content>>)
      requires Backed(files, segs)
      ensures r.Ok? <==> Present(files, segs)
      ensures r.Ok? ==> r.value == Digests(segs)
    {
      var list: seq<Content> := [];
      for i := 0 to |segs|
        invariant |list| == i
        invariant forall j :: 0 <= j < i ==> list[j] == segs[j].digest && OnDisk(files, segs[j])
      {
        assert Intact(files, segs[i]);
        if Seg(segs[i].seqNo) !in files {
          assert !OnDisk(files, segs[i]);
          return Err;
        }
        list := list + [files[Seg(segs[i].seqNo)].content];
      }
      assert list == Digests(segs);
      return Ok(list);
    }

    /** The explicit file list of a manifest: its segments in order, then hot. */
    method ListMembers(m: Manifest) returns (r: Result<seq<Content>>)
      requires Backed(files, m.segments)
      requires Hot in files ==> files[Hot].Parquet?
      ensures r.Ok? <==> Present(files, m.segments) && Hot in files
      ensures r.Ok? ==> r.value == Digests(m.segments) + [files[Hot].content]
    {
      var list := ReadSegments(m.segments);
      if list.Err? || Hot !in files { return Err; }
      return Ok(list.value + [files[Hot].content]);
    }

    /** Verification, then listing.  Whatever crashes came before, a read that yields rows yields
        the direct reduction of the manifest's sources, every key from exactly one file. */
    method Serve(g: Grid) returns (r: Served, ghost members: seq<Content>)
      requires g.Valid() && DiskOk(files, g)
      ensures r.Rows? ==>
        && ManifestFile in files
        && r.content == Direct(files[ManifestFile].manifest.sources.Keys, g)
        && ExactlyOnce(members, r.content) && r.content == ReadAll(members)
      ensures r.Rebuild? <==> (
        || ManifestFile !in files
        || (Hot in files && files[Hot] != Parquet(files[ManifestFile].manifest.hotDigest.value)))
      ensures r.Corrupt? <==> (
        && ManifestFile in files && !r.Rebuild?
        && !(Present(files, files[ManifestFile].manifest.segments) && Hot in files))
    {
      hide Direct, Sealed, ExactlyOnce;
      members := [];
      match ReadVerified()
      case Err => return Corrupt, [];
      case Ok(None) => return Rebuild, [];
      case Ok(Some(m)) =>
        var list := ListMembers(m);
        if list.Err? { return Corrupt, []; }
        members := list.value;
        ServedExactly(m.segments, m.sealedHi, m.hotDigest.value, Direct(m.sources.Keys, g));
        return Rows(ReadAll(list.value)), members;
    }
  }
}
