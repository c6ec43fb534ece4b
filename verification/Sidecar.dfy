/**
 Per-version Parquet sidecars: a directory that must be a projection of the live versions, and the
 explicit file sets read from it.
 */
module Sidecar {
  import opened Wrappers

  datatype Record = Record(t: int, payload: string)

  /** The text of a UUID; what matters here is that it holds no underscore. */
  type NodeId = s: string | '_' !in s witness ""

  datatype VersionInfo = VersionInfo(version: nat, blake3: Option<string>, maxEventTime: Option<int>)

  datatype Naming = NodeOwned | NodeScoped

  datatype SidecarDir = SidecarDir(dir: string, naming: Naming)

  datatype Path = Path(dir: string, name: string)

  /** The rows of every file on disk that holds rows; the content of other files is immaterial. */
  type Disk = map<Path, seq<Record>>

  // ----- names -----

  function Digits(n: nat): string {
    if n < 10 then [DigitChar(n)] else Digits(n / 10) + [DigitChar(n % 10)]
  }

  function DigitChar(d: nat): (c: char)
    requires d < 10
    ensures c != '_'
  {
    "0123456789"[d]
  }

  /** The node's short identity: the last eight hexadecimal digits of its text. */
  function ShortId(node: NodeId): string {
    var hex := HexOnly(node);
    if |hex| >= 8 then hex[|hex| - 8..] else hex
  }

  function HexOnly(s: string): string {
    if s == "" then ""
    else (if '0' <= s[0] <= '9' || 'a' <= s[0] <= 'f' || 'A' <= s[0] <= 'F' then [s[0]] else "") + HexOnly(s[1..])
  }

  function VersionKey(node: NodeId, v: VersionInfo): string {
    if v.blake3.Some? then v.blake3.value else ShortId(node)
  }

  function SidecarName(naming: Naming, node: NodeId, v: VersionInfo): string {
    var tail := "v" + Digits(v.version) + "_" + VersionKey(node, v) + ".parquet";
    if naming.NodeOwned? then tail else node + "_" + tail
  }

  function SidecarPath(sd: SidecarDir, node: NodeId, v: VersionInfo): Path {
    Path(sd.dir, SidecarName(sd.naming, node, v))
  }

  predicate IsParquet(name: string) {
    |name| > 8 && name[|name| - 8..] == ".parquet"
  }

  predicate Owned(sd: SidecarDir, node: NodeId, p: Path) {
    p.dir == sd.dir && IsParquet(p.name) && (sd.naming.NodeScoped? ==> node + "_v" <= p.name)
  }

  lemma {:induction false} DigitsPlain(n: nat)
    ensures '_' !in Digits(n) && Digits(n) != ""
  {
    if n >= 10 { DigitsPlain(n / 10); }
  }

  lemma DigitCharInjective(a: nat, b: nat)
    requires a < 10 && b < 10 && DigitChar(a) == DigitChar(b)
    ensures a == b
  {
  }

  lemma {:induction false} DigitsInjective(a: nat, b: nat)
    requires Digits(a) == Digits(b)
    ensures a == b
    decreases a + b
  {
    hide DigitChar;
    DigitsPlain(a / 10);
    DigitsPlain(b / 10);
    var da, db := Digits(a), Digits(b);
    assert da[|da| - 1] == db[|db| - 1];
    DigitCharInjective(if a < 10 then a else a % 10, if b < 10 then b else b % 10);
    assert da[..|da| - 1] == db[..|db| - 1];
    if a >= 10 && b >= 10 {
      assert da[..|da| - 1] == Digits(a / 10) && db[..|db| - 1] == Digits(b / 10);
      DigitsInjective(a / 10, b / 10);
    } else {
      assert |da| == |db|;
      assert a < 10 && b < 10;
    }
  }

  /** Text before the first underscore is determined. */
  lemma {:induction false} FirstUnderscore(a: string, b: string, x: string, y: string)
    requires '_' !in a && '_' !in b && a + "_" + x == b + "_" + y
    ensures a == b && x == y
  {
    var s, t := a + "_" + x, b + "_" + y;
    assert a != "" ==> a[0] in a;
    assert b != "" ==> b[0] in b;
    assert s[0] == (if a == "" then '_' else a[0]) && t[0] == (if b == "" then '_' else b[0]);
    if a != "" && b != "" {
      assert s[1..] == a[1..] + "_" + x && t[1..] == b[1..] + "_" + y;
      FirstUnderscore(a[1..], b[1..], x, y);
    } else {
      assert s[1..] == x && t[1..] == y;
    }
  }

  lemma TailInjective(v: VersionInfo, k: string, w: VersionInfo, j: string)
    requires "v" + Digits(v.version) + "_" + k + ".parquet" == "v" + Digits(w.version) + "_" + j + ".parquet"
    ensures v.version == w.version && k == j
  {
    hide Digits;
    DigitsPlain(v.version);
    DigitsPlain(w.version);
    var a, b := "v" + Digits(v.version), "v" + Digits(w.version);
    var x, y := k + ".parquet", j + ".parquet";
    assert "v" + Digits(v.version) + "_" + k + ".parquet" == a + "_" + x;
    assert "v" + Digits(w.version) + "_" + j + ".parquet" == b + "_" + y;
    FirstUnderscore(a, b, x, y);
    assert a[1..] == Digits(v.version) && b[1..] == Digits(w.version);
    DigitsInjective(v.version, w.version);
    assert x[..|x| - 8] == k && y[..|y| - 8] == j;
  }

  /** A file name tells which version of which content it caches, and in a shared directory whose. */
  lemma NameInjective(naming: Naming, a: NodeId, v: VersionInfo, b: NodeId, w: VersionInfo)
    requires SidecarName(naming, a, v) == SidecarName(naming, b, w)
    ensures v.version == w.version && VersionKey(a, v) == VersionKey(b, w)
    ensures v.blake3.Some? && w.blake3.Some? ==> v.blake3 == w.blake3
    ensures naming.NodeScoped? ==> a == b
  {
    hide Digits;
    var s := "v" + Digits(v.version) + "_" + VersionKey(a, v) + ".parquet";
    var t := "v" + Digits(w.version) + "_" + VersionKey(b, w) + ".parquet";
    if naming.NodeScoped? { FirstUnderscore(a, b, s, t); }
    TailInjective(v, VersionKey(a, v), w, VersionKey(b, w));
  }

  /** A node owns its own sidecars, and in a shared directory no other node's. */
  lemma OwnedExactly(sd: SidecarDir, node: NodeId, other: NodeId, v: VersionInfo)
    ensures Owned(sd, node, SidecarPath(sd, node, v))
    ensures sd.naming.NodeScoped? ==> (Owned(sd, node, SidecarPath(sd, other, v)) <==> node == other)
  {
    hide Digits, VersionKey;
    NameShape(sd.naming, node, v);
    if sd.naming.NodeScoped? {
      var name := SidecarName(sd.naming, other, v);
      if node + "_v" <= name {
        var rest := name[|node| + 1..];
        assert name == node + "_" + rest;
        FirstUnderscore(node, other, rest, "v" + Digits(v.version) + "_" + VersionKey(other, v) + ".parquet");
      }
    }
  }

  lemma NameShape(naming: Naming, node: NodeId, v: VersionInfo)
    ensures IsParquet(SidecarName(naming, node, v))
    ensures naming.NodeScoped? ==> node + "_v" <= SidecarName(naming, node, v)
  {
    hide Digits, VersionKey;
    var name := SidecarName(naming, node, v);
    var head := (if naming.NodeOwned? then "" else node + "_") + ("v" + Digits(v.version) + "_" + VersionKey(node, v));
    assert name == head + ".parquet";
  }

  lemma TmpIsNotParquet(name: string)
    ensures !IsParquet(name + ".tmp")
  {
    var t := name + ".tmp";
    assert t[|t| - 1] == 'p';
    assert |t| > 8 ==> t[|t| - 8..][7] == 'p';
  }
}
