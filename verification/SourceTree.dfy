/** A finite file system, the names the scanner skips and the files it counts as source. */
module SourceTree {
  import opened Options

  datatype Node =
    | File(name: string)
    | Other(name: string)
    | Dir(name: string, entries: seq<Node>)

  type Path = seq<string>

  const SKIP_DIRS: set<string> := {".git", "node_modules", "dist", "coverage", "temp", ".adv"}

  const SOURCE_EXTENSIONS: set<string> := {".ts", ".tsx", ".js", ".jsx", ".mjs", ".cjs", ".py", ".go"}

  const CONFIG_PREFIX := "eslint.config."

  /** Names are unique inside every directory. */
  ghost predicate WellFormed(n: Node)
    decreases n
  {
    n.Dir? ==>
      && (forall i, j :: 0 <= i < j < |n.entries| ==> n.entries[i].name != n.entries[j].name)
      && (forall e | e in n.entries :: WellFormed(e))
  }

  function Find(entries: seq<Node>, name: string): Option<Node> {
    if entries == [] then None
    else if entries[0].name == name then Some(entries[0])
    else Find(entries[1..], name)
  }

  /** The node a path leads to; nothing when a component is missing. */
  function Stat(n: Node, p: Path): Option<Node>
    decreases |p|
  {
    if p == [] then Some(n)
    else if !n.Dir? then None
    else match Find(n.entries, p[0])
         case None => None
         case Some(child) => Stat(child, p[1..])
  }

  predicate IsFileAt(fs: Node, p: Path) {
    var info := Stat(fs, p);
    info.Some? && info.value.File?
  }

  predicate HasConfig(n: Node) {
    n.Dir? && exists e | e in n.entries :: e.File? && CONFIG_PREFIX <= e.name
  }

  predicate ConfigAt(fs: Node, p: Path) {
    var info := Stat(fs, p);
    info.Some? && HasConfig(info.value)
  }

  function LastDot(s: string): int
    ensures -1 <= LastDot(s) < |s|
  {
    if s == [] then -1 else if s[|s| - 1] == '.' then |s| - 1 else LastDot(s[..|s| - 1])
  }

  predicate IsSourceName(name: string) {
    var dot := LastDot(name);
    dot >= 0 && name[dot..] in SOURCE_EXTENSIONS
  }

  /** The walk descends into this entry: not skipped by name, and a file or a directory. */
  predicate Visitable(e: Node) {
    e.name !in SKIP_DIRS && !e.Other?
  }

  /** As `Stat`, but never crossing a skipped name. */
  function Walk(n: Node, rel: Path): Option<Node>
    decreases |rel|
  {
    if rel == [] then Some(n)
    else if !n.Dir? then None
    else match Find(n.entries, rel[0])
         case None => None
         case Some(child) => if Visitable(child) then Walk(child, rel[1..]) else None
  }

  function Size(n: Node): nat
    decreases n, 0
  {
    if n.Dir? then 1 + SizeAll(n.entries) else 1
  }

  function SizeAll(entries: seq<Node>): nat
    decreases entries
  {
    if entries == [] then 0 else Size(entries[0]) + SizeAll(entries[1..])
  }

  lemma {:induction false} SizeOfEntry(entries: seq<Node>, i: nat)
    requires i < |entries|
    ensures Size(entries[i]) <= SizeAll(entries)
  {
    if i > 0 { SizeOfEntry(entries[1..], i - 1); }
  }

  lemma {:induction false} FindEntry(entries: seq<Node>, i: nat)
    requires i < |entries|
    requires forall i, j :: 0 <= i < j < |entries| ==> entries[i].name != entries[j].name
    ensures Find(entries, entries[i].name) == Some(entries[i])
  {
    if i > 0 { FindEntry(entries[1..], i - 1); }
  }

  lemma {:induction false} FindIsEntry(entries: seq<Node>, name: string)
    ensures var f := Find(entries, name); f.Some? ==> f.value in entries && f.value.name == name
    ensures Find(entries, name).None? ==> forall e | e in entries :: e.name != name
  {
    if entries != [] { FindIsEntry(entries[1..], name); }
  }

  lemma {:induction false} StatChild(fs: Node, p: Path, i: nat)
    requires WellFormed(fs)
    requires var d := Stat(fs, p); d.Some? && d.value.Dir? && i < |d.value.entries|
    ensures var e := Stat(fs, p).value.entries[i];
            Stat(fs, p + [e.name]) == Some(e) && WellFormed(e)
  {
    var e := Stat(fs, p).value.entries[i];
    if p == [] {
      FindEntry(fs.entries, i);
      assert (p + [e.name])[1..] == [];
    } else {
      FindIsEntry(fs.entries, p[0]);
      var child := Find(fs.entries, p[0]).value;
      StatChild(child, p[1..], i);
      assert (p + [e.name])[1..] == p[1..] + [e.name];
    }
  }

  lemma {:induction false} WalkStep(n: Node, rel: Path, i: nat)
    requires i < |rel| && Walk(n, rel).Some?
    ensures Walk(n, rel[..i]).Some? && Walk(n, rel[..i]).value.Dir?
    ensures Walk(Walk(n, rel[..i]).value, rel[i..]) == Walk(n, rel)
    decreases i
  {
    if i > 0 {
      var child := Find(n.entries, rel[0]).value;
      WalkStep(child, rel[1..], i - 1);
      assert rel[..i][1..] == rel[1..][..i - 1];
      assert rel[1..][i - 1..] == rel[i..];
    } else {
      assert rel[0..] == rel;
    }
  }

  function Render(p: Path): string {
    if p == [] then "" else Render(p[..|p| - 1]) + "/" + p[|p| - 1]
  }

  lemma {:induction false} LastDotOfConcat(a: string, b: string)
    ensures LastDot(a + b) == if LastDot(b) >= 0 then |a| + LastDot(b) else LastDot(a)
    decreases |b|
  {
    if b == [] {
      assert a + b == a;
    } else {
      assert (a + b)[..|a + b| - 1] == a + b[..|b| - 1];
      if b[|b| - 1] != '.' { LastDotOfConcat(a, b[..|b| - 1]); }
    }
  }

  /** Taking the extension of the whole path, as the walk does, is taking it of the last name. */
  lemma {:induction false} SourceByWholePath(p: Path, name: string)
    ensures IsSourceName(Render(p + [name])) <==> IsSourceName(name)
  {
    var head := Render(p) + "/";
    assert (p + [name])[..|p|] == p;
    assert Render(p + [name]) == head + name;
    LastDotOfConcat(head, name);
    if LastDot(name) >= 0 {
      assert (head + name)[|head| + LastDot(name)..] == name[LastDot(name)..];
    } else {
      var dot := LastDot(head);
      if dot >= 0 {
        LastDotOfConcat(Render(p), "/");
        var ext := (head + name)[dot..];
        assert ext[|head| - 1 - dot] == '/';
        assert forall e | e in SOURCE_EXTENSIONS :: '/' !in e;
        assert '/' in ext;
      }
    }
  }
}
