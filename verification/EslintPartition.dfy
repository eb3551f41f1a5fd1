/**
 * Splitting an ESLint target into regions whose config lookup succeeds and
 * shallowest directories where it does not.
 */
module EslintPartition {
  import opened Options
  import opened SourceTree
  import Sorting
  import Sequences

  datatype Region = Region(configRoot: Path, target: Path)

  /** What one `visit` call adds: covered at or below, new pending entries, regions met. */
  datatype Visited = Visited(covered: bool, pending: seq<Path>, regions: seq<Region>)

  // ---------------------------------------------------------------- config lookup

  function Nearest(fs: Node, root: Path, current: Path): Option<Path>
    decreases |current|
  {
    if ConfigAt(fs, current) then Some(current)
    else if current == root || current == [] then None
    else Nearest(fs, root, current[..|current| - 1])
  }

  function LookupStart(fs: Node, target: Path): Path {
    if IsFileAt(fs, target) && target != [] then target[..|target| - 1] else target
  }

  /** The relative path leaves the root, or merely begins with two dots. */
  predicate RejectedRelative(root: Path, target: Path) {
    !(root <= target) || (|root| < |target| && ".." <= target[|root|])
  }

  function Reach(fs: Node, root: Path, target: Path): Option<Path> {
    if RejectedRelative(root, target) then None else Nearest(fs, root, LookupStart(fs, target))
  }

  /** Of the directories from `current` up to the root, `c` is the closest with a config. */
  ghost predicate ClosestConfig(fs: Node, root: Path, current: Path, c: Path) {
    && c <= current && (root <= current ==> root <= c)
    && ConfigAt(fs, c) && forall k | |c| < k <= |current| :: !ConfigAt(fs, current[..k])
  }

  /**
   * The answer the lookup owes its callers, said of the tree alone: the target lies under the root by a name that
   * does not begin with two dots, and `c` is the closest config from the target, or from the directory of a file.
   */
  ghost predicate IsNearestConfig(fs: Node, root: Path, target: Path, c: Path) {
    var start := if Stat(fs, target).Some? && Stat(fs, target).value.File? && target != [] then target[..|target| - 1]
                 else target;
    && root <= target && (|root| < |target| ==> !(".." <= target[|root|]))
    && ClosestConfig(fs, root, start, c)
  }

  lemma {:induction false} PrefixOfParent(current: Path, p: Path)
    requires current != []
    ensures p <= current[..|current| - 1] <==> p <= current && p != current
  {
    var up := current[..|current| - 1];
    if p <= up { assert p == up[..|p|] == current[..|p|]; }
    if p <= current && p != current { assert p == current[..|p|] == up[..|p|]; }
  }

  lemma {:induction false} ClosestOfParent(fs: Node, root: Path, current: Path, c: Path)
    requires !ConfigAt(fs, current) && current != root && current != []
    ensures ClosestConfig(fs, root, current, c) <==> ClosestConfig(fs, root, current[..|current| - 1], c)
  {
    var up := current[..|current| - 1];
    PrefixOfParent(current, c);
    PrefixOfParent(current, root);
    assert current[..|current|] == current;
    assert forall k | 0 <= k <= |up| :: up[..k] == current[..k];
  }

  lemma {:induction false} NearestMeans(fs: Node, root: Path, current: Path, c: Path)
    ensures Nearest(fs, root, current) == Some(c) <==> ClosestConfig(fs, root, current, c)
    decreases |current|
  {
    assert current[..|current|] == current;
    if ConfigAt(fs, current) {
      if ClosestConfig(fs, root, current, c) { assert |c| == |current| && c == current[..|c|] == current; }
    } else if current == root || current == [] {
      assert c <= current && |c| == |current| ==> c == current;
    } else {
      ClosestOfParent(fs, root, current, c);
      NearestMeans(fs, root, current[..|current| - 1], c);
    }
  }

  /** The lookup finds exactly the nearest config, and nothing exactly when there is none. */
  lemma {:induction false} ReachMeans(fs: Node, root: Path, target: Path, c: Path)
    ensures Reach(fs, root, target) == Some(c) <==> IsNearestConfig(fs, root, target, c)
  {
    NearestMeans(fs, root, LookupStart(fs, target), c);
  }

  method ReachableEslintConfigRoot(fs: Node, root: Path, target: Path) returns (r: Option<Path>)
    ensures r == Reach(fs, root, target)
    ensures forall c :: r == Some(c) <==> IsNearestConfig(fs, root, target, c)
  {
    forall c ensures Reach(fs, root, target) == Some(c) <==> IsNearestConfig(fs, root, target, c) {
      ReachMeans(fs, root, target, c);
    }
    if RejectedRelative(root, target) {
      return None;
    }
    var current := LookupStart(fs, target);
    while true
      invariant Nearest(fs, root, current) == Reach(fs, root, target)
      decreases |current|
    {
      if ConfigAt(fs, current) {
        return Some(current);
      }
      if current == root { break; }
      if current == [] { break; }
      current := current[..|current| - 1];
    }
    return None;
  }

  // ---------------------------------------------------------------- the walk as a function

  function VisitNode(fs: Node, root: Path, current: Path, n: Node): Visited
    decreases n, 0
  {
    match Reach(fs, root, current)
    case Some(configRoot) => Visited(true, [], [Region(configRoot, current)])
    case None =>
      match n
      case File(name) => Visited(false, if IsSourceName(name) then [current] else [], [])
      case Other(_) => Visited(false, [], [])
      case Dir(_, entries) =>
        var inner := VisitEntries(fs, root, current, entries);
        if inner.covered then inner
        else Visited(false, if inner.pending != [] then [current] else [], inner.regions)
  }

  function VisitEntries(fs: Node, root: Path, current: Path, entries: seq<Node>): Visited
    decreases entries
  {
    if entries == [] then Visited(false, [], [])
    else
      var rest := VisitEntries(fs, root, current, entries[1..]);
      if !Visitable(entries[0]) then rest
      else
        var first := VisitNode(fs, root, current + [entries[0].name], entries[0]);
        Visited(first.covered || rest.covered, first.pending + rest.pending, first.regions + rest.regions)
  }

  /** The node at a path; a missing one behaves like an entry that is neither file nor directory. */
  function NodeAt(fs: Node, p: Path): Node {
    match Stat(fs, p)
    case Some(n) => n
    case None => Other("")
  }

  function VisitPath(fs: Node, root: Path, current: Path): Visited {
    VisitNode(fs, root, current, NodeAt(fs, current))
  }

  predicate HasKey(grouped: seq<Region>, configRoot: Path) {
    exists r | r in grouped :: r.configRoot == configRoot
  }

  /** Insertion into the `grouped` map: the first region of a config root stays. */
  function AddRegions(grouped: seq<Region>, regions: seq<Region>): seq<Region>
    decreases |regions|
  {
    if regions == [] then grouped
    else AddRegions(if HasKey(grouped, regions[0].configRoot) then grouped else grouped + [regions[0]], regions[1..])
  }

  lemma {:induction false} AddRegionsAppend(grouped: seq<Region>, a: seq<Region>, b: seq<Region>)
    ensures AddRegions(grouped, a + b) == AddRegions(AddRegions(grouped, a), b)
    decreases |a|
  {
    if a == [] {
      assert a + b == b;
    } else {
      assert (a + b)[1..] == a[1..] + b;
      AddRegionsAppend(if HasKey(grouped, a[0].configRoot) then grouped else grouped + [a[0]], a[1..], b);
    }
  }

  lemma {:induction false} VisitEntriesAppend(fs: Node, root: Path, current: Path, entries: seq<Node>, e: Node)
    ensures VisitEntries(fs, root, current, entries + [e]) ==
            var rest := VisitEntries(fs, root, current, entries);
            if !Visitable(e) then rest
            else
              var last := VisitNode(fs, root, current + [e.name], e);
              Visited(rest.covered || last.covered, rest.pending + last.pending, rest.regions + last.regions)
    decreases |entries|
  {
    if entries == [] {
      assert entries + [e] == [e];
    } else {
      assert (entries + [e])[1..] == entries[1..] + [e];
      VisitEntriesAppend(fs, root, current, entries[1..], e);
      if Visitable(entries[0]) && Visitable(e) {
        var first := VisitNode(fs, root, current + [entries[0].name], entries[0]);
        var rest := VisitEntries(fs, root, current, entries[1..]);
        var last := VisitNode(fs, root, current + [e.name], e);
        Sequences.Assoc(first.pending, rest.pending, last.pending);
        Sequences.Assoc(first.regions, rest.regions, last.regions);
      }
    }
  }

  // ---------------------------------------------------------------- the walk as the program runs it

  class Walker {
    const fs: Node
    const root: Path
    var pending: seq<Path>
    var grouped: seq<Region>

    constructor (fs: Node, root: Path)
      ensures this.fs == fs && this.root == root
      ensures pending == [] && grouped == []
    {
      this.fs, this.root := fs, root;
      pending, grouped := [], [];
    }

    /** Every call keeps the caller's pending entries and adds only its own. */
    method Visit(current: Path) returns (covered: bool)
      requires WellFormed(fs)
      modifies this
      ensures var v := VisitPath(fs, root, current);
              && covered == v.covered
              && pending == old(pending) + v.pending
              && grouped == AddRegions(old(grouped), v.regions)
      decreases if Stat(fs, current).Some? then Size(Stat(fs, current).value) else 0
    {
      var configRoot := ReachableEslintConfigRoot(fs, root, current);
      if configRoot.Some? {
        if !HasKey(grouped, configRoot.value) {
          grouped := grouped + [Region(configRoot.value, current)];
        }
        return true;
      }
      var info := Stat(fs, current);
      if info.Some? && info.value.File? {
        if IsSourceName(info.value.name) {
          pending := pending + [current];
        }
        return false;
      }
      if info.None? || !info.value.Dir? {
        return false;
      }
      var entries := info.value.entries;
      var childPending: seq<Path> := [];
      var anyCovered := false;
      for i := 0 to |entries|
        invariant pending == old(pending)
        invariant var v := VisitEntries(fs, root, current, entries[..i]);
                  && anyCovered == v.covered
                  && childPending == v.pending
                  && grouped == AddRegions(old(grouped), v.regions)
      {
        var entry := entries[i];
        ghost var done := VisitEntries(fs, root, current, entries[..i]);
        VisitEntriesAppend(fs, root, current, entries[..i], entry);
        assert entries[..i + 1] == entries[..i] + [entry];
        if Visitable(entry) {
          var before := |pending|;
          StatChild(fs, current, i);
          SizeOfEntry(entries, i);
          var c := Visit(current + [entry.name]);
          AddRegionsAppend(old(grouped), done.regions, VisitPath(fs, root, current + [entry.name]).regions);
          if c { anyCovered := true; }
          childPending := childPending + pending[before..];
          pending := pending[..before];
        }
      }
      assert entries[..|entries|] == entries;
      if anyCovered {
        pending := pending + childPending;
        return true;
      }
      if |childPending| > 0 {
        pending := pending + [current];
      }
      return false;
    }
  }

  // ---------------------------------------------------------------- what the walk means

  predicate HasSource(n: Node)
    decreases n
  {
    || (n.File? && IsSourceName(n.name))
    || (n.Dir? && exists e | e in n.entries :: Visitable(e) && HasSource(e))
  }

  predicate HasCovered(fs: Node, root: Path, current: Path, n: Node)
    decreases n
  {
    || Reach(fs, root, current).Some?
    || (n.Dir? && exists e | e in n.entries :: Visitable(e) && HasCovered(fs, root, current + [e.name], e))
  }

  /** No config is reachable from the target down to, but not including, the k-th step. */
  ghost predicate OpenBefore(fs: Node, root: Path, target: Path, rel: Path, k: nat)
    requires k <= |rel| + 1
  {
    forall j :: 0 <= j < k ==> Reach(fs, root, target + rel[..j]).None?
  }

  /** A shallowest region without config: it holds source, no covered region, but its parent does. */
  ghost predicate IsUncoveredEntry(fs: Node, root: Path, target: Path, n: Node, rel: Path) {
    && Walk(n, rel).Some?
    && OpenBefore(fs, root, target, rel, |rel| + 1)
    && HasSource(Walk(n, rel).value)
    && !HasCovered(fs, root, target + rel, Walk(n, rel).value)
    && (rel != [] ==>
          var up := rel[..|rel| - 1];
          Walk(n, up).Some? && HasCovered(fs, root, target + up, Walk(n, up).value))
  }

  /** A shallowest region with a reachable config. */
  ghost predicate IsCoveredRegion(fs: Node, root: Path, target: Path, n: Node, rel: Path, configRoot: Path) {
    && Walk(n, rel).Some?
    && OpenBefore(fs, root, target, rel, |rel|)
    && Reach(fs, root, target + rel) == Some(configRoot)
  }

  lemma {:induction false} EntriesMeaning(fs: Node, root: Path, current: Path, entries: seq<Node>)
    ensures var v := VisitEntries(fs, root, current, entries);
            && (v.covered <==>
                exists e | e in entries :: Visitable(e) && VisitNode(fs, root, current + [e.name], e).covered)
            && (forall u :: u in v.pending <==>
                  exists e | e in entries :: Visitable(e) && u in VisitNode(fs, root, current + [e.name], e).pending)
            && (forall r :: r in v.regions <==>
                  exists e | e in entries :: Visitable(e) && r in VisitNode(fs, root, current + [e.name], e).regions)
    decreases |entries|
  {
    if entries != [] {
      EntriesMeaning(fs, root, current, entries[1..]);
      assert entries == [entries[0]] + entries[1..];
    }
  }

  lemma {:induction false} VisitExtends(fs: Node, root: Path, current: Path, n: Node)
    ensures var v := VisitNode(fs, root, current, n);
            && (forall u | u in v.pending :: current <= u)
            && (forall r | r in v.regions :: current <= r.target)
    decreases n
  {
    if Reach(fs, root, current).None? && n.Dir? {
      EntriesMeaning(fs, root, current, n.entries);
      forall e | e in n.entries { VisitExtends(fs, root, current + [e.name], e); }
    }
  }

  lemma {:induction false} VisitCovered(fs: Node, root: Path, current: Path, n: Node)
    ensures var v := VisitNode(fs, root, current, n);
            && (v.covered <==> HasCovered(fs, root, current, n))
            && (v.regions != [] <==> v.covered)
            && (!v.covered ==> (v.pending != [] <==> HasSource(n)))
    decreases n
  {
    if Reach(fs, root, current).None? && n.Dir? {
      EntriesMeaning(fs, root, current, n.entries);
      forall e | e in n.entries { VisitCovered(fs, root, current + [e.name], e); }
      var inner := VisitEntries(fs, root, current, n.entries);
      assert inner.regions == [] || inner.regions[0] in inner.regions;
      assert inner.pending == [] || inner.pending[0] in inner.pending;
      if inner.covered {
        var e :| e in n.entries && Visitable(e) && VisitNode(fs, root, current + [e.name], e).covered;
        assert VisitNode(fs, root, current + [e.name], e).regions[0] in inner.regions;
      } else {
        if HasSource(n) {
          var e :| e in n.entries && Visitable(e) && HasSource(e);
          assert VisitNode(fs, root, current + [e.name], e).pending[0] in inner.pending;
        }
      }
    }
  }

  /** Membership below a directory is decided by the one child on the path. */
  lemma {:induction false} ChildOnPath(fs: Node, root: Path, current: Path, n: Node, rel: Path)
    requires WellFormed(n) && n.Dir? && rel != []
    ensures var v := VisitEntries(fs, root, current, n.entries);
            var child := Find(n.entries, rel[0]);
            if child.Some? && Visitable(child.value) then
              var w := VisitNode(fs, root, current + [rel[0]], child.value);
              && (current + rel in v.pending <==> current + rel in w.pending)
              && (forall c :: Region(c, current + rel) in v.regions <==> Region(c, current + rel) in w.regions)
            else
              current + rel !in v.pending && forall c :: Region(c, current + rel) !in v.regions
  {
    EntriesMeaning(fs, root, current, n.entries);
    FindIsEntry(n.entries, rel[0]);
    forall e | e in n.entries && Visitable(e)
      ensures
        var w := VisitNode(fs, root, current + [e.name], e);
        (current + rel in w.pending || exists c :: Region(c, current + rel) in w.regions) ==>
          e.name == rel[0] && Find(n.entries, rel[0]) == Some(e)
    {
      VisitExtends(fs, root, current + [e.name], e);
      if current + [e.name] <= current + rel {
        assert (current + [e.name])[|current|] == (current + rel)[|current|];
        var i :| 0 <= i < |n.entries| && n.entries[i] == e;
        FindEntry(n.entries, i);
      }
    }
  }

  lemma {:induction false} OpenStep(fs: Node, root: Path, current: Path, rel: Path, k: nat)
    requires rel != [] && k <= |rel|
    ensures OpenBefore(fs, root, current, rel, k + 1) <==>
            Reach(fs, root, current).None? && OpenBefore(fs, root, current + [rel[0]], rel[1..], k)
  {
    assert current + rel[..0] == current;
    forall j | 0 <= j <= |rel| - 1
      ensures current + rel[..j + 1] == current + [rel[0]] + rel[1..][..j]
    {
    }
    if OpenBefore(fs, root, current, rel, k + 1) {
      forall j | 0 <= j < k ensures Reach(fs, root, current + [rel[0]] + rel[1..][..j]).None? {
        assert Reach(fs, root, current + rel[..j + 1]).None?;
      }
    }
    if Reach(fs, root, current).None? && OpenBefore(fs, root, current + [rel[0]], rel[1..], k) {
      forall j | 0 <= j < k + 1 ensures Reach(fs, root, current + rel[..j]).None? {
        if j > 0 { assert current + rel[..j] == current + [rel[0]] + rel[1..][..j - 1]; }
      }
    }
  }

  lemma {:induction false} CoveredEntry(fs: Node, root: Path, current: Path, n: Node, e: Node)
    requires n.Dir? && e in n.entries && Visitable(e) && HasCovered(fs, root, current + [e.name], e)
    ensures HasCovered(fs, root, current, n)
  {
  }


  lemma {:induction false} WalkFirst(n: Node, rel: Path) returns (e: Node)
    requires rel != [] && Walk(n, rel).Some?
    ensures n.Dir? && e in n.entries && e.name == rel[0] && Visitable(e) && Walk(n, rel) == Walk(e, rel[1..])
  {
    FindIsEntry(n.entries, rel[0]);
    e := Find(n.entries, rel[0]).value;
  }

  lemma {:induction false} CoveredUpwards(fs: Node, root: Path, current: Path, n: Node, rel: Path)
    requires Walk(n, rel).Some? && HasCovered(fs, root, current + rel, Walk(n, rel).value)
    ensures HasCovered(fs, root, current, n)
  {
    CoveredFrom(fs, root, current, n, rel, current + rel, Walk(n, rel).value);
  }

  lemma {:induction false} CoveredFrom(fs: Node, root: Path, current: Path, n: Node, rel: Path, deep: Path, m: Node)
    requires Walk(n, rel) == Some(m) && deep == current + rel && HasCovered(fs, root, deep, m)
    ensures HasCovered(fs, root, current, n)
    decreases |rel|
  {
    if rel == [] {
      assert current + rel == current;
    } else {
      var e := WalkFirst(n, rel);
      assert deep == (current + [e.name]) + rel[1..];
      CoveredFrom(fs, root, current + [e.name], e, rel[1..], deep, m);
      CoveredEntry(fs, root, current, n, e);
    }
  }

  lemma {:induction false} UncoveredEntryStep(fs: Node, root: Path, current: Path, n: Node, rel: Path)
    requires rel != []
    ensures IsUncoveredEntry(fs, root, current, n, rel) <==>
            && Reach(fs, root, current).None? && n.Dir? && HasCovered(fs, root, current, n)
            && var child := Find(n.entries, rel[0]);
               && child.Some? && Visitable(child.value)
               && IsUncoveredEntry(fs, root, current + [rel[0]], child.value, rel[1..])
  {
    OpenStep(fs, root, current, rel, |rel|);
    assert current + rel == current + [rel[0]] + rel[1..];
    var up := rel[..|rel| - 1];
    if |rel| > 1 {
      assert up[1..] == rel[1..][..|rel[1..]| - 1];
      assert current + up == current + [rel[0]] + up[1..];
      if Walk(n, up).Some? && HasCovered(fs, root, current + up, Walk(n, up).value) {
        CoveredUpwards(fs, root, current, n, up);
      }
    } else {
      assert up == [] && current + up == current;
    }
  }

  /** An entry below a directory is pending when the directory is kept open and its child has it pending. */
  lemma {:induction false} PendingStep(fs: Node, root: Path, current: Path, n: Node, rel: Path)
    requires WellFormed(n) && rel != []
    ensures current + rel in VisitNode(fs, root, current, n).pending <==>
            && Reach(fs, root, current).None? && n.Dir? && HasCovered(fs, root, current, n)
            && var child := Find(n.entries, rel[0]);
               && child.Some? && Visitable(child.value)
               && current + rel in VisitNode(fs, root, current + [rel[0]], child.value).pending
  {
    VisitCovered(fs, root, current, n);
    if Reach(fs, root, current).None? && n.Dir? { ChildOnPath(fs, root, current, n, rel); }
  }

  /** The pending list is exactly the set of shallowest uncovered entries. */
  lemma {:induction false} PendingMeaning(fs: Node, root: Path, current: Path, n: Node, rel: Path)
    requires WellFormed(n)
    ensures current + rel in VisitNode(fs, root, current, n).pending <==>
            IsUncoveredEntry(fs, root, current, n, rel)
    decreases |rel|
  {
    if rel == [] {
      PendingAtStart(fs, root, current, n);
    } else {
      PendingStep(fs, root, current, n, rel);
      UncoveredEntryStep(fs, root, current, n, rel);
      if n.Dir? {
        FindIsEntry(n.entries, rel[0]);
        var child := Find(n.entries, rel[0]);
        assert current + rel == current + [rel[0]] + rel[1..];
        if child.Some? { PendingMeaning(fs, root, current + [rel[0]], child.value, rel[1..]); }
      }
    }
  }

  lemma {:induction false} PendingAtStart(fs: Node, root: Path, current: Path, n: Node)
    requires WellFormed(n)
    ensures current + [] in VisitNode(fs, root, current, n).pending <==>
            IsUncoveredEntry(fs, root, current, n, [])
  {
    var none: Path := [];
    assert current + none == current && none[..0] == none;
    VisitCovered(fs, root, current, n);
    if Reach(fs, root, current).None? && n.Dir? {
      EntriesMeaning(fs, root, current, n.entries);
      forall e | e in n.entries ensures current !in VisitNode(fs, root, current + [e.name], e).pending {
        VisitExtends(fs, root, current + [e.name], e);
      }
      assert current !in VisitEntries(fs, root, current, n.entries).pending;
    }
    if Reach(fs, root, current).None? {
      assert OpenBefore(fs, root, current, none, 1);
    } else {
      assert !OpenBefore(fs, root, current, none, 1) by { assert current + none[..0] == current; }
    }
  }

  lemma {:induction false} RegionsMeaning(fs: Node, root: Path, current: Path, n: Node, rel: Path, c: Path)
    requires WellFormed(n)
    ensures Region(c, current + rel) in VisitNode(fs, root, current, n).regions <==>
            IsCoveredRegion(fs, root, current, n, rel, c)
    decreases |rel|
  {
    if rel == [] {
      assert current + rel == current;
      if Reach(fs, root, current).None? && n.Dir? {
        EntriesMeaning(fs, root, current, n.entries);
        forall e | e in n.entries
          ensures Region(c, current) !in VisitNode(fs, root, current + [e.name], e).regions
        {
          VisitExtends(fs, root, current + [e.name], e);
        }
        assert Region(c, current) !in VisitEntries(fs, root, current, n.entries).regions;
      }
    } else {
      OpenStep(fs, root, current, rel, |rel| - 1);
      assert current + rel != current by { assert |current + rel| > |current|; }
      assert current + rel == current + [rel[0]] + rel[1..];
      if Reach(fs, root, current).None? && n.Dir? {
        ChildOnPath(fs, root, current, n, rel);
        FindIsEntry(n.entries, rel[0]);
        var child := Find(n.entries, rel[0]);
        if child.Some? && Visitable(child.value) {
          RegionsMeaning(fs, root, current + [rel[0]], child.value, rel[1..], c);
        }
      }
    }
  }

  // ---------------------------------------------------------------- nothing twice, no key met twice

  lemma {:induction false} EntryNames(fs: Node, root: Path, current: Path, entries: seq<Node>)
    ensures var v := VisitEntries(fs, root, current, entries);
            && (forall u | u in v.pending :: |u| > |current| && exists e | e in entries :: u[|current|] == e.name)
            && (forall r | r in v.regions ::
                  |r.target| > |current| && exists e | e in entries :: r.target[|current|] == e.name)
  {
    EntriesMeaning(fs, root, current, entries);
    forall e | e in entries
      ensures
        var w := VisitNode(fs, root, current + [e.name], e);
        && (forall u | u in w.pending :: |u| > |current| && u[|current|] == e.name)
        && (forall r | r in w.regions :: |r.target| > |current| && r.target[|current|] == e.name)
    {
      VisitExtends(fs, root, current + [e.name], e);
    }
  }

  lemma {:induction false} PendingDistinct(fs: Node, root: Path, current: Path, n: Node)
    requires WellFormed(n)
    ensures Sorting.Distinct(VisitNode(fs, root, current, n).pending)
    decreases n, 0
  {
    if Reach(fs, root, current).None? && n.Dir? {
      EntriesDistinct(fs, root, current, n.entries);
    }
  }

  lemma {:induction false} EntriesDistinct(fs: Node, root: Path, current: Path, entries: seq<Node>)
    requires forall i, j :: 0 <= i < j < |entries| ==> entries[i].name != entries[j].name
    requires forall e | e in entries :: WellFormed(e)
    ensures Sorting.Distinct(VisitEntries(fs, root, current, entries).pending)
    decreases entries
  {
    if entries != [] {
      EntriesDistinct(fs, root, current, entries[1..]);
      if Visitable(entries[0]) {
        PendingDistinct(fs, root, current + [entries[0].name], entries[0]);
        EntryNames(fs, root, current, entries[1..]);
        VisitExtends(fs, root, current + [entries[0].name], entries[0]);
        Sorting.DistinctConcat(VisitNode(fs, root, current + [entries[0].name], entries[0]).pending,
                               VisitEntries(fs, root, current, entries[1..]).pending);
      }
    }
  }

  /** Below a directory with no reachable config, a child's nearest config root is the child itself. */
  lemma {:induction false} ChildConfigIsChild(fs: Node, root: Path, current: Path, name: string)
    requires !IsFileAt(fs, root) && !IsFileAt(fs, current)
    requires Reach(fs, root, current).None? && Reach(fs, root, current + [name]).Some?
    ensures Reach(fs, root, current + [name]) == Some(current + [name])
  {
    var child := current + [name];
    assert child[..|child| - 1] == current;
    if root <= current {
      assert !RejectedRelative(root, current);
      assert Nearest(fs, root, current).None?;
    } else {
      assert root == child;
    }
  }

  lemma {:induction false} RegionsAreKeyedByTarget(fs: Node, root: Path, current: Path, n: Node)
    requires WellFormed(fs) && !IsFileAt(fs, root)
    requires Stat(fs, current) == Some(n) && WellFormed(n)
    ensures Reach(fs, root, current).None? ==>
              forall r | r in VisitNode(fs, root, current, n).regions :: r.configRoot == r.target
    decreases n
  {
    if Reach(fs, root, current).None? && n.Dir? {
      EntriesMeaning(fs, root, current, n.entries);
      forall r | r in VisitNode(fs, root, current, n).regions ensures r.configRoot == r.target {
        var e :| e in n.entries && Visitable(e) && r in VisitNode(fs, root, current + [e.name], e).regions;
        var i :| 0 <= i < |n.entries| && n.entries[i] == e;
        StatChild(fs, current, i);
        if Reach(fs, root, current + [e.name]).Some? {
          ChildConfigIsChild(fs, root, current, e.name);
        } else {
          RegionsAreKeyedByTarget(fs, root, current + [e.name], e);
        }
      }
    }
  }

  lemma {:induction false} RegionTargetsDistinct(fs: Node, root: Path, current: Path, n: Node)
    requires WellFormed(n)
    ensures TargetsDistinct(VisitNode(fs, root, current, n).regions)
    decreases n, 0
  {
    if Reach(fs, root, current).None? && n.Dir? {
      EntryTargetsDistinct(fs, root, current, n.entries);
    }
  }

  ghost predicate TargetsDistinct(regions: seq<Region>) {
    forall i, j :: 0 <= i < j < |regions| ==> regions[i].target != regions[j].target
  }

  lemma {:induction false} EntryTargetsDistinct(fs: Node, root: Path, current: Path, entries: seq<Node>)
    requires forall i, j :: 0 <= i < j < |entries| ==> entries[i].name != entries[j].name
    requires forall e | e in entries :: WellFormed(e)
    ensures TargetsDistinct(VisitEntries(fs, root, current, entries).regions)
    decreases entries
  {
    if entries != [] {
      EntryTargetsDistinct(fs, root, current, entries[1..]);
      if Visitable(entries[0]) {
        RegionTargetsDistinct(fs, root, current + [entries[0].name], entries[0]);
        EntryNames(fs, root, current, entries[1..]);
        VisitExtends(fs, root, current + [entries[0].name], entries[0]);
      }
    }
  }

  lemma {:induction false} AddDistinctRegions(grouped: seq<Region>, regions: seq<Region>)
    requires var all := grouped + regions;
             forall i, j :: 0 <= i < j < |all| ==> all[i].configRoot != all[j].configRoot
    ensures AddRegions(grouped, regions) == grouped + regions
    decreases |regions|
  {
    if regions == [] {
      assert grouped + regions == grouped;
    } else {
      var all := grouped + regions;
      assert all[|grouped|] == regions[0];
      assert forall i | 0 <= i < |grouped| :: all[i] == grouped[i];
      assert !HasKey(grouped, regions[0].configRoot);
      assert grouped + [regions[0]] + regions[1..] == all;
      AddDistinctRegions(grouped + [regions[0]], regions[1..]);
    }
  }

  lemma {:induction false} KeyedDistinct(regions: seq<Region>)
    requires TargetsDistinct(regions) && (|regions| > 1 ==> forall r | r in regions :: r.configRoot == r.target)
    ensures forall i, j :: 0 <= i < j < |regions| ==> regions[i].configRoot != regions[j].configRoot
    ensures AddRegions([], regions) == regions
  {
    forall i, j | 0 <= i < j < |regions| ensures regions[i].configRoot != regions[j].configRoot {
      assert regions[i] in regions && regions[j] in regions;
    }
    assert [] + regions == regions;
    AddDistinctRegions([], regions);
  }

  /** No two visits of one walk ever hit the same key, so the map keeps every region. */
  lemma {:induction false} NoRegionIsShadowed(fs: Node, root: Path, target: Path)
    requires WellFormed(fs) && WellFormed(NodeAt(fs, target)) && !IsFileAt(fs, root)
    ensures var regions := VisitPath(fs, root, target).regions;
            && AddRegions([], regions) == regions
            && TargetsDistinct(regions)
            && forall i, j :: 0 <= i < j < |regions| ==> regions[i].configRoot != regions[j].configRoot
  {
    var n := NodeAt(fs, target);
    var regions := VisitPath(fs, root, target).regions;
    RegionTargetsDistinct(fs, root, target, n);
    if |regions| > 1 { RegionsAreKeyedByTarget(fs, root, target, n); }
    KeyedDistinct(regions);
  }

  lemma {:induction false} StatWellFormed(fs: Node, p: Path)
    requires WellFormed(fs)
    ensures WellFormed(NodeAt(fs, p))
    decreases |p|
  {
    if p != [] && fs.Dir? {
      FindIsEntry(fs.entries, p[0]);
      var child := Find(fs.entries, p[0]);
      if child.Some? {
        StatWellFormed(child.value, p[1..]);
      }
    }
  }

  // ---------------------------------------------------------------- the entry point

  ghost predicate UncoveredAt(fs: Node, root: Path, target: Path, u: Path) {
    target <= u && IsUncoveredEntry(fs, root, target, NodeAt(fs, target), u[|target|..])
  }

  ghost predicate CoveredAt(fs: Node, root: Path, target: Path, r: Region) {
    target <= r.target && IsCoveredRegion(fs, root, target, NodeAt(fs, target), r.target[|target|..], r.configRoot)
  }

  predicate RenderLe(a: Path, b: Path) {
    Sorting.StringLe(Render(a), Render(b))
  }

  function ByTarget(localeLe: (Path, Path) -> bool): (Region, Region) -> bool {
    (a: Region, b: Region) => localeLe(a.target, b.target)
  }

  /** `localeLe` stands for `localeCompare`. */
  method PartitionEslintTargets(fs: Node, root: Path, target: Path, localeLe: (Path, Path) -> bool)
    returns (covered: seq<Region>, uncovered: seq<Path>)
    requires WellFormed(fs) && !IsFileAt(fs, root)
    ensures forall u :: u in uncovered <==> UncoveredAt(fs, root, target, u)
    ensures forall r :: r in covered <==> CoveredAt(fs, root, target, r)
    ensures Sorting.Distinct(uncovered) && TargetsDistinct(covered)
    ensures Sorting.SortedBy(RenderLe, uncovered)
    ensures Sorting.TotalPreorder(ByTarget(localeLe)) ==> Sorting.SortedBy(ByTarget(localeLe), covered)
  {
    var walker := new Walker(fs, root);
    var any := walker.Visit(target);
    ghost var v := VisitPath(fs, root, target);
    StatWellFormed(fs, target);
    NoRegionIsShadowed(fs, root, target);
    assert [] + v.pending == v.pending;
    covered := Sorting.SortBy(ByTarget(localeLe), walker.grouped);
    uncovered := Sorting.SortBy(RenderLe, walker.pending);
    SortedResult(fs, root, target, ByTarget(localeLe));
  }

  lemma {:induction false} PathBelow(target: Path, u: Path) returns (rel: Path)
    requires target <= u
    ensures rel == u[|target|..] && u == target + rel
  {
    rel := u[|target|..];
  }

  lemma {:induction false} UncoveredIsPending(fs: Node, root: Path, target: Path, n: Node, u: Path)
    requires WellFormed(n) && n == NodeAt(fs, target)
    ensures u in VisitNode(fs, root, target, n).pending <==> UncoveredAt(fs, root, target, u)
  {
    VisitExtends(fs, root, target, n);
    if target <= u {
      var rel := PathBelow(target, u);
      PendingMeaning(fs, root, target, n, rel);
    }
  }

  lemma {:induction false} PendingIsUncovered(fs: Node, root: Path, target: Path)
    requires WellFormed(NodeAt(fs, target))
    ensures forall u :: u in VisitPath(fs, root, target).pending <==> UncoveredAt(fs, root, target, u)
    ensures Sorting.Distinct(VisitPath(fs, root, target).pending)
  {
    var n := NodeAt(fs, target);
    PendingDistinct(fs, root, target, n);
    forall u ensures u in VisitPath(fs, root, target).pending <==> UncoveredAt(fs, root, target, u) {
      UncoveredIsPending(fs, root, target, n, u);
    }
  }

  lemma {:induction false} CoveredIsRegion(fs: Node, root: Path, target: Path, n: Node, r: Region)
    requires WellFormed(n) && n == NodeAt(fs, target)
    ensures r in VisitNode(fs, root, target, n).regions <==> CoveredAt(fs, root, target, r)
  {
    VisitExtends(fs, root, target, n);
    if target <= r.target {
      var rel := PathBelow(target, r.target);
      assert r == Region(r.configRoot, target + rel);
      RegionsMeaning(fs, root, target, n, rel, r.configRoot);
    }
  }

  lemma {:induction false} RegionsAreCovered(fs: Node, root: Path, target: Path)
    requires WellFormed(NodeAt(fs, target))
    ensures forall r :: r in VisitPath(fs, root, target).regions <==> CoveredAt(fs, root, target, r)
    ensures TargetsDistinct(VisitPath(fs, root, target).regions)
  {
    var n := NodeAt(fs, target);
    forall r ensures r in VisitPath(fs, root, target).regions <==> CoveredAt(fs, root, target, r) {
      CoveredIsRegion(fs, root, target, n, r);
    }
    RegionTargetsDistinct(fs, root, target, n);
  }

  lemma {:induction false} SortedPaths(pending: seq<Path>)
    ensures var uncovered := Sorting.SortBy(RenderLe, pending);
            && (forall u :: u in uncovered <==> u in pending)
            && (Sorting.Distinct(pending) ==> Sorting.Distinct(uncovered))
            && Sorting.SortedBy(RenderLe, uncovered)
  {
    Sorting.SortByIsSortedPermutation(RenderLe, pending);
    Sorting.StringLeIsTotalOrder();
    assert Sorting.TotalPreorder(RenderLe);
    if Sorting.Distinct(pending) { Sorting.DistinctOfPermutation(pending, Sorting.SortBy(RenderLe, pending)); }
  }

  lemma {:induction false} SortedResult(fs: Node, root: Path, target: Path, byTarget: (Region, Region) -> bool)
    requires WellFormed(NodeAt(fs, target))
    ensures var v := VisitPath(fs, root, target);
            var covered, uncovered := Sorting.SortBy(byTarget, v.regions), Sorting.SortBy(RenderLe, v.pending);
            && (forall u :: u in uncovered <==> UncoveredAt(fs, root, target, u))
            && (forall r :: r in covered <==> CoveredAt(fs, root, target, r))
            && Sorting.Distinct(uncovered) && TargetsDistinct(covered)
            && Sorting.SortedBy(RenderLe, uncovered)
            && (Sorting.TotalPreorder(byTarget) ==> Sorting.SortedBy(byTarget, covered))
  {
    var v := VisitPath(fs, root, target);
    PendingIsUncovered(fs, root, target);
    RegionsAreCovered(fs, root, target);
    SortedPaths(v.pending);
    Sorting.SortByIsSortedPermutation(byTarget, v.regions);
    SortedTargetsDistinct(byTarget, v.regions);
  }

  lemma {:induction false} SortedTargetsDistinct(byTarget: (Region, Region) -> bool, regions: seq<Region>)
    ensures TargetsDistinct(regions) ==> TargetsDistinct(Sorting.SortBy(byTarget, regions))
  {
    if TargetsDistinct(regions) {
      Sorting.SortByIsSortedPermutation(byTarget, regions);
      var sorted := Sorting.SortBy(byTarget, regions);
      Sorting.DistinctOfPermutation(regions, sorted);
      forall i, j | 0 <= i < j < |sorted| ensures sorted[i].target != sorted[j].target {
        assert sorted[i] in regions && sorted[j] in regions;
      }
    }
  }

  // ---------------------------------------------------------------- the partition theorem

  ghost predicate IsRegionTarget(fs: Node, root: Path, target: Path, n: Node, rel: Path) {
    exists c :: IsCoveredRegion(fs, root, target, n, rel, c)
  }

  /** The step at which the path to a source file enters a reported entry, of either kind. */
  ghost predicate Enters(fs: Node, root: Path, target: Path, n: Node, rel: Path, k: nat)
    requires k <= |rel|
  {
    IsUncoveredEntry(fs, root, target, n, rel[..k]) || IsRegionTarget(fs, root, target, n, rel[..k])
  }

  lemma {:induction false} SourceUpwards(n: Node, rel: Path)
    requires Walk(n, rel).Some? && HasSource(Walk(n, rel).value)
    ensures HasSource(n)
    decreases |rel|
  {
    if rel != [] {
      FindIsEntry(n.entries, rel[0]);
      SourceUpwards(Find(n.entries, rel[0]).value, rel[1..]);
    }
  }

  lemma {:induction false} OpenPrefix(fs: Node, root: Path, target: Path, rel: Path, k: nat, m: nat)
    requires k <= |rel| && m <= k + 1
    ensures OpenBefore(fs, root, target, rel[..k], m) <==> OpenBefore(fs, root, target, rel, m)
  {
    assert forall j | 0 <= j < m :: rel[..k][..j] == rel[..j];
  }

  lemma {:induction false} WalkPrefix(n: Node, rel: Path, k: nat)
    requires Walk(n, rel).Some? && k <= |rel|
    ensures Walk(n, rel[..k]).Some?
  {
    if k < |rel| { WalkStep(n, rel, k); } else { assert rel[..k] == rel; }
  }

  /** A covered step makes every earlier step a parent of a covered region. */
  lemma {:induction false} CoveredFromStep(fs: Node, root: Path, target: Path, n: Node, rel: Path, j: nat, k: nat)
    requires j <= k <= |rel| && Walk(n, rel[..j]).Some? && Walk(n, rel[..k]).Some?
    requires HasCovered(fs, root, target + rel[..k], Walk(n, rel[..k]).value)
    ensures HasCovered(fs, root, target + rel[..j], Walk(n, rel[..j]).value)
  {
    if j < k {
      var part := rel[..k];
      WalkStep(n, part, j);
      assert part[..j] == rel[..j];
      assert target + rel[..j] + part[j..] == target + rel[..k];
      CoveredUpwards(fs, root, target + rel[..j], Walk(n, rel[..j]).value, part[j..]);
    }
  }

  /** Every source file the walk can see is entered at exactly one step, by exactly one kind of entry. */
  lemma {:induction false} EverySourceFileHasOneRegion(fs: Node, root: Path, target: Path, n: Node, rel: Path)
    returns (k: nat)
    requires Walk(n, rel).Some? && Walk(n, rel).value.File? && HasSource(Walk(n, rel).value)
    ensures k <= |rel| && Enters(fs, root, target, n, rel, k)
    ensures forall j: nat :: j <= |rel| && Enters(fs, root, target, n, rel, j) ==> j == k
    ensures !(IsUncoveredEntry(fs, root, target, n, rel[..k]) && IsRegionTarget(fs, root, target, n, rel[..k]))
  {
    if OpenBefore(fs, root, target, rel, |rel| + 1) {
      k := EnteredWhereUncovered(fs, root, target, n, rel);
    } else {
      k := FirstCoveredStep(fs, root, target, rel);
      EnteredWhereCovered(fs, root, target, n, rel, k);
    }
  }

  lemma {:induction false} FirstCoveredStep(fs: Node, root: Path, target: Path, rel: Path) returns (k: nat)
    requires !OpenBefore(fs, root, target, rel, |rel| + 1)
    ensures k <= |rel| && Reach(fs, root, target + rel[..k]).Some? && OpenBefore(fs, root, target, rel, k)
  {
    k := 0;
    while Reach(fs, root, target + rel[..k]).None?
      invariant k <= |rel| && OpenBefore(fs, root, target, rel, k)
      decreases |rel| - k
    {
      assert OpenBefore(fs, root, target, rel, k + 1);
      k := k + 1;
    }
  }

  lemma {:induction false} EnteredWhereCovered(fs: Node, root: Path, target: Path, n: Node, rel: Path, k: nat)
    requires Walk(n, rel).Some? && k <= |rel|
    requires Reach(fs, root, target + rel[..k]).Some? && OpenBefore(fs, root, target, rel, k)
    ensures Enters(fs, root, target, n, rel, k) && !IsUncoveredEntry(fs, root, target, n, rel[..k])
    ensures forall j: nat :: j <= |rel| && Enters(fs, root, target, n, rel, j) ==> j == k
  {
    WalkPrefix(n, rel, k);
    OpenPrefix(fs, root, target, rel, k, k);
    assert IsCoveredRegion(fs, root, target, n, rel[..k], Reach(fs, root, target + rel[..k]).value);
    forall j: nat | j <= |rel| && Enters(fs, root, target, n, rel, j) ensures j == k {
      if k < j {
        OpenPrefix(fs, root, target, rel, j, j);
      } else {
        WalkPrefix(n, rel, j);
        CoveredFromStep(fs, root, target, n, rel, j, k);
      }
    }
  }

  lemma {:induction false} EnteredWhereUncovered(fs: Node, root: Path, target: Path, n: Node, rel: Path)
    returns (k: nat)
    requires Walk(n, rel).Some? && Walk(n, rel).value.File? && HasSource(Walk(n, rel).value)
    requires OpenBefore(fs, root, target, rel, |rel| + 1)
    ensures k <= |rel| && Enters(fs, root, target, n, rel, k)
    ensures forall j: nat :: j <= |rel| && Enters(fs, root, target, n, rel, j) ==> j == k
    ensures !IsRegionTarget(fs, root, target, n, rel[..k])
  {
    forall j: nat | j <= |rel| ensures Walk(n, rel[..j]).Some? { WalkPrefix(n, rel, j); }
    assert rel[..|rel|] == rel;
    k := 0;
    while HasCovered(fs, root, target + rel[..k], Walk(n, rel[..k]).value)
      invariant k <= |rel|
      invariant k > 0 ==> HasCovered(fs, root, target + rel[..k - 1], Walk(n, rel[..k - 1]).value)
      decreases |rel| - k
    {
      k := k + 1;
    }
    OpenPrefix(fs, root, target, rel, k, k + 1);
    if k < |rel| {
      WalkStep(n, rel, k);
      SourceUpwards(Walk(n, rel[..k]).value, rel[k..]);
    }
    assert k > 0 ==> rel[..k][..k - 1] == rel[..k - 1];
    assert IsUncoveredEntry(fs, root, target, n, rel[..k]);
    forall j: nat | j <= |rel| && Enters(fs, root, target, n, rel, j) ensures j == k {
      UncoveredEntriesDoNotNest(fs, root, target, n, rel, j, k);
    }
  }

  lemma {:induction false} UncoveredEntriesDoNotNest(fs: Node, root: Path, target: Path, n: Node, rel: Path, j: nat,
                                                     k: nat)
    requires j <= |rel| && k <= |rel|
    requires IsUncoveredEntry(fs, root, target, n, rel[..j]) && IsUncoveredEntry(fs, root, target, n, rel[..k])
    ensures j == k
  {
    if j < k {
      assert rel[..k][..k - 1] == rel[..k - 1];
      CoveredFromStep(fs, root, target, n, rel, j, k - 1);
    } else if k < j {
      assert rel[..j][..j - 1] == rel[..j - 1];
      CoveredFromStep(fs, root, target, n, rel, k, j - 1);
    }
  }

  // ---------------------------------------------------------------- coverage means a reachable config

  lemma {:induction false} NearestBelow(fs: Node, root: Path, p: Path, k: nat)
    requires |root| <= k <= |p| && Nearest(fs, root, p[..k]).Some?
    ensures Nearest(fs, root, p).Some?
    decreases |p|
  {
    if k == |p| {
      assert p[..k] == p;
    } else {
      assert p[..|p| - 1][..k] == p[..k];
      NearestBelow(fs, root, p[..|p| - 1], k);
    }
  }

  lemma {:induction false} WalkStat(fs: Node, p: Path, rel: Path)
    requires WellFormed(fs) && Walk(NodeAt(fs, p), rel).Some? && Stat(fs, p).Some?
    ensures Stat(fs, p + rel) == Walk(NodeAt(fs, p), rel)
    decreases |rel|
  {
    if rel == [] {
      assert p + rel == p;
    } else {
      var n := NodeAt(fs, p);
      FindIsEntry(n.entries, rel[0]);
      var child := Find(n.entries, rel[0]).value;
      var i :| 0 <= i < |n.entries| && n.entries[i] == child;
      StatChild(fs, p, i);
      assert p + rel == p + [rel[0]] + rel[1..];
      WalkStat(fs, p + [rel[0]], rel[1..]);
    }
  }

  /** Below a covered region every path that is not rejected finds a config. */
  lemma {:induction false} RegionReaches(fs: Node, root: Path, target: Path, rel: Path, k: nat)
    requires WellFormed(fs) && Stat(fs, target).Some? && k < |rel|
    requires Walk(NodeAt(fs, target), rel).Some? && Walk(NodeAt(fs, target), rel).value.File?
    requires IsRegionTarget(fs, root, target, NodeAt(fs, target), rel[..k]) && !RejectedRelative(root, target + rel)
    ensures Reach(fs, root, target + rel).Some?
  {
    var n := NodeAt(fs, target);
    var file := target + rel;
    WalkPrefix(n, rel, k);
    WalkStat(fs, target, rel);
    WalkStep(n, rel, k);
    WalkStat(fs, target, rel[..k]);
    var at := target + rel[..k];
    assert LookupStart(fs, at) == at;
    assert file[..|file| - 1][..|at|] == at;
    NearestBelow(fs, root, file[..|file| - 1], |at|);
  }

  /**
   * A visible source file has a reachable config exactly when it lies in a covered
   * region and its own path is not rejected. The lookup rejects a path below the root
   * whose first name merely begins with two dots, so a covered root does not cover those.
   */
  lemma {:induction false} ConfigReachableIffCovered(fs: Node, root: Path, target: Path, rel: Path, k: nat)
    requires WellFormed(fs) && Stat(fs, target).Some?
    requires var n := NodeAt(fs, target);
             && Walk(n, rel).Some? && Walk(n, rel).value.File? && HasSource(Walk(n, rel).value)
             && k <= |rel| && Enters(fs, root, target, n, rel, k)
    ensures Reach(fs, root, target + rel).Some? <==>
            IsRegionTarget(fs, root, target, NodeAt(fs, target), rel[..k]) && !RejectedRelative(root, target + rel)
  {
    var n := NodeAt(fs, target);
    var file := target + rel;
    WalkPrefix(n, rel, k);
    assert rel[..|rel|] == rel;
    if IsRegionTarget(fs, root, target, n, rel[..k]) {
      if !RejectedRelative(root, file) && k < |rel| { RegionReaches(fs, root, target, rel, k); }
    } else if Reach(fs, root, file).Some? {
      CoveredFromStep(fs, root, target, n, rel, k, |rel|);
    }
  }

  /** The rejected case happens: a linted root with a directory named `..gen`. */
  lemma {:induction false} CoveredRootCanHoldUnreachableSource()
    ensures var fs := Dir("", [File("eslint.config.js"), Dir("..gen", [File("a.ts")])]);
            && WellFormed(fs)
            && IsCoveredRegion(fs, [], [], fs, [], [])
            && Walk(fs, ["..gen", "a.ts"]) == Some(File("a.ts"))
            && Reach(fs, [], ["..gen", "a.ts"]).None?
  {
    var gen := Dir("..gen", [File("a.ts")]);
    var fs := Dir("", [File("eslint.config.js"), gen]);
    assert fs.entries[0] == File("eslint.config.js") && CONFIG_PREFIX <= fs.entries[0].name;
    assert HasConfig(fs);
    assert Find(fs.entries, "..gen") == Find(fs.entries[1..], "..gen") == Some(gen);
    assert Find(gen.entries, "a.ts") == Some(File("a.ts"));
    var p := ["..gen", "a.ts"];
    assert p[1..] == ["a.ts"] && p[1..][1..] == [];
    assert Walk(gen, ["a.ts"]) == Some(File("a.ts"));
    var none: Path := [];
    assert none + none == none;
  }
}
