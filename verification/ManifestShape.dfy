/** Where a run over a manifest puts its lines, said of the lines before and after it. */
module ManifestShape {
  import opened Options
  import opened ManifestLines
  import opened ManifestMerge
  import Sequences

  function IsEntryLine(kind: Kinds): string -> bool {
    (l: string) => kind(l) == AdvEntry
  }

  /** How many of the generated entries a stretch of old lines makes room for. */
  function Placed(kind: Kinds, was: seq<string>, generated: seq<string>): (n: nat)
    ensures n <= |generated|
  {
    var entries := |Select(IsEntryLine(kind), was)|;
    if entries < |generated| then entries else |generated|
  }

  /** `first` holds the hand-owned lines of `was`, and of the generated entries as many as `was` had entries. */
  ghost predicate Mirrors(kind: Kinds, was: seq<string>, generated: seq<string>, first: seq<string>) {
    && Select(IsPlain(kind), first) == Select(IsPlain(kind), was)
    && Select(IsOwned(kind), first) == generated[..Placed(kind, was, generated)]
  }

  ghost predicate CutsAlike(kind: Kinds, was: seq<string>, generated: seq<string>, lines: seq<string>) {
    exists first | first <= lines :: Mirrors(kind, was, generated, first)
  }

  /**
   * The new lines hold the generated entries and the hand-owned lines, each in order, and wherever the old lines are
   * cut the new ones can be cut to match: an entry stands where an old entry stood, as long as there are any.
   */
  ghost predicate Rewritten(kind: Kinds, was: seq<string>, generated: seq<string>, lines: seq<string>) {
    && Select(IsPlain(kind), lines) == Select(IsPlain(kind), was)
    && Select(IsOwned(kind), lines) == generated
    && forall k | 0 <= k <= |was| :: CutsAlike(kind, was[..k], generated, lines)
  }

  lemma {:induction false} PlacedCons(kind: Kinds, l: string, was: seq<string>, generated: seq<string>)
    ensures Placed(kind, [l] + was, generated) ==
            if kind(l) == AdvEntry && generated != [] then 1 + Placed(kind, was, generated[1..])
            else Placed(kind, was, generated)
  {
    SelectCons(IsEntryLine(kind), l, was);
  }

  lemma {:induction false} SliceTail(generated: seq<string>, m: nat)
    requires 0 < m <= |generated|
    ensures generated[..m] != [] && generated[..m][0] == generated[0]
    ensures generated[..m][1..] == generated[1..][..m - 1] && generated[1..][m - 1..] == generated[m..]
  {
  }

  /** What merging does with a line. */
  function Step(kind: Kinds, l: string, generated: seq<string>): seq<string> {
    if kind(l) == AdvEntry then (if generated == [] then [] else [generated[0]])
    else if kind(l) == Managed then [] else [l]
  }

  function Left(kind: Kinds, l: string, generated: seq<string>): seq<string> {
    if kind(l) == AdvEntry && generated != [] then generated[1..] else generated
  }

  lemma {:induction false} StepsAlike(kind: Kinds, l: string, rest: seq<string>, generated: seq<string>)
    ensures var m, n := Placed(kind, [l] + rest, generated), Placed(kind, rest, Left(kind, l, generated));
            && Step(kind, l, generated[..m]) == Step(kind, l, generated)
            && Left(kind, l, generated[..m]) == Left(kind, l, generated)[..n]
            && Left(kind, l, generated)[n..] == generated[m..]
  {
    PlacedCons(kind, l, rest, generated);
    var m := Placed(kind, [l] + rest, generated);
    if kind(l) == AdvEntry && generated != [] { SliceTail(generated, m); }
  }

  /** Merging the lines up to a cut, with the entries that fit there, begins the merged lines. */
  lemma {:induction false} MergeBegins(kind: Kinds, x: seq<string>, y: seq<string>, generated: seq<string>)
    ensures var m := Placed(kind, x, generated);
            Merge(kind, x + y, Singles(generated)) ==
            Merge(kind, x, Singles(generated[..m])) + Merge(kind, y, Singles(generated[m..]))
    decreases |x|
  {
    if x == [] {
      assert x + y == y && generated[0..] == generated && generated[..0] == [];
    } else {
      var l, rest := x[0], x[1..];
      var m, n := Placed(kind, x, generated), Placed(kind, rest, Left(kind, l, generated));
      assert x == [l] + rest && x + y == [l] + (rest + y);
      StepsAlike(kind, l, rest, generated);
      MergeCons(kind, l, rest + y, generated);
      MergeCons(kind, l, rest, generated[..m]);
      MergeBegins(kind, rest, y, Left(kind, l, generated));
      Sequences.Assoc(Step(kind, l, generated), Merge(kind, rest, Singles(Left(kind, l, generated)[..n])),
                      Merge(kind, y, Singles(generated[m..])));
    }
  }

  lemma {:induction false} MergeCons(kind: Kinds, l: string, rest: seq<string>, generated: seq<string>)
    ensures Merge(kind, [l] + rest, Singles(generated)) ==
            Step(kind, l, generated) + Merge(kind, rest, Singles(Left(kind, l, generated)))
  {
    assert ([l] + rest)[1..] == rest;
    if generated != [] { assert Singles(generated)[1..] == Singles(generated[1..]); }
  }

  lemma {:induction false} MergeMirrors(kind: Kinds, was: seq<string>, generated: seq<string>, k: nat)
    requires NoMarkers(kind, was) && AllEntries(kind, generated) && k <= |was|
    ensures CutsAlike(kind, was[..k], generated, Merge(kind, was, Singles(generated)))
  {
    var x, y := was[..k], was[k..];
    var m := Placed(kind, x, generated);
    assert was == x + y;
    MergeBegins(kind, x, y, generated);
    assert forall l | l in x :: l in was;
    MergeKeeps(kind, x, generated[..m]);
    var first := Merge(kind, x, Singles(generated[..m]));
    assert first <= Merge(kind, was, Singles(generated)) && Mirrors(kind, x, generated, first);
  }

  lemma {:induction false} MergeIsRewritten(kind: Kinds, was: seq<string>, generated: seq<string>)
    requires NoMarkers(kind, was) && AllEntries(kind, generated)
    ensures Rewritten(kind, was, generated, Merge(kind, was, GroupsFrom(kind, generated, [])))
  {
    GroupsAreSingles(kind, generated);
    MergeKeeps(kind, was, generated);
    forall k | 0 <= k <= |was|
      ensures CutsAlike(kind, was[..k], generated, Merge(kind, was, Singles(generated)))
    {
      MergeMirrors(kind, was, generated, k);
    }
  }

  // ---------------------------------------------------------------- the whole file

  /** Of the entries of a file, the first is at `a` and the last at `b`. */
  ghost predicate Span(kind: Kinds, ls: seq<string>, a: nat, b: nat) {
    && a <= b < |ls| && kind(ls[a]) == AdvEntry && kind(ls[b]) == AdvEntry
    && forall i | 0 <= i < a || b < i < |ls| :: kind(ls[i]) != AdvEntry
  }

  /**
   * A first run: the lines in front of the first entry and those behind the last stay where they are, and between
   * them stands one marked region with the lines from the first to the last entry rewritten.
   */
  lemma {:induction false} FirstRunShape(kind: Kinds, ls: seq<string>, a: nat, b: nat, generated: seq<string>)
    returns (region: seq<string>)
    requires NoMarkers(kind, ls) && AllEntries(kind, generated) && Span(kind, ls, a, b)
    ensures Regenerate(kind, ls, Ok(generated)) ==
            Ok(ls[..a] + [BLOCK_START] + region + [BLOCK_END] + ls[b + 1..])
    ensures Rewritten(kind, ls[a..b + 1], generated, region)
  {
    FindMarkersMeaning(kind, ls);
    assert forall l | l in ls[a..b + 1] :: l in ls;
    MergeIsRewritten(kind, ls[a..b + 1], generated);
    region := Merge(kind, ls[a..b + 1], GroupsFrom(kind, generated, []));
    assert FirstEntry(kind, ls) == a && LastEntry(kind, ls) == b;
  }

  /** A later run: both markers and everything outside them stay, and the lines between them are rewritten. */
  lemma {:induction false} LaterRunShape(kind: Kinds, ls: seq<string>, p: Pair, generated: seq<string>)
    returns (region: seq<string>)
    requires MarkedAt(kind, ls, p) && AllEntries(kind, generated)
    ensures Regenerate(kind, ls, Ok(generated)) == Ok(ls[..p.start + 1] + region + ls[p.end..])
    ensures Rewritten(kind, ls[p.start + 1..p.end], generated, region)
  {
    FindMarkersMeaning(kind, ls);
    MergeIsRewritten(kind, ls[p.start + 1..p.end], generated);
    region := Merge(kind, ls[p.start + 1..p.end], GroupsFrom(kind, generated, []));
  }

  /** Any other file is refused, and so is any file of an agent without a policy row. */
  lemma {:induction false} RefusedShapes(kind: Kinds, ls: seq<string>, block: Result<seq<string>>)
    ensures Regenerate(kind, ls, block).Ok? <==>
            && block.Ok?
            && ((exists p :: MarkedAt(kind, ls, p)) || (NoMarkers(kind, ls) && exists a, b :: Span(kind, ls, a, b)))
    ensures NoMarkers(kind, ls) && (forall l | l in ls :: kind(l) != AdvEntry) ==>
              Regenerate(kind, ls, block) == Err(NoEntryRegion)
  {
    FindMarkersMeaning(kind, ls);
    match FindMarkers(kind, ls)
    case Err(_) =>
    case Ok(Some(p)) =>
    case Ok(None) =>
      var first, last := FirstEntry(kind, ls), LastEntry(kind, ls);
      if first >= 0 && last >= 0 { assert Span(kind, ls, first, last); }
      assert first >= 0 ==> ls[first] in ls;
  }
}
