/** Regenerating the marked region of a manifest, on lines. */
module ManifestMerge {
  import opened Options
  import opened ManifestLines

  datatype Group = Group(comments: seq<string>, entry: string)

  datatype Failure =
    | IncompleteMarkers(starts: nat, ends: nat)
    | MalformedMarkers(start: nat, end: nat)
    | NoEntryRegion
    | NoPolicy

  datatype Result<+T> = Ok(value: T) | Err(error: Failure)

  datatype Pair = Pair(start: nat, end: nat)

  type Kinds = string -> Kind

  // ---------------------------------------------------------------- filters

  function Select(keep: string -> bool, ls: seq<string>): seq<string> {
    if ls == [] then []
    else (if keep(ls[0]) then [ls[0]] else []) + Select(keep, ls[1..])
  }

  lemma {:induction false} SelectConcat(keep: string -> bool, a: seq<string>, b: seq<string>)
    ensures Select(keep, a + b) == Select(keep, a) + Select(keep, b)
  {
    if a == [] {
      assert a + b == b;
    } else {
      assert (a + b)[1..] == a[1..] + b;
      SelectConcat(keep, a[1..], b);
    }
  }

  lemma {:induction false} SelectCons(keep: string -> bool, x: string, ls: seq<string>)
    ensures Select(keep, [x] + ls) == (if keep(x) then [x] else []) + Select(keep, ls)
  {
    assert ([x] + ls)[1..] == ls;
  }

  lemma {:induction false} SelectMembers(keep: string -> bool, ls: seq<string>)
    ensures forall l :: l in Select(keep, ls) <==> l in ls && keep(l)
  {
    if ls != [] {
      SelectMembers(keep, ls[1..]);
      assert ls == [ls[0]] + ls[1..];
    }
  }

  lemma {:induction false} SelectAll(keep: string -> bool, ls: seq<string>)
    requires forall l | l in ls :: keep(l)
    ensures Select(keep, ls) == ls
  {
    if ls != [] {
      SelectAll(keep, ls[1..]);
      assert ls == [ls[0]] + ls[1..];
    }
  }

  /** A split of the selected lines around one of them is a split of the whole. */
  lemma {:induction false} SelectSplit(keep: string -> bool, ls: seq<string>, x: seq<string>, y: string, z: seq<string>)
    returns (i: nat)
    requires Select(keep, ls) == x + [y] + z
    ensures i < |ls| && ls[i] == y && Select(keep, ls[..i]) == x && Select(keep, ls[i + 1..]) == z
  {
    if !keep(ls[0]) {
      i := SelectSplit(keep, ls[1..], x, y, z);
      i := i + 1;
      assert ls[..i] == [ls[0]] + ls[1..][..i - 1];
      assert ls[i + 1..] == ls[1..][i..];
    } else if x == [] {
      i := 0;
      assert (x + [y] + z)[0] == y;
      assert Select(keep, ls)[1..] == z;
    } else {
      assert Select(keep, ls)[0] == x[0];
      assert Select(keep, ls)[1..] == x[1..] + [y] + z;
      i := SelectSplit(keep, ls[1..], x[1..], y, z);
      i := i + 1;
      assert ls[..i] == [ls[0]] + ls[1..][..i - 1];
      assert ls[i + 1..] == ls[1..][i..];
      assert x == [x[0]] + x[1..];
    }
  }

  function IsPlain(kind: Kinds): string -> bool {
    (l: string) => kind(l) == Plain
  }

  function IsOwned(kind: Kinds): string -> bool {
    (l: string) => kind(l) != Plain
  }

  // ---------------------------------------------------------------- groups

  function GroupsFrom(kind: Kinds, generated: seq<string>, comments: seq<string>): seq<Group> {
    if generated == [] then []
    else if kind(generated[0]) == AdvEntry then
      [Group(comments, generated[0])] + GroupsFrom(kind, generated[1..], [])
    else GroupsFrom(kind, generated[1..], comments + [generated[0]])
  }

  lemma {:induction false} GroupsStep(kind: Kinds, generated: seq<string>, i: nat, comments: seq<string>)
    requires i < |generated|
    ensures GroupsFrom(kind, generated[i..], comments) ==
            if kind(generated[i]) == AdvEntry then
              [Group(comments, generated[i])] + GroupsFrom(kind, generated[i + 1..], [])
            else GroupsFrom(kind, generated[i + 1..], comments + [generated[i]])
  {
    assert generated[i..][1..] == generated[i + 1..];
  }

  function GroupLines(g: Group): seq<string> {
    g.comments + [g.entry]
  }

  function Flatten(groups: seq<Group>): seq<string> {
    if groups == [] then [] else GroupLines(groups[0]) + Flatten(groups[1..])
  }

  lemma {:induction false} FlattenStep(groups: seq<Group>, g: nat)
    requires g < |groups|
    ensures Flatten(groups[g..]) == GroupLines(groups[g]) + Flatten(groups[g + 1..])
  {
    assert groups[g..][1..] == groups[g + 1..];
  }

  // ---------------------------------------------------------------- merging

  function Merge(kind: Kinds, region: seq<string>, groups: seq<Group>): seq<string>
    decreases |region|
  {
    if region == [] then Flatten(groups)
    else if kind(region[0]) == AdvEntry then
      if groups == [] then Merge(kind, region[1..], [])
      else GroupLines(groups[0]) + Merge(kind, region[1..], groups[1..])
    else (if kind(region[0]) == Managed then [] else [region[0]]) + Merge(kind, region[1..], groups)
  }

  lemma {:induction false} MergeStep(kind: Kinds, region: seq<string>, i: nat, groups: seq<Group>, g: nat)
    requires i < |region| && g <= |groups|
    ensures Merge(kind, region[i..], groups[g..]) ==
            if kind(region[i]) == AdvEntry then
              if g == |groups| then Merge(kind, region[i + 1..], groups[g..])
              else GroupLines(groups[g]) + Merge(kind, region[i + 1..], groups[g + 1..])
            else if kind(region[i]) == Managed then Merge(kind, region[i + 1..], groups[g..])
            else [region[i]] + Merge(kind, region[i + 1..], groups[g..])
  {
    assert region[i..][1..] == region[i + 1..];
    if g < |groups| { assert groups[g..][1..] == groups[g + 1..]; }
  }

  ghost predicate NoMarkers(kind: Kinds, ls: seq<string>) {
    forall l | l in ls :: kind(l) != StartMarker && kind(l) != EndMarker
  }

  ghost predicate AllEntries(kind: Kinds, ls: seq<string>) {
    forall l | l in ls :: kind(l) == AdvEntry
  }

  /** Groups without comments, one for each generated line. */
  function Singles(generated: seq<string>): seq<Group> {
    if generated == [] then [] else [Group([], generated[0])] + Singles(generated[1..])
  }

  lemma {:induction false} GroupsAreSingles(kind: Kinds, generated: seq<string>)
    requires AllEntries(kind, generated)
    ensures GroupsFrom(kind, generated, []) == Singles(generated)
  {
    if generated != [] { GroupsAreSingles(kind, generated[1..]); }
  }

  lemma {:induction false} FlattenSingles(generated: seq<string>)
    ensures Flatten(Singles(generated)) == generated
  {
    if generated != [] {
      FlattenSingles(generated[1..]);
      assert generated == [generated[0]] + generated[1..];
    }
  }

  lemma {:induction false} SelectOfEntries(kind: Kinds, generated: seq<string>)
    requires AllEntries(kind, generated)
    ensures Select(IsOwned(kind), generated) == generated && Select(IsPlain(kind), generated) == []
  {
    SelectAll(IsOwned(kind), generated);
    SelectNone(IsPlain(kind), generated);
  }

  lemma {:induction false} SelectNone(keep: string -> bool, ls: seq<string>)
    requires forall l | l in ls :: !keep(l)
    ensures Select(keep, ls) == []
  {
    if ls != [] { SelectNone(keep, ls[1..]); }
  }

  /** Merging writes exactly the generated entries, in order, and keeps every hand-owned line. */
  lemma {:induction false} MergeKeeps(kind: Kinds, region: seq<string>, generated: seq<string>)
    requires NoMarkers(kind, region) && AllEntries(kind, generated)
    ensures Select(IsOwned(kind), Merge(kind, region, Singles(generated))) == generated
    ensures Select(IsPlain(kind), Merge(kind, region, Singles(generated))) == Select(IsPlain(kind), region)
    decreases |region|
  {
    if region == [] {
      FlattenSingles(generated);
      SelectOfEntries(kind, generated);
    } else {
      assert region[0] in region;
      MergeKeepsStep(kind, region, generated);
      if kind(region[0]) == AdvEntry && generated != [] {
        MergeKeeps(kind, region[1..], generated[1..]);
        assert generated == [generated[0]] + generated[1..];
      } else {
        MergeKeeps(kind, region[1..], generated);
      }
    }
  }

  lemma {:induction false} MergeKeepsStep(kind: Kinds, region: seq<string>, generated: seq<string>)
    requires region != [] && AllEntries(kind, generated)
    requires kind(region[0]) != StartMarker && kind(region[0]) != EndMarker
    ensures
      var replaced := kind(region[0]) == AdvEntry && generated != [];
      var m := Merge(kind, region[1..], Singles(if replaced then generated[1..] else generated));
      var merged := Merge(kind, region, Singles(generated));
      && Select(IsOwned(kind), merged) == (if replaced then [generated[0]] else []) + Select(IsOwned(kind), m)
      && Select(IsPlain(kind), merged) ==
         (if kind(region[0]) == Plain then [region[0]] else []) + Select(IsPlain(kind), m)
  {
    var replaced := kind(region[0]) == AdvEntry && generated != [];
    var m := Merge(kind, region[1..], Singles(if replaced then generated[1..] else generated));
    var merged := Merge(kind, region, Singles(generated));
    if replaced {
      assert GroupLines(Singles(generated)[0]) == [generated[0]];
      assert Singles(generated)[1..] == Singles(generated[1..]);
      assert merged == [generated[0]] + m;
      SelectCons(IsOwned(kind), generated[0], m);
      SelectCons(IsPlain(kind), generated[0], m);
    } else if kind(region[0]) == Plain {
      assert merged == [region[0]] + m;
      SelectCons(IsOwned(kind), region[0], m);
      SelectCons(IsPlain(kind), region[0], m);
    } else {
      assert merged == m;
    }
  }

  /** Merging changes nothing in a region that already holds exactly the generated entries. */
  lemma {:induction false} MergeOfMerged(kind: Kinds, region: seq<string>, generated: seq<string>)
    requires AllEntries(kind, generated)
    requires Select(IsOwned(kind), region) == generated
    ensures Merge(kind, region, Singles(generated)) == region
    decreases |region|
  {
    if region != [] {
      assert region == [region[0]] + region[1..];
      if kind(region[0]) == Plain {
        MergeOfMerged(kind, region[1..], generated);
      } else {
        assert generated[0] == region[0];
        assert Select(IsOwned(kind), region[1..]) == generated[1..];
        MergeOfMerged(kind, region[1..], generated[1..]);
      }
    }
  }

  // ---------------------------------------------------------------- markers

  function Positions(kind: Kinds, k: Kind, ls: seq<string>, offset: nat): seq<nat>
    decreases |ls|
  {
    if ls == [] then []
    else (if kind(ls[0]) == k then [offset] else []) + Positions(kind, k, ls[1..], offset + 1)
  }

  lemma {:induction false} PositionsCons(kind: Kinds, k: Kind, x: string, ls: seq<string>, offset: nat)
    ensures Positions(kind, k, [x] + ls, offset) ==
            (if kind(x) == k then [offset] else []) + Positions(kind, k, ls, offset + 1)
  {
    assert ([x] + ls)[1..] == ls;
  }

  lemma {:induction false} PositionsConcat(kind: Kinds, k: Kind, a: seq<string>, b: seq<string>, offset: nat)
    ensures Positions(kind, k, a + b, offset) ==
            Positions(kind, k, a, offset) + Positions(kind, k, b, offset + |a|)
    decreases |a|
  {
    if a == [] {
      assert a + b == b;
    } else {
      PositionsConcat(kind, k, a[1..], b, offset + 1);
      assert a + b == [a[0]] + (a[1..] + b);
      PositionsCons(kind, k, a[0], a[1..] + b, offset);
    }
  }

  lemma {:induction false} PositionsStep(kind: Kinds, k: Kind, ls: seq<string>, i: nat)
    requires i < |ls|
    ensures Positions(kind, k, ls[..i + 1], 0) ==
            Positions(kind, k, ls[..i], 0) + (if kind(ls[i]) == k then [i] else [])
  {
    assert ls[..i + 1] == ls[..i] + [ls[i]];
    PositionsConcat(kind, k, ls[..i], [ls[i]], 0);
  }

  lemma {:induction false} PositionsMeaning(kind: Kinds, k: Kind, ls: seq<string>, offset: nat)
    ensures forall i :: i in Positions(kind, k, ls, offset) <==>
                        offset <= i < offset + |ls| && kind(ls[i - offset]) == k
    decreases |ls|
  {
    if ls != [] { PositionsMeaning(kind, k, ls[1..], offset + 1); }
  }

  function FindMarkers(kind: Kinds, ls: seq<string>): Result<Option<Pair>> {
    var starts, ends := Positions(kind, StartMarker, ls, 0), Positions(kind, EndMarker, ls, 0);
    if starts == [] && ends == [] then Ok(None)
    else if |starts| != 1 || |ends| != 1 then Err(IncompleteMarkers(|starts|, |ends|))
    else if starts[0] >= ends[0] then Err(MalformedMarkers(starts[0], ends[0]))
    else Ok(Some(Pair(starts[0], ends[0])))
  }

  /** One start marker, later one end marker, and no other. */
  ghost predicate MarkedAt(kind: Kinds, ls: seq<string>, p: Pair) {
    && p.start < p.end < |ls|
    && kind(ls[p.start]) == StartMarker && kind(ls[p.end]) == EndMarker
    && NoMarkers(kind, ls[..p.start]) && NoMarkers(kind, ls[p.start + 1..p.end]) && NoMarkers(kind, ls[p.end + 1..])
  }

  lemma {:induction false} NoPositions(kind: Kinds, k: Kind, ls: seq<string>, offset: nat)
    requires forall l | l in ls :: kind(l) != k
    ensures Positions(kind, k, ls, offset) == []
    decreases |ls|
  {
    if ls != [] { NoPositions(kind, k, ls[1..], offset + 1); }
  }

  lemma {:induction false} OnePosition(kind: Kinds, k: Kind, ls: seq<string>, i: nat, offset: nat)
    requires i < |ls| && kind(ls[i]) == k
    requires forall j | 0 <= j < |ls| && j != i :: kind(ls[j]) != k
    ensures Positions(kind, k, ls, offset) == [offset + i]
    decreases |ls|
  {
    if i == 0 {
      NoPositions(kind, k, ls[1..], offset + 1);
    } else {
      OnePosition(kind, k, ls[1..], i - 1, offset + 1);
    }
  }

  lemma {:induction false} FindMarkersIsMarked(kind: Kinds, ls: seq<string>, p: Pair)
    requires MarkedAt(kind, ls, p)
    ensures FindMarkers(kind, ls) == Ok(Some(p))
  {
    forall j | 0 <= j < |ls| && j != p.start && j != p.end
      ensures kind(ls[j]) != StartMarker && kind(ls[j]) != EndMarker
    {
      assert ls[j] in ls[..p.start] || ls[j] in ls[p.start + 1..p.end] || ls[j] in ls[p.end + 1..] by {
        if j < p.start { assert ls[j] == ls[..p.start][j]; }
        else if j < p.end { assert ls[j] == ls[p.start + 1..p.end][j - p.start - 1]; }
        else { assert ls[j] == ls[p.end + 1..][j - p.end - 1]; }
      }
    }
    OnePosition(kind, StartMarker, ls, p.start, 0);
    OnePosition(kind, EndMarker, ls, p.end, 0);
  }

  lemma {:induction false} FindMarkersMeaning(kind: Kinds, ls: seq<string>)
    ensures var r := FindMarkers(kind, ls);
            && (r == Ok(None) <==> NoMarkers(kind, ls))
            && (forall p: Pair :: r == Ok(Some(p)) <==> MarkedAt(kind, ls, p))
  {
    PositionsMeaning(kind, StartMarker, ls, 0);
    PositionsMeaning(kind, EndMarker, ls, 0);
    var starts, ends := Positions(kind, StartMarker, ls, 0), Positions(kind, EndMarker, ls, 0);
    assert starts == [] || starts[0] in starts;
    assert ends == [] || ends[0] in ends;
    var r := FindMarkers(kind, ls);
    if r == Ok(None) {
      forall l | l in ls ensures kind(l) != StartMarker && kind(l) != EndMarker {
        var i :| 0 <= i < |ls| && ls[i] == l;
        assert i !in starts && i !in ends;
      }
    }
    forall p: Pair | r == Ok(Some(p)) ensures MarkedAt(kind, ls, p) {
      forall i | 0 <= i < |ls| && i != p.start && i != p.end
        ensures kind(ls[i]) != StartMarker && kind(ls[i]) != EndMarker
      {
        assert i !in starts && i !in ends;
      }
      assert p.start in starts && p.end in ends;
    }
    forall p | MarkedAt(kind, ls, p) ensures r == Ok(Some(p)) { FindMarkersIsMarked(kind, ls, p); }
  }

  // ---------------------------------------------------------------- first and last entry

  function FirstEntry(kind: Kinds, ls: seq<string>): (r: int)
    ensures -1 <= r < |ls|
    ensures r == -1 ==> forall i | 0 <= i < |ls| :: kind(ls[i]) != AdvEntry
    ensures r >= 0 ==> kind(ls[r]) == AdvEntry && forall i | 0 <= i < r :: kind(ls[i]) != AdvEntry
  {
    if ls == [] then -1
    else if kind(ls[0]) == AdvEntry then 0
    else var r := FirstEntry(kind, ls[1..]); if r == -1 then -1 else r + 1
  }

  function LastEntry(kind: Kinds, ls: seq<string>): (r: int)
    ensures -1 <= r < |ls|
    ensures r == -1 ==> forall i | 0 <= i < |ls| :: kind(ls[i]) != AdvEntry
    ensures r >= 0 ==> kind(ls[r]) == AdvEntry && forall i | r < i < |ls| :: kind(ls[i]) != AdvEntry
  {
    if ls == [] then -1
    else if kind(ls[|ls| - 1]) == AdvEntry then |ls| - 1
    else LastEntry(kind, ls[..|ls| - 1])
  }

  // ---------------------------------------------------------------- regenerating

  /** The marked region rewritten in its place. */
  function Replaced(kind: Kinds, ls: seq<string>, p: Pair, generated: seq<string>): seq<string>
    requires p.start < p.end < |ls|
  {
    ls[..p.start + 1] + Merge(kind, ls[p.start + 1..p.end], GroupsFrom(kind, generated, [])) + ls[p.end..]
  }

  /** The lines from the first to the last entry rewritten between new markers. */
  function Wrapped(kind: Kinds, ls: seq<string>, first: nat, last: nat, generated: seq<string>): seq<string>
    requires first <= last < |ls|
  {
    ls[..first] + [BLOCK_START] + Merge(kind, ls[first..last + 1], GroupsFrom(kind, generated, []))
    + [BLOCK_END] + ls[last + 1..]
  }

  /** The lines after a run, before the note is handled. `block` fails when the agent has no policy row. */
  function Regenerate(kind: Kinds, ls: seq<string>, block: Result<seq<string>>): Result<seq<string>> {
    match FindMarkers(kind, ls)
    case Err(e) => Err(e)
    case Ok(Some(p)) =>
      if block.Err? then Err(block.error)
      else
        PairInRange(kind, ls);
        Ok(Replaced(kind, ls, p, block.value))
    case Ok(None) =>
      var first, last := FirstEntry(kind, ls), LastEntry(kind, ls);
      if first == -1 || last == -1 then Err(NoEntryRegion)
      else if block.Err? then Err(block.error)
      else Ok(Wrapped(kind, ls, first, last, block.value))
  }

  lemma {:induction false} PairInRange(kind: Kinds, ls: seq<string>)
    ensures forall p: Pair :: FindMarkers(kind, ls) == Ok(Some(p)) ==> p.start < p.end < |ls|
  {
    FindMarkersMeaning(kind, ls);
  }

  /** The generated lines of a file are one marked block holding exactly `generated`. */
  ghost predicate Settled(kind: Kinds, ls: seq<string>, generated: seq<string>) {
    exists before, start, end, after ::
      SettledAs(kind, Select(IsOwned(kind), ls), generated, before, start, end, after)
  }

  ghost predicate SettledAs(kind: Kinds, own: seq<string>, generated: seq<string>,
                            before: seq<string>, start: string, end: string, after: seq<string>) {
    && own == before + [start] + (generated + [end] + after)
    && kind(start) == StartMarker && kind(end) == EndMarker
    && NoMarkers(kind, before) && NoMarkers(kind, after)
  }

  lemma {:induction false} SelectThree(keep: string -> bool, a: seq<string>, x: string, b: seq<string>, y: string,
                                       c: seq<string>)
    requires keep(x) && keep(y)
    ensures Select(keep, a + [x] + b + [y] + c) ==
            Select(keep, a) + [x] + (Select(keep, b) + [y] + Select(keep, c))
  {
    SelectConcat(keep, a + [x] + b + [y], c);
    SelectConcat(keep, a + [x] + b, [y]);
    SelectConcat(keep, a + [x], b);
    SelectConcat(keep, a, [x]);
  }

  lemma {:induction false} SelectDropTwo(keep: string -> bool, a: seq<string>, x: string, b: seq<string>, y: string,
                                         c: seq<string>)
    requires !keep(x) && !keep(y)
    ensures Select(keep, a + [x] + b + [y] + c) == Select(keep, a) + Select(keep, b) + Select(keep, c)
  {
    SelectConcat(keep, a + [x] + b + [y], c);
    SelectConcat(keep, a + [x] + b, [y]);
    SelectConcat(keep, a + [x], b);
    SelectConcat(keep, a, [x]);
  }

  lemma {:induction false} NoMarkersSelected(kind: Kinds, ls: seq<string>)
    requires NoMarkers(kind, ls)
    ensures NoMarkers(kind, Select(IsOwned(kind), ls))
  {
    SelectMembers(IsOwned(kind), ls);
  }

  /** What a run leaves: a settled file with the same hand-owned lines. */
  lemma {:induction false} MergedFileIsSettled(kind: Kinds, a: seq<string>, start: string, region: seq<string>,
                                               end: string, c: seq<string>, generated: seq<string>)
    requires kind(start) == StartMarker && kind(end) == EndMarker
    requires NoMarkers(kind, a) && NoMarkers(kind, region) && NoMarkers(kind, c) && AllEntries(kind, generated)
    ensures var out := a + [start] + Merge(kind, region, Singles(generated)) + [end] + c;
            && Settled(kind, out, generated)
            && Select(IsPlain(kind), out) ==
               Select(IsPlain(kind), a) + Select(IsPlain(kind), region) + Select(IsPlain(kind), c)
  {
    var merged := Merge(kind, region, Singles(generated));
    MergeKeeps(kind, region, generated);
    SelectThree(IsOwned(kind), a, start, merged, end, c);
    SelectDropTwo(IsPlain(kind), a, start, merged, end, c);
    NoMarkersSelected(kind, a);
    NoMarkersSelected(kind, c);
    assert SettledAs(kind, Select(IsOwned(kind), a + [start] + merged + [end] + c), generated,
                     Select(IsOwned(kind), a), start, end, Select(IsOwned(kind), c));
  }

  lemma {:induction false} SplitAtPair(ls: seq<string>, p: Pair, merged: seq<string>)
    requires p.start < p.end < |ls|
    ensures ls == ls[..p.start] + [ls[p.start]] + ls[p.start + 1..p.end] + [ls[p.end]] + ls[p.end + 1..]
    ensures ls[..p.start + 1] + merged + ls[p.end..] ==
            ls[..p.start] + [ls[p.start]] + merged + [ls[p.end]] + ls[p.end + 1..]
  {
    assert ls[..p.start + 1] == ls[..p.start] + [ls[p.start]];
    assert ls[p.end..] == [ls[p.end]] + ls[p.end + 1..];
  }

  lemma {:induction false} MarkedFileSettles(kind: Kinds, ls: seq<string>, p: Pair, generated: seq<string>)
    requires AllEntries(kind, generated) && MarkedAt(kind, ls, p)
    ensures var out := Replaced(kind, ls, p, generated);
            Settled(kind, out, generated) && Select(IsPlain(kind), out) == Select(IsPlain(kind), ls)
  {
    GroupsAreSingles(kind, generated);
    var a, b, c := ls[..p.start], ls[p.start + 1..p.end], ls[p.end + 1..];
    SplitAtPair(ls, p, Merge(kind, b, Singles(generated)));
    MergedFileIsSettled(kind, a, ls[p.start], b, ls[p.end], c, generated);
    SelectDropTwo(IsPlain(kind), a, ls[p.start], b, ls[p.end], c);
  }

  lemma {:induction false} FirstRunSettles(kind: Kinds, ls: seq<string>, first: nat, last: nat, generated: seq<string>)
    requires AllEntries(kind, generated) && NoMarkers(kind, ls) && first <= last < |ls|
    requires kind(BLOCK_START) == StartMarker && kind(BLOCK_END) == EndMarker
    ensures var out := Wrapped(kind, ls, first, last, generated);
            Settled(kind, out, generated) && Select(IsPlain(kind), out) == Select(IsPlain(kind), ls)
  {
    GroupsAreSingles(kind, generated);
    var a, b, c := ls[..first], ls[first..last + 1], ls[last + 1..];
    MergedFileIsSettled(kind, a, BLOCK_START, b, BLOCK_END, c, generated);
    assert ls == a + b + c;
    SelectConcat(IsPlain(kind), a + b, c);
    SelectConcat(IsPlain(kind), a, b);
  }

  lemma {:induction false} RegenerateSettles(kind: Kinds, ls: seq<string>, generated: seq<string>)
    requires AllEntries(kind, generated)
    requires kind(BLOCK_START) == StartMarker && kind(BLOCK_END) == EndMarker
    ensures var r := Regenerate(kind, ls, Ok(generated));
            r.Ok? ==> Settled(kind, r.value, generated)
                      && Select(IsPlain(kind), r.value) == Select(IsPlain(kind), ls)
  {
    FindMarkersMeaning(kind, ls);
    match FindMarkers(kind, ls)
    case Err(_) =>
    case Ok(Some(p)) =>
      MarkedFileSettles(kind, ls, p, generated);
    case Ok(None) =>
      var first, last := FirstEntry(kind, ls), LastEntry(kind, ls);
      if first >= 0 && last >= 0 {
        FirstRunSettles(kind, ls, first, last, generated);
      }
  }

  lemma {:induction false} SelectedNoMarkers(kind: Kinds, ls: seq<string>)
    requires NoMarkers(kind, Select(IsOwned(kind), ls))
    ensures NoMarkers(kind, ls)
  {
    SelectMembers(IsOwned(kind), ls);
    forall l | l in ls ensures kind(l) != StartMarker && kind(l) != EndMarker {
      if kind(l) != Plain { assert l in Select(IsOwned(kind), ls); }
    }
  }

  lemma {:induction false} SettledIsMarked(kind: Kinds, ls: seq<string>, generated: seq<string>) returns (p: Pair)
    requires AllEntries(kind, generated) && Settled(kind, ls, generated)
    ensures MarkedAt(kind, ls, p)
    ensures Select(IsOwned(kind), ls[p.start + 1..p.end]) == generated
  {
    var own := IsOwned(kind);
    var before, start, end, after :| SettledAs(kind, Select(own, ls), generated, before, start, end, after);
    var s := SelectSplit(own, ls, before, start, generated + [end] + after);
    var rest := ls[s + 1..];
    var e := SelectSplit(own, rest, generated, end, after);
    p := Pair(s, s + 1 + e);
    SelectedNoMarkers(kind, ls[..s]);
    SelectedNoMarkers(kind, rest[..e]);
    SelectedNoMarkers(kind, rest[e + 1..]);
    assert ls[p.start + 1..p.end] == rest[..e] && ls[p.end + 1..] == rest[e + 1..];
    assert ls[p.end] == end;
  }

  /** A settled file is left as it is. */
  lemma {:induction false} SettledIsFixed(kind: Kinds, ls: seq<string>, generated: seq<string>)
    requires AllEntries(kind, generated) && Settled(kind, ls, generated)
    ensures Regenerate(kind, ls, Ok(generated)) == Ok(ls)
  {
    var p := SettledIsMarked(kind, ls, generated);
    FindMarkersIsMarked(kind, ls, p);
    ReplacedIsSame(kind, ls, p, generated);
  }

  lemma {:induction false} ReplacedIsSame(kind: Kinds, ls: seq<string>, p: Pair, generated: seq<string>)
    requires AllEntries(kind, generated) && p.start < p.end < |ls|
    requires Select(IsOwned(kind), ls[p.start + 1..p.end]) == generated
    ensures Replaced(kind, ls, p, generated) == ls
  {
    GroupsAreSingles(kind, generated);
    MergeOfMerged(kind, ls[p.start + 1..p.end], generated);
    SplitAtPair(ls, p, ls[p.start + 1..p.end]);
  }

  /** A run never changes whether the first line is a hand-owned one, and which. */
  lemma {:induction false} FirstLineKept(kind: Kinds, ls: seq<string>, generated: seq<string>)
    requires ls != [] && kind(BLOCK_START) == StartMarker
    requires Regenerate(kind, ls, Ok(generated)).Ok?
    ensures var out := Regenerate(kind, ls, Ok(generated)).value;
            && out != []
            && (out[0] == ls[0] || (kind(out[0]) != Plain && kind(ls[0]) != Plain))
  {
    PairInRange(kind, ls);
  }
}
