/** Correlating GitHub reads with changes by structural evidence. */
module Correlation {
  import opened Options

  datatype Kind = Pull | WorkflowRun | Deployment | Ops

  /** One read item with the text fields the dashboard looks at; blank fields are absent, `body` is all the rest. */
  datatype Source = Source(
    branch: Option<string>, sha: Option<string>, opsKey: Option<string>, status: Option<string>,
    title: Option<string>, ref: Option<string>, updatedAt: Option<string>, identity: string,
    recency: Option<string>, body: int)

  datatype Tagged = Tagged(kind: Kind, item: Source)

  /** What orders a change within its lane. */
  datatype Card = Card(completedGates: int, lastActivityAt: string, title: string)

  datatype Change = Change(id: string, branches: seq<string>, shas: seq<string>, opsKey: Option<string>, card: Card)

  datatype Key = Branch | Sha | OpsKey

  datatype Evidence = Evidence(key: Key, value: string)

  datatype Linked = Linked(tagged: Tagged, changeId: string, evidence: Evidence)

  datatype Reason = AmbiguousMatch | NoMatch

  datatype Unlinked = Unlinked(tagged: Tagged, reason: Reason)

  // ---------------------------------------------------------------- the index

  type Table = map<string, seq<string>>

  datatype Index = Index(branches: Table, shas: Table, ops: Table)

  function At(t: Table, key: string): seq<string> {
    if key in t then t[key] else []
  }

  function Add(t: Table, key: string, id: string): Table {
    t[key := At(t, key) + [id]]
  }

  function Lookup(index: Index, e: Evidence): seq<string> {
    match e.key
    case Branch => At(index.branches, e.value)
    case Sha => At(index.shas, e.value)
    case OpsKey => At(index.ops, e.value)
  }

  /** What a change offers under a kind of key. */
  function Offers(c: Change, key: Key): seq<string> {
    match key
    case Branch => c.branches
    case Sha => c.shas
    case OpsKey => if c.opsKey.Some? then [c.opsKey.value] else []
  }

  function Times(values: seq<string>, v: string): nat {
    multiset(values)[v]
  }

  function Repeat(id: string, n: nat): (r: seq<string>)
    ensures |r| == n
  {
    seq(n, _ => id)
  }

  /** The ids listed for a key value: each change once per time it offers the value, in order. */
  function IdsFor(changes: seq<Change>, e: Evidence): seq<string> {
    if changes == [] then []
    else
      var last := changes[|changes| - 1];
      IdsFor(changes[..|changes| - 1], e) + Repeat(last.id, Times(Offers(last, e.key), e.value))
  }

  /** Each value is listed once more for each time it is offered. */
  ghost predicate Adds(t: Table, r: Table, values: seq<string>, id: string) {
    forall v :: At(r, v) == At(t, v) + Repeat(id, Times(values, v))
  }

  lemma {:induction false} RepeatNext(id: string, values: seq<string>, last: string, v: string)
    ensures Repeat(id, Times(values + [last], v)) == Repeat(id, Times(values, v)) + if last == v then [id] else []
  {
  }

  lemma {:induction false} AddsOne(t: Table, r: Table, values: seq<string>, last: string, id: string, v: string)
    requires At(r, v) == At(t, v) + Repeat(id, Times(values, v))
    ensures At(Add(r, last, id), v) == At(t, v) + Repeat(id, Times(values + [last], v))
  {
    RepeatNext(id, values, last, v);
    var listed, more := At(t, v), Repeat(id, Times(values, v));
    assert (listed + more) + [id] == listed + (more + [id]);
  }

  lemma {:induction false} AddsNext(t: Table, r: Table, values: seq<string>, last: string, id: string)
    requires Adds(t, r, values, id)
    ensures Adds(t, Add(r, last, id), values + [last], id)
  {
    forall v ensures At(Add(r, last, id), v) == At(t, v) + Repeat(id, Times(values + [last], v)) {
      AddsOne(t, r, values, last, id, v);
    }
  }

  lemma {:induction false} AddsNothing(t: Table, id: string)
    ensures Adds(t, t, [], id)
  {
    forall v ensures At(t, v) == At(t, v) + Repeat(id, Times([], v)) {
      assert Repeat(id, 0) == [];
    }
  }

  method AddAll(t: Table, values: seq<string>, id: string) returns (r: Table)
    ensures Adds(t, r, values, id)
  {
    r := t;
    AddsNothing(t, id);
    assert values[..0] == [];
    for i := 0 to |values|
      invariant Adds(t, r, values[..i], id)
    {
      var value := values[i];
      assert values[..i + 1] == values[..i] + [value];
      AddsNext(t, r, values[..i], value, id);
      r := Add(r, value, id);
    }
    assert values[..|values|] == values;
  }

  /** The index answers every lookup with the ids of the changes that offer the value. */
  method BuildCorrelationIndex(changes: seq<Change>) returns (index: Index)
    ensures forall e :: Lookup(index, e) == IdsFor(changes, e)
  {
    index := Index(map[], map[], map[]);
    for i := 0 to |changes|
      invariant forall e :: Lookup(index, e) == IdsFor(changes[..i], e)
    {
      var c := changes[i];
      ghost var before := index;
      var branches := AddAll(index.branches, c.branches, c.id);
      var shas := AddAll(index.shas, c.shas, c.id);
      var ops := AddAll(index.ops, Offers(c, OpsKey), c.id);
      index := Index(branches, shas, ops);
      assert changes[..i + 1][..i] == changes[..i];
      forall e ensures Lookup(index, e) == IdsFor(changes[..i + 1], e) {
        assert Lookup(index, e) == Lookup(before, e) + Repeat(c.id, Times(Offers(c, e.key), e.value));
      }
    }
    assert changes[..|changes|] == changes;
  }

  // ---------------------------------------------------------------- one item

  function Clue(key: Key, value: Option<string>): seq<Evidence> {
    if value.Some? then [Evidence(key, value.value)] else []
  }

  function Clues(t: Tagged): seq<Evidence> {
    if t.kind == Ops then Clue(OpsKey, t.item.opsKey)
    else Clue(Branch, t.item.branch) + Clue(Sha, t.item.sha)
  }

  datatype Verdict = Link(changeId: string, evidence: Evidence) | Miss(reason: Reason)

  /** The first clue that names exactly one change wins. */
  function VerdictFrom(changes: seq<Change>, clues: seq<Evidence>, ambiguous: bool): Verdict {
    if clues == [] then Miss(if ambiguous then AmbiguousMatch else NoMatch)
    else
      var ids := IdsFor(changes, clues[0]);
      if |ids| == 1 then Link(ids[0], clues[0])
      else VerdictFrom(changes, clues[1..], ambiguous || |ids| > 1)
  }

  function VerdictOf(changes: seq<Change>, t: Tagged): Verdict {
    VerdictFrom(changes, Clues(t), false)
  }

  method CorrelateOne(ghost changes: seq<Change>, index: Index, t: Tagged) returns (v: Verdict)
    requires forall e :: Lookup(index, e) == IdsFor(changes, e)
    ensures v == VerdictOf(changes, t)
  {
    var clues := Clues(t);
    var sawAmbiguous := false;
    assert clues[0..] == clues;
    for i := 0 to |clues|
      invariant VerdictOf(changes, t) == VerdictFrom(changes, clues[i..], sawAmbiguous)
    {
      assert clues[i..][1..] == clues[i + 1..];
      var matches := Lookup(index, clues[i]);
      if |matches| == 1 { return Link(matches[0], clues[i]); }
      if |matches| > 1 { sawAmbiguous := true; }
    }
    return Miss(if sawAmbiguous then AmbiguousMatch else NoMatch);
  }

  // ---------------------------------------------------------------- all items

  type Judge = Tagged -> Verdict

  function Judging(changes: seq<Change>): Judge {
    t => VerdictOf(changes, t)
  }

  function LinkedOf(judge: Judge, items: seq<Tagged>): seq<Linked> {
    if items == [] then []
    else
      var last := items[|items| - 1];
      LinkedOf(judge, items[..|items| - 1])
      + match judge(last)
        case Link(id, e) => [Linked(last, id, e)]
        case Miss(_) => []
  }

  function UnlinkedOf(judge: Judge, items: seq<Tagged>): seq<Unlinked> {
    if items == [] then []
    else
      var last := items[|items| - 1];
      UnlinkedOf(judge, items[..|items| - 1])
      + match judge(last)
        case Link(_, _) => []
        case Miss(reason) => [Unlinked(last, reason)]
  }

  lemma {:induction false} NextItem(judge: Judge, items: seq<Tagged>, i: nat)
    requires i < |items|
    ensures LinkedOf(judge, items[..i + 1]) ==
            LinkedOf(judge, items[..i])
            + match judge(items[i]) case Link(id, e) => [Linked(items[i], id, e)] case Miss(_) => []
    ensures UnlinkedOf(judge, items[..i + 1]) ==
            UnlinkedOf(judge, items[..i])
            + match judge(items[i]) case Link(_, _) => [] case Miss(r) => [Unlinked(items[i], r)]
  {
    assert items[..i + 1][..i] == items[..i];
  }

  function Tag(kind: Kind, items: seq<Source>): (r: seq<Tagged>)
    ensures |r| == |items|
  {
    seq(|items|, i requires 0 <= i < |items| => Tagged(kind, items[i]))
  }

  method CorrelateDashboardItems(changes: seq<Change>, pulls: seq<Source>, workflowRuns: seq<Source>,
                                 deployments: seq<Source>, ops: seq<Source>)
    returns (linked: seq<Linked>, unlinked: seq<Unlinked>)
    ensures var all := Tag(Pull, pulls) + Tag(WorkflowRun, workflowRuns) + Tag(Deployment, deployments) + Tag(Ops, ops);
            linked == LinkedOf(Judging(changes), all) && unlinked == UnlinkedOf(Judging(changes), all)
  {
    var index := BuildCorrelationIndex(changes);
    var all := Tag(Pull, pulls) + Tag(WorkflowRun, workflowRuns) + Tag(Deployment, deployments) + Tag(Ops, ops);
    linked, unlinked := [], [];
    for i := 0 to |all|
      invariant linked == LinkedOf(Judging(changes), all[..i]) && unlinked == UnlinkedOf(Judging(changes), all[..i])
    {
      NextItem(Judging(changes), all, i);
      var v := CorrelateOne(changes, index, all[i]);
      assert Judging(changes)(all[i]) == v;
      match v
      case Link(id, e) => linked := linked + [Linked(all[i], id, e)];
      case Miss(reason) => unlinked := unlinked + [Unlinked(all[i], reason)];
    }
    assert all[..|all|] == all;
  }

  // ---------------------------------------------------------------- nothing is lost, and links are unambiguous

  function LinkedItems(linked: seq<Linked>): (r: seq<Tagged>)
    ensures |r| == |linked|
  {
    seq(|linked|, i requires 0 <= i < |linked| => linked[i].tagged)
  }

  function UnlinkedItems(unlinked: seq<Unlinked>): (r: seq<Tagged>)
    ensures |r| == |unlinked|
  {
    seq(|unlinked|, i requires 0 <= i < |unlinked| => unlinked[i].tagged)
  }

  /** Every item is linked or unlinked, once. */
  lemma {:induction false} CorrelationConserves(judge: Judge, items: seq<Tagged>)
    ensures multiset(LinkedItems(LinkedOf(judge, items))) + multiset(UnlinkedItems(UnlinkedOf(judge, items)))
            == multiset(items)
  {
    if items != [] {
      var n := |items| - 1;
      var init, last := items[..n], items[n];
      CorrelationConserves(judge, init);
      assert items == init + [last];
      var l, u := LinkedOf(judge, init), UnlinkedOf(judge, init);
      match judge(last)
      case Link(id, e) =>
        assert LinkedItems(l + [Linked(last, id, e)]) == LinkedItems(l) + [last];
        assert u + [] == u;
      case Miss(reason) =>
        assert UnlinkedItems(u + [Unlinked(last, reason)]) == UnlinkedItems(u) + [last];
        assert l + [] == l;
    }
  }

  /** Each linked record carries the verdict on its own item. */
  lemma {:induction false} LinkedAreJudged(judge: Judge, items: seq<Tagged>)
    ensures forall l | l in LinkedOf(judge, items) ::
              l.tagged in items && judge(l.tagged) == Link(l.changeId, l.evidence)
  {
    if items != [] {
      var n := |items| - 1;
      LinkedAreJudged(judge, items[..n]);
      assert items == items[..n] + [items[n]];
    }
  }

  /** A list of exactly one id means one change offers the value, once, and no other change offers it. */
  lemma {:induction false} OneIdMeansOneChange(changes: seq<Change>, e: Evidence) returns (k: nat)
    requires |IdsFor(changes, e)| == 1
    ensures k < |changes| && IdsFor(changes, e) == [changes[k].id]
    ensures forall i | 0 <= i < |changes| :: Times(Offers(changes[i], e.key), e.value) == if i == k then 1 else 0
  {
    var n := |changes| - 1;
    var init, last := changes[..n], changes[n];
    var here := Times(Offers(last, e.key), e.value);
    var ids, before := IdsFor(changes, e), IdsFor(init, e);
    assert ids == before + Repeat(last.id, here);
    assert forall i | 0 <= i < n :: init[i] == changes[i];
    if here == 0 {
      assert ids == before;
      k := OneIdMeansOneChange(init, e);
    } else {
      k := n;
      assert |before| == 0 && here == 1;
      NoIdMeansNoChange(init, e);
      assert ids == [last.id];
    }
  }

  lemma {:induction false} NoIdMeansNoChange(changes: seq<Change>, e: Evidence)
    ensures IdsFor(changes, e) == [] <==>
            forall i | 0 <= i < |changes| :: Times(Offers(changes[i], e.key), e.value) == 0
  {
    if changes != [] {
      var n := |changes| - 1;
      NoIdMeansNoChange(changes[..n], e);
      assert forall i | 0 <= i < n :: changes[..n][i] == changes[i];
    }
  }

  /** A linked item shares a clue with its change, and with no other change. */
  lemma {:induction false} LinksAreUnambiguous(changes: seq<Change>, clues: seq<Evidence>, ambiguous: bool)
    returns (k: nat)
    requires VerdictFrom(changes, clues, ambiguous).Link?
    ensures var v := VerdictFrom(changes, clues, ambiguous);
            && k < |changes| && v.changeId == changes[k].id && v.evidence in clues
            && forall i | 0 <= i < |changes| ::
                 v.evidence.value in Offers(changes[i], v.evidence.key) <==> i == k
    decreases |clues|
  {
    if |IdsFor(changes, clues[0])| == 1 {
      k := OneIdMeansOneChange(changes, clues[0]);
      var e := clues[0];
      forall i | 0 <= i < |changes| ensures e.value in Offers(changes[i], e.key) <==> i == k {
        assert e.value in multiset(Offers(changes[i], e.key)) <==> Times(Offers(changes[i], e.key), e.value) > 0;
      }
    } else {
      k := LinksAreUnambiguous(changes, clues[1..], ambiguous || |IdsFor(changes, clues[0])| > 1);
    }
  }

  /** How many ids a clue is listed with. */
  function Listed(changes: seq<Change>, e: Evidence): nat {
    |IdsFor(changes, e)|
  }

  /** An item stays unlinked exactly when none of its clues is listed once; it is ambiguous when some is listed more. */
  lemma {:induction false} MissMeans(changes: seq<Change>, clues: seq<Evidence>, ambiguous: bool)
    ensures VerdictFrom(changes, clues, ambiguous).Miss? <==>
            forall i | 0 <= i < |clues| :: Listed(changes, clues[i]) != 1
    ensures var v := VerdictFrom(changes, clues, ambiguous);
            v.Miss? ==> (v.reason == AmbiguousMatch <==>
                           ambiguous || exists i | 0 <= i < |clues| :: Listed(changes, clues[i]) > 1)
    decreases |clues|
  {
    if clues != [] {
      var rest, n := clues[1..], Listed(changes, clues[0]);
      MissMeans(changes, rest, ambiguous || n > 1);
      assert forall i | 1 <= i < |clues| :: clues[i] == rest[i - 1];
      if forall i | 0 <= i < |rest| :: Listed(changes, rest[i]) != 1 {
        assert forall i | 1 <= i < |clues| :: Listed(changes, clues[i]) != 1;
      }
      if i :| 0 <= i < |rest| && Listed(changes, rest[i]) == 1 { assert clues[i + 1] == rest[i]; }
      if i :| 0 <= i < |rest| && Listed(changes, rest[i]) > 1 { assert clues[i + 1] == rest[i]; }
    }
  }

  // ---------------------------------------------------------------- clues that one change offers

  /** How many changes offer a clue. */
  function Offering(changes: seq<Change>, e: Evidence): nat {
    if changes == [] then 0
    else
      var last := changes[|changes| - 1];
      Offering(changes[..|changes| - 1], e) + if e.value in Offers(last, e.key) then 1 else 0
  }

  /** No change offers the clue twice. */
  ghost predicate OfferedOnce(changes: seq<Change>, e: Evidence) {
    forall i | 0 <= i < |changes| :: Times(Offers(changes[i], e.key), e.value) <= 1
  }

  /** A clue is listed once per change that offers it exactly when no change offers it twice. */
  lemma {:induction false} ListedCountsChanges(changes: seq<Change>, e: Evidence)
    ensures Offering(changes, e) <= Listed(changes, e)
    ensures Offering(changes, e) == 0 <==> Listed(changes, e) == 0
    ensures Offering(changes, e) == Listed(changes, e) <==> OfferedOnce(changes, e)
  {
    if changes != [] {
      var n := |changes| - 1;
      var init, last := changes[..n], changes[n];
      ListedCountsChanges(init, e);
      assert forall i | 0 <= i < n :: init[i] == changes[i];
      assert e.value in Offers(last, e.key) <==> Times(Offers(last, e.key), e.value) > 0;
      assert OfferedOnce(changes, e) <==> OfferedOnce(init, e) && Times(Offers(last, e.key), e.value) <= 1;
    }
  }

  /** An item is linked exactly when one of its clues is offered by one change only, and by that change only once. */
  lemma {:induction false} LinkedWhenOneChangeOffers(changes: seq<Change>, t: Tagged)
    ensures VerdictOf(changes, t).Link? <==>
            exists i | 0 <= i < |Clues(t)| :: Offering(changes, Clues(t)[i]) == 1 && OfferedOnce(changes, Clues(t)[i])
  {
    var clues := Clues(t);
    MissMeans(changes, clues, false);
    forall i | 0 <= i < |clues|
      ensures Listed(changes, clues[i]) == 1 <==> Offering(changes, clues[i]) == 1 && OfferedOnce(changes, clues[i])
    {
      ListedCountsChanges(changes, clues[i]);
    }
  }

  /** The ids listed for a branch, a commit, an operations key; none for a missing one. */
  function IdsOf(changes: seq<Change>, key: Key, value: Option<string>): seq<string> {
    if value.Some? then IdsFor(changes, Evidence(key, value.value)) else []
  }

  /**
   * A pull, run or deployment is linked by its branch when that is listed once, or else by its commit when that is;
   * otherwise it is ambiguous exactly when one of the two is listed more than once.
   */
  lemma {:induction false} BranchThenCommit(changes: seq<Change>, t: Tagged)
    requires t.kind != Ops
    ensures var byBranch, bySha := IdsOf(changes, Branch, t.item.branch), IdsOf(changes, Sha, t.item.sha);
            VerdictOf(changes, t) ==
            if |byBranch| == 1 then Link(byBranch[0], Evidence(Branch, t.item.branch.value))
            else if |bySha| == 1 then Link(bySha[0], Evidence(Sha, t.item.sha.value))
            else Miss(if |byBranch| > 1 || |bySha| > 1 then AmbiguousMatch else NoMatch)
  {
    TwoClues(changes, Clue(Branch, t.item.branch), Clue(Sha, t.item.sha));
  }

  lemma {:induction false} TwoClues(changes: seq<Change>, first: seq<Evidence>, second: seq<Evidence>)
    requires |first| <= 1 && |second| <= 1
    ensures var a := if first == [] then [] else IdsFor(changes, first[0]);
            var b := if second == [] then [] else IdsFor(changes, second[0]);
            VerdictFrom(changes, first + second, false) ==
            if |a| == 1 then Link(a[0], first[0])
            else if |b| == 1 then Link(b[0], second[0])
            else Miss(if |a| > 1 || |b| > 1 then AmbiguousMatch else NoMatch)
  {
    var all := first + second;
    if first == [] {
      assert all == second;
      LastClue(changes, second, false);
    } else {
      assert all[0] == first[0] && all[1..] == second;
      LastClue(changes, second, |IdsFor(changes, first[0])| > 1);
    }
  }

  lemma {:induction false} LastClue(changes: seq<Change>, clues: seq<Evidence>, ambiguous: bool)
    requires |clues| <= 1
    ensures var ids := if clues == [] then [] else IdsFor(changes, clues[0]);
            VerdictFrom(changes, clues, ambiguous) ==
            if |ids| == 1 then Link(ids[0], clues[0])
            else Miss(if ambiguous || |ids| > 1 then AmbiguousMatch else NoMatch)
  {
    if clues != [] { assert clues[1..] == []; }
  }

  /** An operations item is linked by its key alone. */
  lemma {:induction false} OpsByKey(changes: seq<Change>, t: Tagged)
    requires t.kind == Ops
    ensures var byKey := IdsOf(changes, OpsKey, t.item.opsKey);
            VerdictOf(changes, t) ==
            if |byKey| == 1 then Link(byKey[0], Evidence(OpsKey, t.item.opsKey.value))
            else Miss(if |byKey| > 1 then AmbiguousMatch else NoMatch)
  {
    TwoClues(changes, Clue(OpsKey, t.item.opsKey), []);
    assert Clues(t) + [] == Clues(t);
  }
}
