/** Change cards, their lanes, and what the whole dashboard keeps. */
module ChangeLanes {
  import opened Options
  import opened Correlation
  import opened SourceGroups
  import opened AttentionLanes
  import Sorting

  /** A change with the reads linked to it. */
  datatype Holder = Holder(change: Change, prs: seq<Tagged>, workflowRuns: seq<Tagged>, deployments: seq<Tagged>)

  // ---------------------------------------------------------------- registering changes

  /** Setting an id again keeps its place and takes the later change. */
  function Register(entries: seq<Change>, c: Change): seq<Change> {
    if entries == [] then [c]
    else if entries[0].id == c.id then [c] + entries[1..]
    else [entries[0]] + Register(entries[1..], c)
  }

  function Entries(changes: seq<Change>): seq<Change> {
    if changes == [] then [] else Register(Entries(changes[..|changes| - 1]), changes[|changes| - 1])
  }

  ghost predicate DistinctIds(changes: seq<Change>) {
    forall i, j | 0 <= i < j < |changes| :: changes[i].id != changes[j].id
  }

  predicate HasId(changes: seq<Change>, id: string) {
    exists i | 0 <= i < |changes| :: changes[i].id == id
  }

  lemma {:induction false} HasIdSplit(changes: seq<Change>, id: string)
    requires changes != []
    ensures HasId(changes, id) <==> changes[0].id == id || HasId(changes[1..], id)
  {
    if i :| 0 <= i < |changes| && changes[i].id == id {
      if i > 0 { assert changes[1..][i - 1].id == id; }
    }
    if i :| 0 <= i < |changes| - 1 && changes[1..][i].id == id { assert changes[i + 1].id == id; }
  }

  lemma {:induction false} RegisterKeepsIds(entries: seq<Change>, c: Change, id: string)
    ensures HasId(Register(entries, c), id) <==> HasId(entries, id) || id == c.id
    decreases |entries|
  {
    var r := Register(entries, c);
    HasIdSplit(r, id);
    if entries == [] {
      assert r[1..] == [];
    } else {
      var rest := entries[1..];
      HasIdSplit(entries, id);
      if entries[0].id == c.id {
        assert r[1..] == rest;
      } else {
        assert r[1..] == Register(rest, c);
        RegisterKeepsIds(rest, c, id);
      }
    }
  }

  lemma {:induction false} RegisterKeepsDistinct(entries: seq<Change>, c: Change)
    requires DistinctIds(entries)
    ensures DistinctIds(Register(entries, c))
    decreases |entries|
  {
    if entries != [] && entries[0].id != c.id {
      var first, rest := entries[0], entries[1..];
      var tail := Register(rest, c);
      RegisterKeepsDistinct(rest, c);
      RegisterKeepsIds(rest, c, first.id);
      assert !HasId(tail, first.id);
      forall j | 0 <= j < |tail| ensures tail[j].id != first.id { }
    }
  }

  lemma {:induction false} RegisterMeans(entries: seq<Change>, c: Change)
    requires DistinctIds(entries)
    ensures var r := Register(entries, c);
            && DistinctIds(r) && (forall id :: HasId(r, id) <==> HasId(entries, id) || id == c.id)
            && |r| == |entries| + (if HasId(entries, c.id) then 0 else 1)
            && (!HasId(entries, c.id) ==> r == entries + [c])
  {
    RegisterKeepsDistinct(entries, c);
    forall id ensures HasId(Register(entries, c), id) <==> HasId(entries, id) || id == c.id {
      RegisterKeepsIds(entries, c, id);
    }
    RegisterSize(entries, c);
  }

  lemma {:induction false} RegisterSize(entries: seq<Change>, c: Change)
    ensures var r := Register(entries, c);
            if HasId(entries, c.id) then |r| == |entries| else r == entries + [c]
    decreases |entries|
  {
    if entries != [] {
      HasIdSplit(entries, c.id);
      if entries[0].id != c.id {
        RegisterSize(entries[1..], c);
        assert entries == [entries[0]] + entries[1..];
      }
    }
  }

  lemma {:induction false} HasIdLast(changes: seq<Change>, c: Change, id: string)
    ensures HasId(changes + [c], id) <==> HasId(changes, id) || id == c.id
  {
    var all := changes + [c];
    assert all[|changes|].id == c.id;
    if i :| 0 <= i < |changes| && changes[i].id == id { assert all[i].id == id; }
    if i :| 0 <= i < |all| && all[i].id == id { assert i < |changes| ==> changes[i].id == id; }
  }

  lemma {:induction false} DistinctLast(changes: seq<Change>, c: Change)
    ensures DistinctIds(changes + [c]) <==> DistinctIds(changes) && !HasId(changes, c.id)
  {
    var all := changes + [c];
    assert forall i | 0 <= i < |changes| :: all[i] == changes[i];
    assert all[|changes|] == c;
    if DistinctIds(all) {
      assert forall i | 0 <= i < |changes| :: all[i].id != all[|changes|].id;
    }
    if i, j :| 0 <= i < j < |changes| && changes[i].id == changes[j].id { assert all[i].id == all[j].id; }
    if i :| 0 <= i < |changes| && changes[i].id == c.id { assert all[i].id == all[|changes|].id; }
  }

  lemma {:induction false} NextEntry(init: seq<Change>, entries: seq<Change>, c: Change)
    requires DistinctIds(entries) && |entries| <= |init|
    requires forall id :: HasId(entries, id) <==> HasId(init, id)
    requires DistinctIds(init) <==> |entries| == |init|
    ensures var r := Register(entries, c);
            && DistinctIds(r) && |r| <= |init| + 1
            && (forall id :: HasId(r, id) <==> HasId(init + [c], id))
            && (DistinctIds(init + [c]) <==> |r| == |init| + 1)
            && (DistinctIds(init + [c]) ==> r == entries + [c])
  {
    RegisterMeans(entries, c);
    forall id ensures HasId(init + [c], id) <==> HasId(init, id) || id == c.id { HasIdLast(init, c, id); }
    DistinctLast(init, c);
  }

  /** The entries have each id once, and are the changes themselves exactly when no id repeats. */
  lemma {:induction false} EntriesMean(changes: seq<Change>)
    ensures DistinctIds(Entries(changes)) && |Entries(changes)| <= |changes|
    ensures forall id :: HasId(Entries(changes), id) <==> HasId(changes, id)
    ensures DistinctIds(changes) <==> |Entries(changes)| == |changes|
    ensures DistinctIds(changes) ==> Entries(changes) == changes
    decreases |changes|
  {
    if changes != [] {
      var n := |changes| - 1;
      var init, c := changes[..n], changes[n];
      EntriesMean(init);
      NextEntry(init, Entries(init), c);
      assert changes == init + [c];
      if DistinctIds(changes) { DistinctLast(init, c); }
    }
  }

  // ---------------------------------------------------------------- filling the holders

  /** The items of one kind linked to an id, in order. */
  function Of(linked: seq<Linked>, id: string, kind: Kind): seq<Tagged> {
    if linked == [] then []
    else
      var last := linked[|linked| - 1];
      Of(linked[..|linked| - 1], id, kind)
      + if last.changeId == id && last.tagged.kind == kind then [last.tagged] else []
  }

  function Fill(c: Change, linked: seq<Linked>): Holder {
    Holder(c, Of(linked, c.id, Pull), Of(linked, c.id, WorkflowRun), Of(linked, c.id, Deployment))
  }

  function FillAll(entries: seq<Change>, linked: seq<Linked>): (r: seq<Holder>)
    ensures |r| == |entries|
  {
    seq(|entries|, i requires 0 <= i < |entries| => Fill(entries[i], linked))
  }

  function Grow(h: Holder, t: Tagged): Holder {
    match t.kind
    case Pull => h.(prs := h.prs + [t])
    case WorkflowRun => h.(workflowRuns := h.workflowRuns + [t])
    case Deployment => h.(deployments := h.deployments + [t])
    case Ops => h
  }

  function FindId(holders: seq<Holder>, id: string): (r: Option<nat>)
    ensures r.Some? ==> r.value < |holders| && holders[r.value].change.id == id
    ensures r.None? ==> forall i | 0 <= i < |holders| :: holders[i].change.id != id
  {
    if holders == [] then None
    else if holders[0].change.id == id then Some(0)
    else
      match FindId(holders[1..], id)
      case None =>
        assert forall i | 1 <= i < |holders| :: holders[i] == holders[1..][i - 1];
        None
      case Some(k) => Some(k + 1)
  }

  lemma {:induction false} FillNext(c: Change, linked: seq<Linked>, l: Linked)
    ensures Fill(c, linked + [l]) == if c.id == l.changeId then Grow(Fill(c, linked), l.tagged) else Fill(c, linked)
  {
    assert (linked + [l])[..|linked|] == linked;
  }

  lemma {:induction false} FillAllNext(entries: seq<Change>, linked: seq<Linked>, l: Linked)
    requires DistinctIds(entries)
    ensures var before, after := FillAll(entries, linked), FillAll(entries, linked + [l]);
            match FindId(before, l.changeId)
            case None => after == before
            case Some(k) => after == before[k := Grow(before[k], l.tagged)]
  {
    var before, after := FillAll(entries, linked), FillAll(entries, linked + [l]);
    forall i | 0 <= i < |entries|
      ensures after[i] == if entries[i].id == l.changeId then Grow(before[i], l.tagged) else before[i]
      ensures before[i].change == entries[i]
    {
      FillNext(entries[i], linked, l);
    }
  }

  method BuildChangeStatusItems(changes: seq<Change>, linked: seq<Linked>) returns (holders: seq<Holder>)
    ensures holders == FillAll(Entries(changes), linked)
  {
    var entries: seq<Change> := [];
    for i := 0 to |changes|
      invariant entries == Entries(changes[..i])
    {
      assert changes[..i + 1][..i] == changes[..i];
      entries := Register(entries, changes[i]);
    }
    assert changes[..|changes|] == changes;
    EntriesMean(changes);
    holders := FillAll(entries, []);
    for i := 0 to |linked|
      invariant holders == FillAll(entries, linked[..i])
    {
      FillAllNext(entries, linked[..i], linked[i]);
      assert linked[..i + 1] == linked[..i] + [linked[i]];
      var k := FindId(holders, linked[i].changeId);
      if k.None? { continue; }
      holders := holders[k.value := Grow(holders[k.value], linked[i].tagged)];
    }
    assert linked[..|linked|] == linked;
  }

  // ---------------------------------------------------------------- the latest item of each source decides

  function Recency(t: Tagged): Option<string> {
    t.item.recency
  }

  function Latest(items: seq<Tagged>): map<string, Tagged> {
    if items == [] then map[]
    else
      var before, last := Latest(items[..|items| - 1]), items[|items| - 1];
      var key := last.item.identity;
      if key !in before || Newer(Recency(last), Recency(before[key])) then before[key := last] else before
  }

  method LatestBySourceIdentity(items: seq<Tagged>) returns (latest: map<string, Tagged>)
    ensures latest == Latest(items)
  {
    latest := map[];
    for i := 0 to |items|
      invariant latest == Latest(items[..i])
    {
      assert items[..i + 1][..i] == items[..i];
      var key := items[i].item.identity;
      if key !in latest || Newer(Recency(items[i]), Recency(latest[key])) { latest := latest[key := items[i]]; }
    }
    assert items[..|items|] == items;
  }

  function WithIdentity(items: seq<Tagged>, key: string): seq<Tagged> {
    if items == [] then []
    else
      var last := items[|items| - 1];
      WithIdentity(items[..|items| - 1], key) + if last.item.identity == key then [last] else []
  }

  /** For every source the map holds the first of its latest items. */
  lemma {:induction false} LatestMeans(items: seq<Tagged>, key: string)
    ensures key in Latest(items) <==> WithIdentity(items, key) != []
    ensures key in Latest(items) ==> Latest(items)[key] == Newest(WithIdentity(items, key), Recency)
    decreases |items|
  {
    if items != [] {
      var n := |items| - 1;
      var last := items[n];
      var before := WithIdentity(items[..n], key);
      LatestMeans(items[..n], key);
      if last.item.identity == key {
        assert (before + [last])[..|before|] == before;
      } else {
        assert before + [] == before;
      }
    }
  }

  const FAILING: seq<string> := ["failure", "failed", "error", "cancelled", "timed_out", "stale", "degraded"]
  const RUNNING: seq<string> := ["queued", "requested", "waiting", "pending", "in_progress", "running"]
  const READY: seq<string> := ["success", "skipped", "inactive", "success_history"]

  predicate AnyLatest(latest: map<string, Tagged>, statuses: seq<string>) {
    exists k | k in latest :: HasStatus(latest[k], statuses)
  }

  predicate Shown(h: Holder, statuses: seq<string>) {
    AnyLatest(Latest(h.workflowRuns), statuses) || AnyLatest(Latest(h.deployments), statuses)
  }

  datatype Overall = Attention | Running | ReadyLanded | Backlog

  function OverallStatus(h: Holder): Overall {
    if Shown(h, FAILING) then Attention
    else if Shown(h, RUNNING) then Running
    else if Shown(h, READY) then ReadyLanded
    else Backlog
  }

  // ---------------------------------------------------------------- lanes

  function Where(holders: seq<Holder>, overall: Holder -> Overall, lane: Overall): seq<Holder> {
    if holders == [] then []
    else
      var last := holders[|holders| - 1];
      Where(holders[..|holders| - 1], overall, lane) + if overall(last) == lane then [last] else []
  }

  /** `compareChangeStatusItems` at most zero, for a given collation of texts. */
  function CardLe(collate: (string, string) -> bool): (Holder, Holder) -> bool {
    (a: Holder, b: Holder) =>
      var x, y := a.change.card, b.change.card;
      if x.completedGates != y.completedGates then x.completedGates > y.completedGates
      else if x.lastActivityAt != y.lastActivityAt then collate(y.lastActivityAt, x.lastActivityAt)
      else if !(collate(x.title, y.title) && collate(y.title, x.title)) then collate(x.title, y.title)
      else collate(a.change.id, b.change.id)
  }

  datatype Lanes = Lanes(
    needsAttention: seq<Holder>, running: seq<Holder>, readyLanded: seq<Holder>, backlog: seq<Holder>,
    unmatchedSource: seq<LaneItem>)

  function LaneOf(holders: seq<Holder>, lane: Overall, collate: (string, string) -> bool): seq<Holder> {
    Sorting.SortBy(CardLe(collate), Where(holders, OverallStatus, lane))
  }

  method FilterLane(holders: seq<Holder>, lane: Overall, collate: (string, string) -> bool) returns (r: seq<Holder>)
    ensures r == LaneOf(holders, lane, collate)
  {
    r := [];
    for i := 0 to |holders|
      invariant r == Where(holders[..i], OverallStatus, lane)
    {
      assert holders[..i + 1][..i] == holders[..i];
      var runs := LatestBySourceIdentity(holders[i].workflowRuns);
      var deployments := LatestBySourceIdentity(holders[i].deployments);
      var overall :=
        if AnyLatest(runs, FAILING) || AnyLatest(deployments, FAILING) then Attention
        else if AnyLatest(runs, RUNNING) || AnyLatest(deployments, RUNNING) then Running
        else if AnyLatest(runs, READY) || AnyLatest(deployments, READY) then ReadyLanded
        else Backlog;
      assert overall == OverallStatus(holders[i]);
      if overall == lane { r := r + [holders[i]]; }
    }
    assert holders[..|holders|] == holders;
    r := Sorting.SortBy(CardLe(collate), r);
  }

  function Board(holders: seq<Holder>, unlinked: seq<Tagged>, collate: (string, string) -> bool): Lanes {
    Lanes(LaneOf(holders, Attention, collate), LaneOf(holders, Running, collate),
          LaneOf(holders, ReadyLanded, collate), LaneOf(holders, Backlog, collate), Unmatched(unlinked))
  }

  method BuildAttentionLanes(changes: seq<Change>, linked: seq<Linked>, unlinked: seq<Unlinked>,
                             collate: (string, string) -> bool) returns (lanes: Lanes)
    ensures lanes == Board(FillAll(Entries(changes), linked), UnlinkedItems(unlinked), collate)
  {
    var holders := BuildChangeStatusItems(changes, linked);
    var unmatched := BuildUnmatchedSource(UnlinkedItems(unlinked));
    var attention := FilterLane(holders, Attention, collate);
    var running := FilterLane(holders, Running, collate);
    var ready := FilterLane(holders, ReadyLanded, collate);
    var backlog := FilterLane(holders, Backlog, collate);
    lanes := Lanes(attention, running, ready, backlog, unmatched);
  }

  // ---------------------------------------------------------------- every change in one lane

  lemma {:induction false} WhereCounts(holders: seq<Holder>, overall: Holder -> Overall, lane: Overall, h: Holder)
    ensures multiset(Where(holders, overall, lane))[h] == if overall(h) == lane then multiset(holders)[h] else 0
    decreases |holders|
  {
    if holders != [] {
      var n := |holders| - 1;
      WhereCounts(holders[..n], overall, lane, h);
      assert holders == holders[..n] + [holders[n]];
    }
  }

  /** A card stands in the lane of its own overall status, as often as it exists, and in no other lane. */
  lemma {:induction false} LanesPartitionCards(holders: seq<Holder>, collate: (string, string) -> bool, lane: Overall,
                                               h: Holder)
    ensures multiset(LaneOf(holders, lane, collate))[h] == if OverallStatus(h) == lane then multiset(holders)[h] else 0
  {
    Sorting.SortByIsSortedPermutation(CardLe(collate), Where(holders, OverallStatus, lane));
    WhereCounts(holders, OverallStatus, lane, h);
  }

  /** As many cards as changes stand in the lanes exactly when no id repeats, and then the cards are the changes. */
  lemma {:induction false} EveryChangeHasOneCard(changes: seq<Change>, linked: seq<Linked>)
    ensures var holders := FillAll(Entries(changes), linked);
            && (DistinctIds(changes) <==> |holders| == |changes|)
            && (DistinctIds(changes) ==> forall i | 0 <= i < |changes| :: holders[i].change == changes[i])
  {
    EntriesMean(changes);
  }
}
