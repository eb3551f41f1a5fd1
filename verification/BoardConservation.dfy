/** What the whole dashboard keeps: every read is on the board once, or counted there. */
module BoardConservation {
  import opened Correlation
  import opened SourceGroups
  import opened AttentionLanes
  import opened ChangeLanes
  import Sorting

  // ---------------------------------------------------------------- the cards

  function HolderWeight(m: Measure, h: Holder): nat {
    Sum(m, h.prs) + Sum(m, h.workflowRuns) + Sum(m, h.deployments)
  }

  function HolderTotal(m: Measure, holders: seq<Holder>): nat {
    if holders == [] then 0 else HolderWeight(m, holders[0]) + HolderTotal(m, holders[1..])
  }

  lemma {:induction false} GrowWeighs(m: Measure, h: Holder, t: Tagged)
    requires t.kind == Ops ==> m.read(t) == 0
    ensures HolderWeight(m, Grow(h, t)) == HolderWeight(m, h) + m.read(t)
  {
    match t.kind
    case Pull => SumAppend(m, h.prs, t);
    case WorkflowRun => SumAppend(m, h.workflowRuns, t);
    case Deployment => SumAppend(m, h.deployments, t);
    case Ops =>
  }

  lemma {:induction false} HolderTotalUpdate(m: Measure, holders: seq<Holder>, k: nat, h: Holder)
    requires k < |holders|
    ensures HolderTotal(m, holders[k := h]) + HolderWeight(m, holders[k]) ==
            HolderTotal(m, holders) + HolderWeight(m, h)
    decreases k
  {
    if k == 0 {
      assert holders[0 := h][1..] == holders[1..];
    } else {
      HolderTotalUpdate(m, holders[1..], k - 1, h);
      assert holders[k := h][1..] == holders[1..][k - 1 := h];
    }
  }

  lemma {:induction false} NothingFilled(m: Measure, entries: seq<Change>)
    ensures HolderTotal(m, FillAll(entries, [])) == 0
    decreases |entries|
  {
    if entries != [] {
      NothingFilled(m, entries[1..]);
      assert FillAll(entries, [])[1..] == FillAll(entries[1..], []);
    }
  }

  lemma {:induction false} NextLinked(m: Measure, entries: seq<Change>, init: seq<Linked>, l: Linked)
    requires DistinctIds(entries) && HasId(entries, l.changeId) && (l.tagged.kind == Ops ==> m.read(l.tagged) == 0)
    ensures HolderTotal(m, FillAll(entries, init + [l])) == HolderTotal(m, FillAll(entries, init)) + m.read(l.tagged)
  {
    FillAllNext(entries, init, l);
    var before := FillAll(entries, init);
    var i :| 0 <= i < |entries| && entries[i].id == l.changeId;
    assert before[i].change.id == l.changeId;
    var k := FindId(before, l.changeId).value;
    HolderTotalUpdate(m, before, k, Grow(before[k], l.tagged));
    GrowWeighs(m, before[k], l.tagged);
  }

  /** The cards hold exactly the linked reads. */
  lemma {:induction false} CardsHoldTheLinked(m: Measure, entries: seq<Change>, linked: seq<Linked>)
    requires DistinctIds(entries) && forall t: Tagged | t.kind == Ops :: m.read(t) == 0
    requires forall l | l in linked :: HasId(entries, l.changeId)
    ensures HolderTotal(m, FillAll(entries, linked)) == Sum(m, LinkedItems(linked))
    decreases |linked|
  {
    if linked == [] {
      NothingFilled(m, entries);
    } else {
      var n := |linked| - 1;
      var init, l := linked[..n], linked[n];
      CardsHoldTheLinked(m, entries, init);
      assert linked == init + [l];
      NextLinked(m, entries, init, l);
      assert LinkedItems(linked) == LinkedItems(init) + [l.tagged];
      SumAppend(m, LinkedItems(init), l.tagged);
    }
  }

  lemma {:induction false} LinkedIdsExist(changes: seq<Change>, all: seq<Tagged>)
    ensures forall l | l in LinkedOf(Judging(changes), all) :: HasId(changes, l.changeId)
  {
    LinkedAreJudged(Judging(changes), all);
    forall l | l in LinkedOf(Judging(changes), all) ensures HasId(changes, l.changeId) {
      assert VerdictOf(changes, l.tagged) == Link(l.changeId, l.evidence);
      var k := LinksAreUnambiguous(changes, Clues(l.tagged), false);
    }
  }

  // ---------------------------------------------------------------- the lanes

  lemma {:induction false} HolderTotalConcat(m: Measure, a: seq<Holder>, b: seq<Holder>)
    ensures HolderTotal(m, a + b) == HolderTotal(m, a) + HolderTotal(m, b)
  {
    if a == [] {
      assert a + b == b;
    } else {
      HolderTotalConcat(m, a[1..], b);
      assert (a + b)[1..] == a[1..] + b;
    }
  }

  lemma {:induction false} HolderTotalOfInsert(m: Measure, le: (Holder, Holder) -> bool, h: Holder,
                                               holders: seq<Holder>)
    ensures HolderTotal(m, Sorting.Insert(le, h, holders)) == HolderWeight(m, h) + HolderTotal(m, holders)
  {
    if holders == [] || le(h, holders[0]) {
      assert ([h] + holders)[1..] == holders;
    } else {
      HolderTotalOfInsert(m, le, h, holders[1..]);
      var rest := Sorting.Insert(le, h, holders[1..]);
      assert ([holders[0]] + rest)[1..] == rest;
    }
  }

  lemma {:induction false} HolderTotalOfSorted(m: Measure, le: (Holder, Holder) -> bool, holders: seq<Holder>)
    ensures HolderTotal(m, Sorting.SortBy(le, holders)) == HolderTotal(m, holders)
  {
    if holders != [] {
      HolderTotalOfSorted(m, le, holders[1..]);
      HolderTotalOfInsert(m, le, holders[0], Sorting.SortBy(le, holders[1..]));
    }
  }

  function InLane(m: Measure, holders: seq<Holder>, lane: Overall): nat {
    HolderTotal(m, Where(holders, OverallStatus, lane))
  }

  lemma {:induction false} NextInLane(m: Measure, init: seq<Holder>, h: Holder, lane: Overall)
    ensures InLane(m, init + [h], lane) ==
            InLane(m, init, lane) + if OverallStatus(h) == lane then HolderWeight(m, h) else 0
  {
    assert (init + [h])[..|init|] == init;
    HolderTotalConcat(m, Where(init, OverallStatus, lane), [h]);
    assert [h][1..] == [];
    var before := Where(init, OverallStatus, lane);
    assert before + [] == before;
  }

  /** The four lanes together hold what the cards hold. */
  lemma {:induction false} LanesHoldTheCards(m: Measure, holders: seq<Holder>)
    ensures InLane(m, holders, Attention) + InLane(m, holders, Running) + InLane(m, holders, ReadyLanded)
            + InLane(m, holders, Backlog) == HolderTotal(m, holders)
    decreases |holders|
  {
    if holders != [] {
      var n := |holders| - 1;
      var init, h := holders[..n], holders[n];
      assert holders == init + [h];
      LanesHoldTheCards(m, init);
      NextInLane(m, init, h, Attention);
      NextInLane(m, init, h, Running);
      NextInLane(m, init, h, ReadyLanded);
      NextInLane(m, init, h, Backlog);
      HolderTotalConcat(m, init, [h]);
      assert [h][1..] == [];
    }
  }

  /** What the board shows and counts, in all its five lanes. */
  function BoardTotal(m: Measure, lanes: Lanes): nat {
    HolderTotal(m, lanes.needsAttention) + HolderTotal(m, lanes.running) + HolderTotal(m, lanes.readyLanded)
    + HolderTotal(m, lanes.backlog) + Total(m, lanes.unmatchedSource)
  }

  lemma {:induction false} BoardIsCardsAndUnmatched(m: Measure, holders: seq<Holder>, unlinked: seq<Tagged>,
                                                    collate: (string, string) -> bool)
    ensures BoardTotal(m, Board(holders, unlinked, collate)) == HolderTotal(m, holders) + Total(m, Unmatched(unlinked))
  {
    var le := CardLe(collate);
    LanesHoldTheCards(m, holders);
    HolderTotalOfSorted(m, le, Where(holders, OverallStatus, Attention));
    HolderTotalOfSorted(m, le, Where(holders, OverallStatus, Running));
    HolderTotalOfSorted(m, le, Where(holders, OverallStatus, ReadyLanded));
    HolderTotalOfSorted(m, le, Where(holders, OverallStatus, Backlog));
  }

  // ---------------------------------------------------------------- end to end

  /** The board of a project: correlation, then lanes. */
  function BoardOf(changes: seq<Change>, all: seq<Tagged>, collate: (string, string) -> bool): Lanes {
    var judge := Judging(changes);
    Board(FillAll(Entries(changes), LinkedOf(judge, all)), UnlinkedItems(UnlinkedOf(judge, all)), collate)
  }

  /** The successes that only the summaries of the unmatched lane count. */
  function Counted(changes: seq<Change>, all: seq<Tagged>): seq<Tagged> {
    Singles(History(UnlinkedItems(UnlinkedOf(Judging(changes), all))))
  }

  lemma {:induction false} LinkedNext(m: Measure, linked: seq<Linked>, l: Linked)
    ensures Sum(m, LinkedItems(linked + [l])) == Sum(m, LinkedItems(linked)) + m.read(l.tagged)
  {
    assert LinkedItems(linked + [l]) == LinkedItems(linked) + [l.tagged];
    SumAppend(m, LinkedItems(linked), l.tagged);
  }

  lemma {:induction false} UnlinkedNext(m: Measure, unlinked: seq<Unlinked>, u: Unlinked)
    ensures Sum(m, UnlinkedItems(unlinked + [u])) == Sum(m, UnlinkedItems(unlinked)) + m.read(u.tagged)
  {
    assert UnlinkedItems(unlinked + [u]) == UnlinkedItems(unlinked) + [u.tagged];
    SumAppend(m, UnlinkedItems(unlinked), u.tagged);
  }

  /** Correlation loses nothing, however reads are counted. */
  lemma {:induction false} CorrelationKeepsSums(m: Measure, judge: Judge, all: seq<Tagged>)
    ensures Sum(m, LinkedItems(LinkedOf(judge, all))) + Sum(m, UnlinkedItems(UnlinkedOf(judge, all))) == Sum(m, all)
    decreases |all|
  {
    if all != [] {
      var n := |all| - 1;
      var init, last := all[..n], all[n];
      CorrelationKeepsSums(m, judge, init);
      var l, u := LinkedOf(judge, init), UnlinkedOf(judge, init);
      match judge(last)
      case Link(id, e) =>
        LinkedNext(m, l, Linked(last, id, e));
        assert u + [] == u;
      case Miss(reason) =>
        UnlinkedNext(m, u, Unlinked(last, reason));
        assert l + [] == l;
    }
  }

  /** However reads and summaries are counted, the board holds what was read, less the counted, plus their summaries. */
  lemma {:induction false} BoardConserves(m: Measure, changes: seq<Change>, all: seq<Tagged>,
                                          collate: (string, string) -> bool)
    requires forall t: Tagged | t.kind == Ops :: m.read(t) == 0
    ensures var singles := Counted(changes, all);
            BoardTotal(m, BoardOf(changes, all, collate)) + Sum(m, singles)
            == Sum(m, all) + Total(m, SummaryItems(TalliesOf(singles)))
  {
    var judge := Judging(changes);
    var linked, unlinked := LinkedOf(judge, all), UnlinkedItems(UnlinkedOf(judge, all));
    EntriesMean(changes);
    LinkedIdsExist(changes, all);
    CardsHoldTheLinked(m, Entries(changes), linked);
    CorrelationKeepsSums(m, judge, all);
    UnmatchedConserves(m, unlinked);
    BoardIsCardsAndUnmatched(m, FillAll(Entries(changes), linked), unlinked, collate);
  }

  /**
   * Every pull, run and deployment that was read is on the board exactly once, in one card's source lists or in the
   * unmatched lane as itself or inside a group, or else is one of the successes the summaries count.
   */
  lemma {:induction false} EveryReadIsSomewhereOnce(changes: seq<Change>, all: seq<Tagged>,
                                                    collate: (string, string) -> bool, t: Tagged)
    requires t.kind != Ops
    ensures BoardTotal(Shows(t), BoardOf(changes, all, collate)) + multiset(Counted(changes, all))[t] ==
            multiset(all)[t]
  {
    BoardConserves(Shows(t), changes, all, collate);
    SummariesShowNothing(TalliesOf(Counted(changes, all)), t);
    ShowsCounts(all, t);
    ShowsCounts(Counted(changes, all), t);
  }

  // ---------------------------------------------------------------- nothing is hidden

  /** A shown read counts one under its own key, a summary as many as it says. */
  function Accounts(key: string): Measure {
    Measure((x: Tagged) => if x.kind != Ops && SummaryKey(x) == key then 1 else 0,
            (k: string, count: nat) => if k == key then count else 0)
  }

  lemma {:induction false} SummariesOfIncrement(tallies: seq<Tally>, key: string, other: string)
    ensures Total(Accounts(other), SummaryItems(Increment(tallies, key))) ==
            Total(Accounts(other), SummaryItems(tallies)) + if key == other then 1 else 0
    decreases |tallies|
  {
    var m := Accounts(other);
    if tallies == [] {
      TotalOfOne(m, Summary(key, 1));
      assert SummaryItems([Tally(key, 1)]) == [Summary(key, 1)];
    } else {
      var first, rest := tallies[0], tallies[1..];
      SummaryCons(m, first, rest);
      assert tallies == [first] + rest;
      if first.key == key {
        SummaryCons(m, Tally(key, first.count + 1), rest);
      } else {
        SummariesOfIncrement(rest, key, other);
        SummaryCons(m, first, Increment(rest, key));
      }
    }
  }

  lemma {:induction false} SummaryCons(m: Measure, first: Tally, rest: seq<Tally>)
    ensures Total(m, SummaryItems([first] + rest)) == m.summary(first.key, first.count) + Total(m, SummaryItems(rest))
  {
    TotalOfOne(m, Summary(first.key, first.count));
    TotalConcat(m, [Summary(first.key, first.count)], SummaryItems(rest));
    assert SummaryItems([first] + rest) == [Summary(first.key, first.count)] + SummaryItems(rest);
  }

  /** The summaries say as many as they hide. */
  lemma {:induction false} SummariesAccount(singles: seq<Tagged>, key: string)
    requires forall t | t in singles :: t.kind != Ops
    ensures Total(Accounts(key), SummaryItems(TalliesOf(singles))) == Sum(Accounts(key), singles)
    decreases |singles|
  {
    if singles != [] {
      var n := |singles| - 1;
      assert singles == singles[..n] + [singles[n]];
      SummariesAccount(singles[..n], key);
      SummariesOfIncrement(TalliesOf(singles[..n]), SummaryKey(singles[n]), key);
    }
  }

  ghost predicate FirstsAreReads(piles: seq<Slot>) {
    forall s | s in piles && s.Pile? :: s.first.kind != Ops
  }

  lemma {:induction false} PutKeepsFirsts(piles: seq<Slot>, key: string, t: Tagged)
    requires FirstsAreReads(piles) && t.kind != Ops
    ensures FirstsAreReads(Put(piles, key, t))
    decreases |piles|
  {
    if piles != [] {
      assert piles == [piles[0]] + piles[1..];
      PutKeepsFirsts(piles[1..], key, t);
    }
  }

  lemma {:induction false} HistoryHasNoOps(items: seq<Tagged>)
    ensures FirstsAreReads(History(items))
  {
    if items != [] {
      var n := |items| - 1;
      HistoryHasNoOps(items[..n]);
      if IsSuccessfulHistory(items[n]) { PutKeepsFirsts(History(items[..n]), GroupKey(items[n]), items[n]); }
    }
  }

  lemma {:induction false} SinglesAreFirsts(piles: seq<Slot>)
    requires FirstsAreReads(piles)
    ensures forall t | t in Singles(piles) :: t.kind != Ops
    decreases |piles|
  {
    if piles != [] {
      assert piles == piles[..|piles| - 1] + [piles[|piles| - 1]];
      SinglesAreFirsts(piles[..|piles| - 1]);
    }
  }

  /**
   * For every status and kind the board accounts for all pulls, runs and deployments that were read: those it shows
   * and those its summaries say add up to those that were read.
   */
  lemma {:induction false} EveryReadIsAccounted(changes: seq<Change>, all: seq<Tagged>,
                                                collate: (string, string) -> bool, key: string)
    ensures BoardTotal(Accounts(key), BoardOf(changes, all, collate)) == Sum(Accounts(key), all)
  {
    BoardConserves(Accounts(key), changes, all, collate);
    var unlinked := UnlinkedItems(UnlinkedOf(Judging(changes), all));
    HistoryHasNoOps(unlinked);
    SinglesAreFirsts(History(unlinked));
    SummariesAccount(Counted(changes, all), key);
  }
}
