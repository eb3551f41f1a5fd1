/** The dashboard's lanes: change cards with their sources, and the unmatched reads. */
module AttentionLanes {
  import opened Options
  import opened Correlation
  import opened SourceGroups
  import Sorting

  // ---------------------------------------------------------------- unmatched reads

  const SUCCESS: seq<string> := ["success", "skipped"]

  predicate IsSuccessfulHistory(t: Tagged) {
    GroupableKind(t) && HasStatus(t, SUCCESS)
  }

  function Others(items: seq<Tagged>): seq<LaneItem> {
    if items == [] then []
    else
      var last := items[|items| - 1];
      Others(items[..|items| - 1]) + if IsSuccessfulHistory(last) then [] else [Single(last)]
  }

  /** The successful runs and deployments, piled by key in order of first appearance. */
  function History(items: seq<Tagged>): seq<Slot> {
    if items == [] then []
    else
      var last := items[|items| - 1];
      var before := History(items[..|items| - 1]);
      if IsSuccessfulHistory(last) then Put(before, GroupKey(last), last) else before
  }

  function HistoryGroups(piles: seq<Slot>): seq<LaneItem> {
    if piles == [] then []
    else
      var last := piles[|piles| - 1];
      HistoryGroups(piles[..|piles| - 1])
      + if last.Pile? && last.rest != [] then [SourceGroup(Members(last))] else []
  }

  /** The successes whose pile has no other member: only these are counted instead of shown. */
  function Singles(piles: seq<Slot>): seq<Tagged> {
    if piles == [] then []
    else
      var last := piles[|piles| - 1];
      Singles(piles[..|piles| - 1]) + if last.Pile? && last.rest == [] then [last.first] else []
  }

  function SummaryKey(t: Tagged): string {
    (if t.item.status.Some? then t.item.status.value else "completed") + " " + KindName(t.kind)
  }

  datatype Tally = Tally(key: string, count: nat)

  function Increment(tallies: seq<Tally>, key: string): seq<Tally> {
    if tallies == [] then [Tally(key, 1)]
    else if tallies[0].key == key then [Tally(key, tallies[0].count + 1)] + tallies[1..]
    else [tallies[0]] + Increment(tallies[1..], key)
  }

  function TalliesOf(singles: seq<Tagged>): seq<Tally> {
    if singles == [] then []
    else Increment(TalliesOf(singles[..|singles| - 1]), SummaryKey(singles[|singles| - 1]))
  }

  function SummaryItems(tallies: seq<Tally>): (r: seq<LaneItem>)
    ensures |r| == |tallies|
  {
    seq(|tallies|, i requires 0 <= i < |tallies| => Summary(tallies[i].key, tallies[i].count))
  }

  const OPEN: seq<string> := ["open"]

  function UnmatchedRank(x: LaneItem): int {
    if x.Single? && x.tagged.kind == Pull && HasStatus(x.tagged, OPEN) then 0
    else if x.Group? && x.representative.kind == Deployment then 2
    else 1
  }

  predicate RankLe(a: LaneItem, b: LaneItem) {
    UnmatchedRank(a) <= UnmatchedRank(b)
  }

  function Ungrouped(items: seq<Tagged>): seq<LaneItem> {
    Others(items) + HistoryGroups(History(items)) + SummaryItems(TalliesOf(Singles(History(items))))
  }

  function Unmatched(items: seq<Tagged>): seq<LaneItem> {
    Sorting.SortBy(RankLe, Grouped(Ungrouped(items)))
  }

  lemma {:induction false} NextTally(singles: seq<Tagged>, t: Tagged)
    ensures TalliesOf(singles + [t]) == Increment(TalliesOf(singles), SummaryKey(t))
  {
    assert (singles + [t])[..|singles|] == singles;
  }

  lemma {:induction false} NextPile(piles: seq<Slot>, i: nat, others: seq<LaneItem>)
    requires i < |piles|
    ensures var p := piles[i]; var groups, singles := HistoryGroups(piles[..i]), Singles(piles[..i]);
            var next, tallies := HistoryGroups(piles[..i + 1]), TalliesOf(Singles(piles[..i + 1]));
            if p.Other? then next == groups && tallies == TalliesOf(singles)
            else if p.rest != [] then
              others + next == others + groups + [SourceGroup(Members(p))] && tallies == TalliesOf(singles)
            else next == groups && tallies == Increment(TalliesOf(singles), SummaryKey(p.first))
  {
    assert piles[..i + 1][..i] == piles[..i];
    var p, singles := piles[i], Singles(piles[..i]);
    if p.Pile? && p.rest == [] { NextTally(singles, p.first); } else { assert singles + [] == singles; }
  }

  /** A pile of several becomes a group; a pile of one is tallied. */
  method TakePile(pile: Slot, shown: seq<LaneItem>, tallies: seq<Tally>) returns (r: seq<LaneItem>, counted: seq<Tally>)
    ensures r == if pile.Pile? && pile.rest != [] then shown + [SourceGroup(Members(pile))] else shown
    ensures counted == if pile.Pile? && pile.rest == [] then Increment(tallies, SummaryKey(pile.first)) else tallies
  {
    r, counted := shown, tallies;
    if pile.Pile? {
      if pile.rest != [] {
        var representative := LatestItem(Members(pile), UpdatedAt);
        r := shown + [Group(Members(pile), representative)];
      } else {
        counted := Increment(tallies, SummaryKey(pile.first));
      }
    }
  }

  method SummarizeHistory(piles: seq<Slot>, others: seq<LaneItem>) returns (r: seq<LaneItem>, tallies: seq<Tally>)
    ensures r == others + HistoryGroups(piles) && tallies == TalliesOf(Singles(piles))
  {
    r, tallies := others, [];
    for i := 0 to |piles|
      invariant r == others + HistoryGroups(piles[..i])
      invariant tallies == TalliesOf(Singles(piles[..i]))
    {
      NextPile(piles, i, others);
      r, tallies := TakePile(piles[i], r, tallies);
    }
    assert piles[..|piles|] == piles;
  }

  method AddSummaries(shown: seq<LaneItem>, tallies: seq<Tally>) returns (r: seq<LaneItem>)
    ensures r == shown + SummaryItems(tallies)
  {
    r := shown;
    for i := 0 to |tallies|
      invariant r == shown + SummaryItems(tallies)[..i]
    {
      r := r + [Summary(tallies[i].key, tallies[i].count)];
    }
  }

  method BuildUnmatchedSource(items: seq<Tagged>) returns (r: seq<LaneItem>)
    ensures r == Unmatched(items)
  {
    var unmatched: seq<LaneItem> := [];
    var history: seq<Slot> := [];
    for i := 0 to |items|
      invariant unmatched == Others(items[..i]) && history == History(items[..i])
    {
      assert items[..i + 1][..i] == items[..i];
      if IsSuccessfulHistory(items[i]) {
        history := Put(history, GroupKey(items[i]), items[i]);
      } else {
        unmatched := unmatched + [Single(items[i])];
      }
    }
    assert items[..|items|] == items;
    var tallies;
    unmatched, tallies := SummarizeHistory(history, unmatched);
    unmatched := AddSummaries(unmatched, tallies);
    var grouped := GroupSourceItems(unmatched);
    r := Sorting.SortBy(RankLe, grouped);
  }

  // ---------------------------------------------------------------- nothing unmatched is lost

  lemma {:induction false} TotalConcat(m: Measure, a: seq<LaneItem>, b: seq<LaneItem>)
    ensures Total(m, a + b) == Total(m, a) + Total(m, b)
    decreases |b|
  {
    if b == [] {
      assert a + b == a;
    } else {
      var n := |b| - 1;
      TotalConcat(m, a, b[..n]);
      assert (a + b)[..|a + b| - 1] == a + b[..n];
    }
  }

  lemma {:induction false} TotalOfOne(m: Measure, x: LaneItem)
    ensures Total(m, [x]) == Weight(m, x)
  {
    assert [x][..0] == [];
  }

  lemma {:induction false} TotalOfInsert(m: Measure, x: LaneItem, xs: seq<LaneItem>)
    ensures Total(m, Sorting.Insert(RankLe, x, xs)) == Weight(m, x) + Total(m, xs)
    decreases |xs|
  {
    if xs == [] || RankLe(x, xs[0]) {
      TotalOfOne(m, x);
      TotalConcat(m, [x], xs);
    } else {
      TotalOfInsert(m, x, xs[1..]);
      TotalConcat(m, [xs[0]], Sorting.Insert(RankLe, x, xs[1..]));
      TotalConcat(m, [xs[0]], xs[1..]);
      assert xs == [xs[0]] + xs[1..];
    }
  }

  lemma {:induction false} SortingConserves(m: Measure, xs: seq<LaneItem>)
    ensures Total(m, Sorting.SortBy(RankLe, xs)) == Total(m, xs)
    decreases |xs|
  {
    if xs != [] {
      SortingConserves(m, xs[1..]);
      TotalOfInsert(m, xs[0], Sorting.SortBy(RankLe, xs[1..]));
      TotalOfOne(m, xs[0]);
      TotalConcat(m, [xs[0]], xs[1..]);
      assert xs == [xs[0]] + xs[1..];
    }
  }

  lemma {:induction false} SplitConserves(m: Measure, items: seq<Tagged>)
    ensures Total(m, Others(items)) + SlotTotal(m, History(items)) == Sum(m, items)
    decreases |items|
  {
    if items != [] {
      var n := |items| - 1;
      var last := items[n];
      SplitConserves(m, items[..n]);
      if IsSuccessfulHistory(last) {
        PutAddsOne(m, History(items[..n]), GroupKey(last), last);
        assert Others(items) == Others(items[..n]);
      } else {
        TotalConcat(m, Others(items[..n]), [Single(last)]);
        TotalOfOne(m, Single(last));
      }
    }
  }

  lemma {:induction false} HistoryIsPiles(items: seq<Tagged>)
    ensures forall s | s in History(items) :: s.Pile?
    decreases |items|
  {
    if items != [] {
      HistoryIsPiles(items[..|items| - 1]);
      var last := items[|items| - 1];
      if IsSuccessfulHistory(last) {
        PutOthers(History(items[..|items| - 1]), GroupKey(last), last);
      }
    }
  }

  lemma {:induction false} PilesConserve(m: Measure, piles: seq<Slot>)
    requires forall s | s in piles :: s.Pile?
    ensures Total(m, HistoryGroups(piles)) + Sum(m, Singles(piles)) == SlotTotal(m, piles)
    decreases |piles|
  {
    if piles != [] {
      var n := |piles| - 1;
      var init, last := piles[..n], piles[n];
      PilesConserve(m, init);
      SlotTotalAppend(m, init, last);
      assert piles == init + [last];
      CollapseOne(m, last);
      if last.rest != [] {
        TotalConcat(m, HistoryGroups(init), [SourceGroup(Members(last))]);
        TotalOfOne(m, SourceGroup(Members(last)));
        assert Singles(piles) == Singles(init);
      } else {
        SumAppend(m, Singles(init), last.first);
        assert HistoryGroups(piles) == HistoryGroups(init);
      }
    }
  }

  /**
   * However reads and summaries are counted, the lane holds what was unlinked, less the counted successes,
   * plus the summaries of those.
   */
  lemma {:induction false} UnmatchedConserves(m: Measure, items: seq<Tagged>)
    ensures var singles := Singles(History(items));
            Total(m, Unmatched(items)) + Sum(m, singles) == Sum(m, items) + Total(m, SummaryItems(TalliesOf(singles)))
  {
    var piles := History(items);
    var others, groups, summaries := Others(items), HistoryGroups(piles), SummaryItems(TalliesOf(Singles(piles)));
    SplitConserves(m, items);
    HistoryIsPiles(items);
    PilesConserve(m, piles);
    TotalConcat(m, others, groups);
    TotalConcat(m, others + groups, summaries);
    GroupingConserves(m, Ungrouped(items));
    SortingConserves(m, Grouped(Ungrouped(items)));
  }

  /** How often a read is shown by a list of lane items: as itself or inside a group. */
  function Shows(t: Tagged): Measure {
    Measure(x => if x == t then 1 else 0, (key, count) => 0)
  }

  /** How often a summary stands in a list of lane items. */
  function Summarizes(key: string, count: nat): Measure {
    Measure(x => 0, (k, c) => if k == key && c == count then 1 else 0)
  }

  lemma {:induction false} ShowsCounts(items: seq<Tagged>, t: Tagged)
    ensures Sum(Shows(t), items) == multiset(items)[t]
    decreases |items|
  {
    if items != [] {
      ShowsCounts(items[..|items| - 1], t);
      assert items == items[..|items| - 1] + [items[|items| - 1]];
    }
  }

  lemma {:induction false} SummariesShowNothing(tallies: seq<Tally>, t: Tagged)
    ensures Total(Shows(t), SummaryItems(tallies)) == 0
    decreases |tallies|
  {
    if tallies != [] {
      SummariesShowNothing(tallies[..|tallies| - 1], t);
      assert SummaryItems(tallies)[..|tallies| - 1] == SummaryItems(tallies[..|tallies| - 1]);
    }
  }

  /** Every unlinked read is shown once, as itself or inside one group, or is one of the counted successes. */
  lemma {:induction false} UnmatchedShowsEveryRead(items: seq<Tagged>, t: Tagged)
    ensures Total(Shows(t), Unmatched(items)) + multiset(Singles(History(items)))[t] == multiset(items)[t]
  {
    UnmatchedConserves(Shows(t), items);
    SummariesShowNothing(TalliesOf(Singles(History(items))), t);
    ShowsCounts(items, t);
    ShowsCounts(Singles(History(items)), t);
  }

  lemma {:induction false} ReadsAreNoSummaries(items: seq<Tagged>, key: string, count: nat)
    ensures Sum(Summarizes(key, count), items) == 0
    decreases |items|
  {
    if items != [] { ReadsAreNoSummaries(items[..|items| - 1], key, count); }
  }

  /** The summaries in the lane are exactly the tallies of the counted successes. */
  lemma {:induction false} LaneSummariesAreTheTallies(items: seq<Tagged>, key: string, count: nat)
    ensures Total(Summarizes(key, count), Unmatched(items)) ==
            Total(Summarizes(key, count), SummaryItems(TalliesOf(Singles(History(items)))))
  {
    UnmatchedConserves(Summarizes(key, count), items);
    ReadsAreNoSummaries(items, key, count);
    ReadsAreNoSummaries(Singles(History(items)), key, count);
  }

  function CountKey(singles: seq<Tagged>, key: string): nat {
    if singles == [] then 0
    else CountKey(singles[..|singles| - 1], key) + if SummaryKey(singles[|singles| - 1]) == key then 1 else 0
  }

  /** The count under a key, zero when there is none. */
  function CountAt(tallies: seq<Tally>, key: string): nat {
    if tallies == [] then 0 else if tallies[0].key == key then tallies[0].count else CountAt(tallies[1..], key)
  }

  lemma {:induction false} IncrementMeans(tallies: seq<Tally>, key: string, other: string)
    ensures CountAt(Increment(tallies, key), other) == CountAt(tallies, other) + if other == key then 1 else 0
    decreases |tallies|
  {
    if tallies != [] && tallies[0].key != key { IncrementMeans(tallies[1..], key, other); }
  }

  ghost predicate DistinctTallies(tallies: seq<Tally>) {
    && (forall i, j | 0 <= i < j < |tallies| :: tallies[i].key != tallies[j].key)
    && (forall i | 0 <= i < |tallies| :: tallies[i].count > 0)
  }

  lemma {:induction false} IncrementKeepsDistinct(tallies: seq<Tally>, key: string)
    requires DistinctTallies(tallies)
    ensures DistinctTallies(Increment(tallies, key))
    ensures forall t | t in Increment(tallies, key) :: t.key == key || t in tallies
    decreases |tallies|
  {
    if tallies != [] && tallies[0].key != key {
      IncrementKeepsDistinct(tallies[1..], key);
      var grown := Increment(tallies[1..], key);
      forall j | 0 <= j < |grown| ensures grown[j].key != tallies[0].key && grown[j].count > 0 {
        assert grown[j] in grown;
      }
    }
  }

  /** Each summary counts exactly the hidden successes with its status and kind; no two summaries share a key. */
  lemma {:induction false} TalliesCount(singles: seq<Tagged>, key: string)
    ensures DistinctTallies(TalliesOf(singles)) && CountAt(TalliesOf(singles), key) == CountKey(singles, key)
    decreases |singles|
  {
    if singles != [] {
      var n := |singles| - 1;
      TalliesCount(singles[..n], key);
      IncrementMeans(TalliesOf(singles[..n]), SummaryKey(singles[n]), key);
      IncrementKeepsDistinct(TalliesOf(singles[..n]), SummaryKey(singles[n]));
    }
  }
}
