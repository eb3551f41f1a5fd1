/** Which reads share an item of the unmatched lane, and in which order its items stand. */
module UnmatchedGroups {
  import opened Options
  import opened Correlation
  import opened SourceGroups
  import opened AttentionLanes
  import Lines
  import Sorting

  /** No run or deployment of one list is like one of the other. */
  ghost predicate ReadsApart(xs: seq<Tagged>, ys: seq<Tagged>) {
    forall a, b | a in xs && b in ys && Comparable(a) && Comparable(b) :: !Alike(a, b)
  }

  predicate Comparable(t: Tagged) {
    GroupableKind(t) && PlainTexts(t)
  }

  ghost predicate Apart(x: LaneItem, y: LaneItem) {
    ReadsApart(Reads(x), Reads(y))
  }

  ghost predicate AllApart(items: seq<LaneItem>) {
    forall i, j | 0 <= i < j < |items| :: Apart(items[i], items[j])
  }

  lemma {:induction false} ApartSymmetric(x: LaneItem, y: LaneItem)
    ensures Apart(x, y) <==> Apart(y, x)
  {
  }

  // ---------------------------------------------------------------- sorting keeps items apart

  lemma {:induction false} InsertAdds(x: LaneItem, items: seq<LaneItem>)
    ensures forall y :: y in Sorting.Insert(RankLe, x, items) <==> y == x || y in items
  {
    Sorting.InsertKeepsElements(RankLe, x, items);
    forall y ensures y in Sorting.Insert(RankLe, x, items) <==> y == x || y in items {
      assert y in Sorting.Insert(RankLe, x, items) <==> y in multiset(Sorting.Insert(RankLe, x, items));
      assert y in items <==> y in multiset(items);
    }
  }

  lemma {:induction false} ConsApart(x: LaneItem, items: seq<LaneItem>)
    requires AllApart(items) && forall y | y in items :: Apart(x, y)
    ensures AllApart([x] + items)
  {
  }

  lemma {:induction false} TailApart(items: seq<LaneItem>)
    requires AllApart(items) && items != []
    ensures AllApart(items[1..]) && forall y | y in items[1..] :: Apart(items[0], y)
  {
  }

  lemma {:induction false} InsertKeepsApart(x: LaneItem, items: seq<LaneItem>)
    requires AllApart(items) && forall y | y in items :: Apart(x, y)
    ensures AllApart(Sorting.Insert(RankLe, x, items))
  {
    if items == [] || RankLe(x, items[0]) {
      ConsApart(x, items);
    } else {
      var rest := Sorting.Insert(RankLe, x, items[1..]);
      TailApart(items);
      InsertKeepsApart(x, items[1..]);
      InsertAdds(x, items[1..]);
      ApartSymmetric(x, items[0]);
      assert items[0] in items;
      ConsApart(items[0], rest);
    }
  }

  lemma {:induction false} SortKeepsApart(items: seq<LaneItem>)
    requires AllApart(items)
    ensures AllApart(Sorting.SortBy(RankLe, items))
  {
    if items != [] {
      SortKeepsApart(items[1..]);
      Sorting.SortByIsSortedPermutation(RankLe, items[1..]);
      forall y | y in Sorting.SortBy(RankLe, items[1..]) ensures Apart(items[0], y) {
        var k :| 0 <= k < |items[1..]| && items[1..][k] == y;
        assert items[k + 1] == y;
      }
      InsertKeepsApart(items[0], Sorting.SortBy(RankLe, items[1..]));
    }
  }

  // ---------------------------------------------------------------- grouping puts alike reads together

  function SlotReads(s: Slot): seq<Tagged> {
    match s
    case Other(x) => Reads(x)
    case Pile(_, first, rest) => [first] + rest
  }

  /** Items that can be grouped may be alike; every other pair is apart. */
  ghost predicate Clean(items: seq<LaneItem>) {
    forall i, j | 0 <= i < j < |items| && !(Groupable(items[i]) && Groupable(items[j])) :: Apart(items[i], items[j])
  }

  ghost predicate HeldBy(s: Slot, items: seq<LaneItem>) {
    match s
    case Other(x) => x in items && !Groupable(x)
    case Pile(_, first, rest) => forall m | m in [first] + rest :: Single(m) in items && GroupableKind(m)
  }

  /** The slots hold what the items hold. */
  ghost predicate From(slots: seq<Slot>, items: seq<LaneItem>) {
    forall s | s in slots :: HeldBy(s, items)
  }

  ghost predicate SlotsApart(slots: seq<Slot>) {
    forall i, j | 0 <= i < j < |slots| :: ReadsApart(SlotReads(slots[i]), SlotReads(slots[j]))
  }

  lemma {:induction false} KeysApart(s: Slot, t: Tagged)
    requires s.Pile? && (forall m | m in SlotReads(s) :: GroupKey(m) == s.key) && s.key != GroupKey(t)
    ensures ReadsApart(SlotReads(s), [t]) && ReadsApart([t], SlotReads(s))
  {
    forall m | m in SlotReads(s) && Comparable(m) && Comparable(t) ensures !Alike(m, t) && !Alike(t, m) {
      KeyMeans(m, t);
      KeyMeans(t, m);
    }
  }

  lemma {:induction false} LastIsApart(items: seq<LaneItem>, x: LaneItem, y: LaneItem)
    requires Clean(items + [x]) && y in items && !(Groupable(y) && Groupable(x))
    ensures Apart(y, x) && Apart(x, y)
  {
    var all := items + [x];
    var i :| 0 <= i < |items| && items[i] == y;
    assert all[i] == y && all[|items|] == x;
    assert Apart(all[i], all[|items|]);
    ApartSymmetric(x, y);
  }

  /** What is apart from a new item is apart from its slot. */
  lemma {:induction false} NewIsApart(slots: seq<Slot>, items: seq<LaneItem>, x: LaneItem, s: Slot)
    requires From(slots, items) && s in slots && Clean(items + [x])
    requires s.Other? || !Groupable(x)
    ensures ReadsApart(SlotReads(s), Reads(x)) && ReadsApart(Reads(x), SlotReads(s))
  {
    if s.Other? {
      LastIsApart(items, x, s.item);
    } else {
      forall m | m in SlotReads(s) ensures ReadsApart([m], Reads(x)) && ReadsApart(Reads(x), [m]) {
        LastIsApart(items, x, Single(m));
      }
      OneByOne(SlotReads(s), Reads(x));
    }
  }

  lemma {:induction false} OneByOne(xs: seq<Tagged>, ys: seq<Tagged>)
    requires forall m | m in xs :: ReadsApart([m], ys) && ReadsApart(ys, [m])
    ensures ReadsApart(xs, ys) && ReadsApart(ys, xs)
  {
    forall a, b | a in xs && b in ys && Comparable(a) && Comparable(b) ensures !Alike(a, b) && !Alike(b, a) {
      assert ReadsApart([a], ys) && ReadsApart(ys, [a]);
      assert a in [a];
    }
  }

  lemma {:induction false} PlaceKeepsApart(slots: seq<Slot>, items: seq<LaneItem>, x: LaneItem)
    requires Piled(slots) && From(slots, items) && SlotsApart(slots) && Clean(items + [x])
    ensures From(Place(slots, x), items + [x]) && SlotsApart(Place(slots, x))
  {
    if Groupable(x) {
      PutKeepsApart(slots, items, x);
    } else {
      forall i | 0 <= i < |slots| ensures ReadsApart(SlotReads(slots[i]), Reads(x)) {
        NewIsApart(slots, items, x, slots[i]);
      }
    }
  }

  lemma {:induction false} HeldByMore(s: Slot, items: seq<LaneItem>, x: LaneItem)
    requires HeldBy(s, items)
    ensures HeldBy(s, items + [x])
  {
  }

  lemma {:induction false} GrownIsHeld(s: Slot, items: seq<LaneItem>, t: Tagged)
    requires s.Pile? && HeldBy(s, items) && GroupableKind(t)
    ensures HeldBy(Pile(s.key, s.first, s.rest + [t]), items + [Single(t)])
  {
    forall m | m in [s.first] + (s.rest + [t]) ensures Single(m) in items + [Single(t)] && GroupableKind(m) {
      if m != t { assert m in [s.first] + s.rest; }
    }
  }

  lemma {:induction false} PutKeepsFrom(slots: seq<Slot>, items: seq<LaneItem>, x: LaneItem)
    requires From(slots, items) && Groupable(x)
    ensures From(Place(slots, x), items + [x])
  {
    var t := x.tagged;
    var key := GroupKey(t);
    forall s | s in slots ensures HeldBy(s, items + [x]) { HeldByMore(s, items, x); }
    if exists i :: 0 <= i < |slots| && slots[i].Pile? && slots[i].key == key {
      var k := FirstPile(slots, key);
      PutExisting(slots, key, t, k);
      GrownIsHeld(slots[k], items, t);
    } else {
      PutNew(slots, key, t);
    }
  }

  lemma {:induction false} FirstPile(slots: seq<Slot>, key: string) returns (k: nat)
    requires exists i :: 0 <= i < |slots| && slots[i].Pile? && slots[i].key == key
    ensures k < |slots| && slots[k].Pile? && slots[k].key == key
    ensures forall i | 0 <= i < k :: !(slots[i].Pile? && slots[i].key == key)
    decreases |slots|
  {
    k := 0;
    if !(slots[0].Pile? && slots[0].key == key) {
      var rest := slots[1..];
      var i :| 0 <= i < |slots| && slots[i].Pile? && slots[i].key == key;
      assert rest[i - 1] == slots[i];
      k := FirstPile(rest, key);
      k := k + 1;
    }
  }

  lemma {:induction false} BothApart(xs: seq<Tagged>, more: seq<Tagged>, ys: seq<Tagged>)
    requires ReadsApart(xs, ys) && ReadsApart(more, ys)
    ensures ReadsApart(xs + more, ys)
  {
  }

  lemma {:induction false} ReadsApartSymmetric(xs: seq<Tagged>, ys: seq<Tagged>)
    ensures ReadsApart(xs, ys) <==> ReadsApart(ys, xs)
  {
  }

  lemma {:induction false} GrownIsApart(slots: seq<Slot>, items: seq<LaneItem>, x: LaneItem, k: nat, i: nat)
    requires Piled(slots) && From(slots, items) && SlotsApart(slots) && Clean(items + [x]) && Groupable(x)
    requires k < |slots| && slots[k].Pile? && slots[k].key == GroupKey(x.tagged) && i < |slots| && i != k
    ensures var grown := SlotReads(slots[k]) + [x.tagged];
            ReadsApart(SlotReads(slots[i]), grown) && ReadsApart(grown, SlotReads(slots[i]))
  {
    OtherIsApart(slots, items, x, i);
    ReadsApartSymmetric(SlotReads(slots[i]), SlotReads(slots[k]));
    if i < k {
      assert ReadsApart(SlotReads(slots[i]), SlotReads(slots[k]));
    } else {
      assert ReadsApart(SlotReads(slots[k]), SlotReads(slots[i]));
    }
    BothApart(SlotReads(slots[k]), [x.tagged], SlotReads(slots[i]));
    ReadsApartSymmetric(SlotReads(slots[k]) + [x.tagged], SlotReads(slots[i]));
  }

  lemma {:induction false} GrowKeepsApart(slots: seq<Slot>, items: seq<LaneItem>, x: LaneItem, k: nat, grown: Slot)
    requires Piled(slots) && From(slots, items) && SlotsApart(slots) && Clean(items + [x]) && Groupable(x)
    requires k < |slots| && slots[k].Pile? && slots[k].key == GroupKey(x.tagged)
    requires grown == Pile(slots[k].key, slots[k].first, slots[k].rest + [x.tagged])
    ensures SlotsApart(slots[k := grown])
  {
    assert SlotReads(grown) == SlotReads(slots[k]) + [x.tagged];
    forall i | 0 <= i < |slots| && i != k
      ensures ReadsApart(SlotReads(slots[i]), SlotReads(grown)) && ReadsApart(SlotReads(grown), SlotReads(slots[i]))
    {
      GrownIsApart(slots, items, x, k, i);
    }
    ReplacedKeepsApart(slots, k, grown);
  }

  lemma {:induction false} PutKeepsApart(slots: seq<Slot>, items: seq<LaneItem>, x: LaneItem)
    requires Piled(slots) && From(slots, items) && SlotsApart(slots) && Clean(items + [x]) && Groupable(x)
    ensures From(Place(slots, x), items + [x]) && SlotsApart(Place(slots, x))
  {
    var t := x.tagged;
    var key := GroupKey(t);
    PutKeepsFrom(slots, items, x);
    if exists i :: 0 <= i < |slots| && slots[i].Pile? && slots[i].key == key {
      var k := FirstPile(slots, key);
      PutExisting(slots, key, t, k);
      GrowKeepsApart(slots, items, x, k, Pile(key, slots[k].first, slots[k].rest + [t]));
    } else {
      PutNew(slots, key, t);
      forall i | 0 <= i < |slots| ensures ReadsApart(SlotReads(slots[i]), [t]) { OtherIsApart(slots, items, x, i); }
      AppendedKeepsApart(slots, Pile(key, t, []));
    }
  }

  lemma {:induction false} ReplacedKeepsApart(slots: seq<Slot>, k: nat, s: Slot)
    requires SlotsApart(slots) && k < |slots|
    requires forall i | 0 <= i < |slots| && i != k ::
               ReadsApart(SlotReads(slots[i]), SlotReads(s)) && ReadsApart(SlotReads(s), SlotReads(slots[i]))
    ensures SlotsApart(slots[k := s])
  {
    var next := slots[k := s];
    forall i, j | 0 <= i < j < |next| ensures ReadsApart(SlotReads(next[i]), SlotReads(next[j])) {
      if i != k && j != k { assert next[i] == slots[i] && next[j] == slots[j]; }
    }
  }

  lemma {:induction false} AppendedKeepsApart(slots: seq<Slot>, s: Slot)
    requires SlotsApart(slots) && forall i | 0 <= i < |slots| :: ReadsApart(SlotReads(slots[i]), SlotReads(s))
    ensures SlotsApart(slots + [s])
  {
    var next := slots + [s];
    forall i, j | 0 <= i < j < |next| ensures ReadsApart(SlotReads(next[i]), SlotReads(next[j])) {
      if j < |slots| { assert next[i] == slots[i] && next[j] == slots[j]; }
    }
  }

  lemma {:induction false} OtherIsApart(slots: seq<Slot>, items: seq<LaneItem>, x: LaneItem, i: nat)
    requires Piled(slots) && From(slots, items) && Clean(items + [x]) && Groupable(x)
    requires i < |slots| && !(slots[i].Pile? && slots[i].key == GroupKey(x.tagged))
    ensures ReadsApart(SlotReads(slots[i]), [x.tagged]) && ReadsApart([x.tagged], SlotReads(slots[i]))
  {
    if slots[i].Pile? { KeysApart(slots[i], x.tagged); } else { NewIsApart(slots, items, x, slots[i]); }
  }

  lemma {:induction false} SlotsKeepApart(items: seq<LaneItem>)
    requires Clean(items)
    ensures From(Slots(items), items) && SlotsApart(Slots(items))
    decreases |items|
  {
    if items != [] {
      var n := |items| - 1;
      assert items == items[..n] + [items[n]];
      SlotsKeepApart(items[..n]);
      SlotsArePiled(items[..n]);
      PlaceKeepsApart(Slots(items[..n]), items[..n], items[n]);
    }
  }

  lemma {:induction false} CollapseReads(s: Slot)
    ensures Reads(Collapse(s)) == SlotReads(s)
  {
  }

  lemma {:induction false} GroupedApart(items: seq<LaneItem>)
    requires Clean(items)
    ensures AllApart(Grouped(items))
  {
    var slots, grouped := Slots(items), Grouped(items);
    SlotsKeepApart(items);
    forall i, j | 0 <= i < j < |grouped| ensures Apart(grouped[i], grouped[j]) {
      CollapseReads(slots[i]);
      CollapseReads(slots[j]);
      assert ReadsApart(SlotReads(slots[i]), SlotReads(slots[j]));
    }
  }

  // ---------------------------------------------------------------- the unmatched lane

  predicate AllSuccessful(xs: seq<Tagged>) {
    forall m | m in xs :: IsSuccessfulHistory(m)
  }

  /** Piles of the success history hold successes of one key each. */
  lemma {:induction false} HistoryIsPiled(items: seq<Tagged>)
    ensures Piled(History(items)) && forall s | s in History(items) :: s.Pile? && AllSuccessful(Members(s))
    decreases |items|
  {
    if items != [] {
      var n := |items| - 1;
      HistoryIsPiled(items[..n]);
      if IsSuccessfulHistory(items[n]) {
        PutKeepsPiled(History(items[..n]), items[n]);
        PutKeepsSuccessful(History(items[..n]), GroupKey(items[n]), items[n]);
      }
    }
  }

  lemma {:induction false} PutKeepsSuccessful(piles: seq<Slot>, key: string, t: Tagged)
    requires (forall s | s in piles :: s.Pile? && AllSuccessful(Members(s))) && IsSuccessfulHistory(t)
    ensures forall s | s in Put(piles, key, t) :: s.Pile? && AllSuccessful(Members(s))
    decreases |piles|
  {
    if piles != [] {
      assert piles == [piles[0]] + piles[1..];
      if piles[0].key == key {
        var grown := Pile(key, piles[0].first, piles[0].rest + [t]);
        forall m | m in Members(grown) ensures IsSuccessfulHistory(m) {
          if m != t { assert m in Members(piles[0]); }
        }
      } else {
        PutKeepsSuccessful(piles[1..], key, t);
      }
    }
  }

  /** Alike reads are both successes or both not. */
  lemma {:induction false} AlikeInSuccess(a: Tagged, b: Tagged)
    requires Alike(a, b) && a.item.status.Some? && IsSuccessfulHistory(a)
    ensures IsSuccessfulHistory(b)
  {
    assert Lines.Fold("") == "";
  }

  /** What the groups of a history hold. */
  ghost predicate GroupOf(x: LaneItem, piles: seq<Slot>) {
    x.Group? && exists k | 0 <= k < |piles| :: piles[k].Pile? && x.members == Members(piles[k])
  }

  lemma {:induction false} GroupsOfHistory(piles: seq<Slot>)
    requires Piled(piles)
    ensures AllApart(HistoryGroups(piles)) && forall x | x in HistoryGroups(piles) :: GroupOf(x, piles)
    decreases |piles|
  {
    if piles != [] {
      var n := |piles| - 1;
      var init, last := piles[..n], piles[n];
      assert forall i | 0 <= i < n :: init[i] == piles[i];
      GroupsOfHistory(init);
      if last.Pile? && last.rest != [] {
        var x := SourceGroup(Members(last));
        forall y | y in HistoryGroups(init) ensures Apart(y, x) {
          var k :| 0 <= k < |init| && init[k].Pile? && y.members == Members(init[k]);
          PilesApart(piles, k, n);
        }
        assert GroupOf(x, piles);
      }
      forall y | y in HistoryGroups(init) ensures GroupOf(y, piles) {
        var k :| 0 <= k < |init| && init[k].Pile? && y.members == Members(init[k]);
        assert piles[k] == init[k];
      }
    }
  }

  lemma {:induction false} PilesApart(piles: seq<Slot>, i: nat, j: nat)
    requires Piled(piles) && i < j < |piles| && piles[i].Pile? && piles[j].Pile?
    ensures ReadsApart(Members(piles[i]), Members(piles[j]))
  {
    forall a, b | a in Members(piles[i]) && b in Members(piles[j]) && Comparable(a) && Comparable(b)
      ensures !Alike(a, b)
    {
      KeyMeans(a, b);
    }
  }

  lemma {:induction false} OthersAreSingle(items: seq<Tagged>)
    ensures forall x | x in Others(items) :: x.Single? && !IsSuccessfulHistory(x.tagged)
    decreases |items|
  {
    if items != [] { OthersAreSingle(items[..|items| - 1]); }
  }

  lemma {:induction false} SuccessIsApart(t: Tagged, members: seq<Tagged>)
    requires !IsSuccessfulHistory(t) && AllSuccessful(members)
    ensures ReadsApart([t], members)
  {
    forall b | b in members && Comparable(t) && Comparable(b) ensures !Alike(t, b) {
      if Alike(t, b) { AlikeInSuccess(b, t); }
    }
  }

  lemma {:induction false} PartsAreClean(others: seq<LaneItem>, groups: seq<LaneItem>, summaries: seq<LaneItem>)
    requires forall x | x in others :: x.Single? && !IsSuccessfulHistory(x.tagged)
    requires AllApart(groups) && forall x | x in groups :: x.Group? && AllSuccessful(x.members)
    requires forall x | x in summaries :: x.Summary?
    ensures Clean(others + groups + summaries)
  {
    var all, n, m := others + groups + summaries, |others|, |others| + |groups|;
    forall i, j | 0 <= i < j < |all| && !(Groupable(all[i]) && Groupable(all[j])) ensures Apart(all[i], all[j]) {
      if i < n { assert all[i] == others[i] && all[i] in others; }
      if n <= i < m { assert all[i] == groups[i - n] && all[i] in groups; }
      if j < n { assert all[j] == others[j] && all[j] in others; }
      if n <= j < m { assert all[j] == groups[j - n] && all[j] in groups; }
      if m <= j { assert all[j] == summaries[j - m] && all[j] in summaries; }
      if i < n && n <= j < m { SuccessIsApart(all[i].tagged, all[j].members); }
      if n <= i && j < m { assert Apart(groups[i - n], groups[j - n]); }
    }
  }

  lemma {:induction false} LaneIsClean(items: seq<Tagged>)
    ensures Clean(Ungrouped(items))
  {
    var piles := History(items);
    OthersAreSingle(items);
    HistoryIsPiled(items);
    GroupsOfHistory(piles);
    forall x | x in HistoryGroups(piles) ensures x.Group? && AllSuccessful(x.members) {
      var k :| 0 <= k < |piles| && piles[k].Pile? && x.members == Members(piles[k]);
      assert piles[k] in piles;
    }
    PartsAreClean(Others(items), HistoryGroups(piles), SummaryItems(TalliesOf(Singles(piles))));
  }

  /** No two items of the unmatched lane show runs or deployments that are alike. */
  lemma {:induction false} AlikeReadsShareAnItem(items: seq<Tagged>)
    ensures AllApart(Unmatched(items))
  {
    LaneIsClean(items);
    GroupedApart(Ungrouped(items));
    SortKeepsApart(Grouped(Ungrouped(items)));
  }

  /** A group has several members, all runs or deployments and all alike, and shows the first latest of them. */
  ghost predicate ProperGroup(x: LaneItem) {
    && x.Group? && |x.members| > 1 && x.representative == Newest(x.members, UpdatedAt)
    && (forall a | a in x.members :: GroupableKind(a))
    && (forall a, b | a in x.members && b in x.members && Comparable(a) && Comparable(b) :: Alike(a, b))
  }

  lemma {:induction false} PileIsProper(s: Slot)
    requires s.Pile? && s.rest != [] && forall m | m in Members(s) :: GroupableKind(m) && GroupKey(m) == s.key
    ensures ProperGroup(SourceGroup(Members(s)))
  {
    forall a, b | a in Members(s) && b in Members(s) && Comparable(a) && Comparable(b) ensures Alike(a, b) {
      KeyMeans(a, b);
    }
  }

  lemma {:induction false} PiledPrefix(piles: seq<Slot>, n: nat)
    requires Piled(piles) && n <= |piles|
    ensures Piled(piles[..n])
  {
    var init := piles[..n];
    forall i | 0 <= i < n ensures init[i] == piles[i] { }
  }

  lemma {:induction false} HistoryGroupsAreProper(piles: seq<Slot>)
    requires Piled(piles)
    ensures forall x | x in HistoryGroups(piles) :: ProperGroup(x)
    decreases |piles|
  {
    if piles != [] {
      var n := |piles| - 1;
      PiledPrefix(piles, n);
      HistoryGroupsAreProper(piles[..n]);
      if piles[n].Pile? && piles[n].rest != [] { PileIsProper(piles[n]); }
    }
  }

  /** Every group in the lane is such a group. */
  lemma {:induction false} GroupsAreProper(items: seq<Tagged>)
    ensures forall x | x in Unmatched(items) && x.Group? :: ProperGroup(x)
  {
    var all := Ungrouped(items);
    var slots := Slots(all);
    OthersAreSingle(items);
    HistoryIsPiled(items);
    HistoryGroupsAreProper(History(items));
    LaneIsClean(items);
    SlotsKeepApart(all);
    SlotsArePiled(all);
    Sorting.SortByIsSortedPermutation(RankLe, Grouped(all));
    forall x | x in Unmatched(items) && x.Group? ensures ProperGroup(x) {
      var i :| 0 <= i < |slots| && Collapse(slots[i]) == x;
      SlotIsProper(slots[i], all, items);
    }
  }

  lemma {:induction false} SlotIsProper(s: Slot, all: seq<LaneItem>, items: seq<Tagged>)
    requires HeldBy(s, all) && all == Ungrouped(items) && Collapse(s).Group?
    requires forall x | x in Others(items) :: x.Single?
    requires forall x | x in HistoryGroups(History(items)) :: ProperGroup(x)
    requires s.Pile? ==> forall m | m in Members(s) :: GroupableKind(m) && GroupKey(m) == s.key
    ensures ProperGroup(Collapse(s))
  {
    if s.Pile? {
      PileIsProper(s);
    } else {
      var summaries := SummaryItems(TalliesOf(Singles(History(items))));
      assert forall x | x in summaries :: x.Summary?;
    }
  }

  // ---------------------------------------------------------------- the order of the lane

  ghost predicate OpenPull(x: LaneItem) {
    x.Single? && x.tagged.kind == Pull && HasStatus(x.tagged, ["open"])
  }

  ghost predicate DeploymentGroup(x: LaneItem) {
    x.Group? && x.representative.kind == Deployment
  }

  /** Open pulls come first and groups of deployments last. */
  lemma {:induction false} LaneInOrder(items: seq<Tagged>)
    ensures var lane := Unmatched(items);
            forall i, j | 0 <= i < j < |lane| ::
              (OpenPull(lane[j]) ==> OpenPull(lane[i])) && (DeploymentGroup(lane[i]) ==> DeploymentGroup(lane[j]))
  {
    var lane := Unmatched(items);
    Sorting.SortByIsSortedPermutation(RankLe, Grouped(Ungrouped(items)));
    forall i, j | 0 <= i < j < |lane|
      ensures (OpenPull(lane[j]) ==> OpenPull(lane[i])) && (DeploymentGroup(lane[i]) ==> DeploymentGroup(lane[j]))
    {
      assert RankLe(lane[i], lane[j]);
    }
  }

  // ---------------------------------------------------------------- which successes are only counted

  /** How many successful runs and deployments have a key. */
  function Successes(items: seq<Tagged>, key: string): nat {
    if items == [] then 0
    else
      var last := items[|items| - 1];
      Successes(items[..|items| - 1], key) + if SuccessWith(last, key) then 1 else 0
  }

  predicate SuccessWith(t: Tagged, key: string) {
    && (t.kind == WorkflowRun || t.kind == Deployment) && HasStatus(t, ["success", "skipped"]) && GroupKey(t) == key
  }

  /** How many members the piles have under a key. */
  function PileSize(piles: seq<Slot>, key: string): nat {
    if piles == [] then 0
    else (if piles[0].Pile? && piles[0].key == key then |Members(piles[0])| else 0) + PileSize(piles[1..], key)
  }

  lemma {:induction false} NoPileNoSize(piles: seq<Slot>, key: string)
    requires forall i | 0 <= i < |piles| :: !(piles[i].Pile? && piles[i].key == key)
    ensures PileSize(piles, key) == 0
  {
    if piles != [] { NoPileNoSize(piles[1..], key); }
  }

  lemma {:induction false} PutGrows(piles: seq<Slot>, key: string, t: Tagged, other: string)
    ensures PileSize(Put(piles, key, t), other) == PileSize(piles, other) + if key == other then 1 else 0
    decreases |piles|
  {
    if piles != [] && !(piles[0].Pile? && piles[0].key == key) {
      PutGrows(piles[1..], key, t, other);
      assert ([piles[0]] + Put(piles[1..], key, t))[1..] == Put(piles[1..], key, t);
    }
  }

  lemma {:induction false} HistorySizes(items: seq<Tagged>, key: string)
    ensures PileSize(History(items), key) == Successes(items, key)
    decreases |items|
  {
    if items != [] {
      var n := |items| - 1;
      HistorySizes(items[..n], key);
      if IsSuccessfulHistory(items[n]) { PutGrows(History(items[..n]), GroupKey(items[n]), items[n], key); }
    }
  }

  lemma {:induction false} SizeOfPile(piles: seq<Slot>, k: nat)
    requires DistinctPiles(piles) && k < |piles| && piles[k].Pile?
    ensures PileSize(piles, piles[k].key) == |Members(piles[k])|
    decreases |piles|
  {
    var rest := piles[1..];
    assert forall i | 0 <= i < |rest| :: rest[i] == piles[i + 1];
    if k == 0 {
      NoPileNoSize(rest, piles[0].key);
    } else {
      SizeOfPile(rest, k - 1);
    }
  }

  lemma {:induction false} SinglesAre(piles: seq<Slot>, t: Tagged)
    ensures t in Singles(piles) <==>
            exists k | 0 <= k < |piles| :: piles[k].Pile? && piles[k].rest == [] && piles[k].first == t
    decreases |piles|
  {
    if piles != [] {
      var n := |piles| - 1;
      SinglesAre(piles[..n], t);
      assert forall k | 0 <= k < n :: piles[..n][k] == piles[k];
    }
  }

  ghost predicate InPile(piles: seq<Slot>, t: Tagged) {
    exists s | s in piles :: s.Pile? && t in Members(s)
  }

  lemma {:induction false} PutHolds(piles: seq<Slot>, key: string, t: Tagged, other: Tagged)
    ensures InPile(Put(piles, key, t), t)
    ensures InPile(piles, other) ==> InPile(Put(piles, key, t), other)
    decreases |piles|
  {
    var next := Put(piles, key, t);
    if piles == [] {
      assert Pile(key, t, []) in next && t in Members(Pile(key, t, []));
    } else if piles[0].Pile? && piles[0].key == key {
      var grown := Pile(key, piles[0].first, piles[0].rest + [t]);
      assert grown in next && t in Members(grown);
      assert piles == [piles[0]] + piles[1..];
      if InPile(piles, other) {
        var s :| s in piles && s.Pile? && other in Members(s);
        if s == piles[0] { assert other in Members(grown); } else { assert s in next; }
      }
    } else {
      var more := Put(piles[1..], key, t);
      PutHolds(piles[1..], key, t, other);
      assert next == [piles[0]] + more && piles == [piles[0]] + piles[1..];
      var s :| s in more && s.Pile? && t in Members(s);
      assert s in next;
      if InPile(piles, other) {
        var u :| u in piles && u.Pile? && other in Members(u);
        if u in piles[1..] {
          assert InPile(piles[1..], other);
          var v :| v in more && v.Pile? && other in Members(v);
          assert v in next;
        } else {
          assert u in next;
        }
      }
    }
  }

  lemma {:induction false} SuccessIsPiled(items: seq<Tagged>, t: Tagged)
    requires t in items && IsSuccessfulHistory(t)
    ensures InPile(History(items), t)
    decreases |items|
  {
    var n := |items| - 1;
    assert items == items[..n] + [items[n]];
    if IsSuccessfulHistory(items[n]) { PutHolds(History(items[..n]), GroupKey(items[n]), items[n], t); }
    if t in items[..n] { SuccessIsPiled(items[..n], t); }
  }

  /** A success is counted instead of shown exactly when no other success has its key. */
  lemma {:induction false} LoneSuccessesAreCounted(items: seq<Tagged>, t: Tagged)
    ensures t in Singles(History(items)) <==>
            t in items && SuccessWith(t, GroupKey(t)) && Successes(items, GroupKey(t)) == 1
  {
    var piles := History(items);
    SinglesAre(piles, t);
    HistoryIsPiled(items);
    HistorySizes(items, GroupKey(t));
    if t in Singles(piles) {
      var k :| 0 <= k < |piles| && piles[k].Pile? && piles[k].rest == [] && piles[k].first == t;
      assert piles[k] in piles && t in Members(piles[k]);
      SizeOfPile(piles, k);
      UnmatchedShowsEveryRead(items, t);
    }
    if t in items && SuccessWith(t, GroupKey(t)) && Successes(items, GroupKey(t)) == 1 {
      SuccessIsPiled(items, t);
      var s :| s in piles && s.Pile? && t in Members(s);
      var k :| 0 <= k < |piles| && piles[k] == s;
      SizeOfPile(piles, k);
      assert Members(s) == [s.first] + s.rest;
    }
  }

  /** Counted runs and deployments share a summary exactly when they have the same status and the same kind. */
  lemma {:induction false} SummaryKeyMeans(a: Tagged, b: Tagged)
    requires GroupableKind(a) && GroupableKind(b) && a.item.status.Some? && b.item.status.Some?
    ensures SummaryKey(a) == SummaryKey(b) <==> a.kind == b.kind && a.item.status == b.item.status
  {
    var x, y := SummaryKey(a), SummaryKey(b);
    var s, t := a.item.status.value, b.item.status.value;
    LastOfKey(s, a.kind);
    LastOfKey(t, b.kind);
    if x == y {
      assert x[|x| - 1] == y[|y| - 1];
      assert s == x[..|s|] && t == y[..|t|];
    }
  }

  lemma {:induction false} LastOfKey(s: string, k: Kind)
    requires k == WorkflowRun || k == Deployment
    ensures var key := s + " " + KindName(k); key != "" && key[|key| - 1] == if k == WorkflowRun then 'n' else 't'
  {
    var key, name := s + " " + KindName(k), KindName(k);
    assert key[|key| - 1] == name[|name| - 1];
  }
}
