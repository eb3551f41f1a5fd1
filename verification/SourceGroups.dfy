/** Unlinked reads as lane items: grouping, success history and summaries. */
module SourceGroups {
  import opened Options
  import opened Correlation
  import Lines
  import Sorting

  // ---------------------------------------------------------------- statuses and recency

  predicate HasStatus(t: Tagged, statuses: seq<string>) {
    t.item.status.Some? && Lines.Fold(t.item.status.value) in statuses
  }

  /** A later time stamp; anything is later than no time stamp. */
  predicate Newer(a: Option<string>, b: Option<string>) {
    a.Some? && (b.None? || (a.value != b.value && Sorting.StringLe(b.value, a.value)))
  }

  lemma {:induction false} NewerIsAnOrder()
    ensures forall a, b :: Newer(a, b) ==> !Newer(b, a)
    ensures forall a, b, c :: !Newer(a, b) && !Newer(b, c) ==> !Newer(a, c)
    ensures forall a, b, c :: Newer(a, b) && !Newer(c, b) ==> Newer(a, c)
  {
    Sorting.StringLeIsTotalOrder();
  }

  /** `reduce` keeping the later item. */
  function Newest(items: seq<Tagged>, time: Tagged -> Option<string>): Tagged
    requires items != []
  {
    if |items| == 1 then items[0]
    else
      var best := Newest(items[..|items| - 1], time);
      var last := items[|items| - 1];
      if Newer(time(last), time(best)) then last else best
  }

  method LatestItem(items: seq<Tagged>, time: Tagged -> Option<string>) returns (latest: Tagged)
    requires items != []
    ensures latest == Newest(items, time)
  {
    latest := items[0];
    for i := 1 to |items|
      invariant latest == Newest(items[..i], time)
    {
      assert items[..i + 1][..i] == items[..i];
      if Newer(time(items[i]), time(latest)) { latest := items[i]; }
    }
    assert items[..|items|] == items;
  }

  /** The first of the latest items: nothing is later, and everything before it is older. */
  lemma {:induction false} NewestIsFirstLatest(items: seq<Tagged>, time: Tagged -> Option<string>) returns (k: nat)
    requires items != []
    ensures k < |items| && items[k] == Newest(items, time)
    ensures forall i | 0 <= i < |items| :: !Newer(time(items[i]), time(items[k]))
    ensures forall i | 0 <= i < k :: Newer(time(items[k]), time(items[i]))
    decreases |items|
  {
    NewerIsAnOrder();
    var n := |items| - 1;
    if n == 0 {
      k := 0;
    } else {
      k := NewestIsFirstLatest(items[..n], time);
      if Newer(time(items[n]), time(items[k])) {
        forall i | 0 <= i < n ensures Newer(time(items[n]), time(items[i])) { assert items[..n][i] == items[i]; }
        k := n;
      } else {
        forall i | 0 <= i < n ensures !Newer(time(items[i]), time(items[k])) { assert items[..n][i] == items[i]; }
      }
    }
  }

  // ---------------------------------------------------------------- lane items

  datatype LaneItem =
    | Single(tagged: Tagged)
    | Group(members: seq<Tagged>, representative: Tagged)
    | Summary(key: string, count: nat)

  /** A way of counting what lane items hold: reads they show, and summaries. */
  datatype Measure = Measure(read: Tagged -> nat, summary: (string, nat) -> nat)

  function Sum(m: Measure, members: seq<Tagged>): nat {
    if members == [] then 0 else Sum(m, members[..|members| - 1]) + m.read(members[|members| - 1])
  }

  function Weight(m: Measure, x: LaneItem): nat {
    match x
    case Single(t) => m.read(t)
    case Group(members, _) => Sum(m, members)
    case Summary(key, count) => m.summary(key, count)
  }

  function Total(m: Measure, items: seq<LaneItem>): nat {
    if items == [] then 0 else Total(m, items[..|items| - 1]) + Weight(m, items[|items| - 1])
  }

  lemma {:induction false} SumAppend(m: Measure, members: seq<Tagged>, t: Tagged)
    ensures Sum(m, members + [t]) == Sum(m, members) + m.read(t)
  {
    assert (members + [t])[..|members|] == members;
  }

  function UpdatedAt(t: Tagged): Option<string> {
    t.item.updatedAt
  }

  function SourceGroup(members: seq<Tagged>): LaneItem
    requires members != []
  {
    Group(members, Newest(members, UpdatedAt))
  }

  predicate GroupableKind(t: Tagged) {
    t.kind == WorkflowRun || t.kind == Deployment
  }

  function KindName(k: Kind): string {
    match k case Pull => "pull" case WorkflowRun => "workflow_run" case Deployment => "deployment" case Ops => "ops"
  }

  const SEPARATOR: string := "\0"

  function OrEmpty(v: Option<string>): string {
    if v.Some? then v.value else ""
  }

  function GroupKey(t: Tagged): string {
    KindName(t.kind) + SEPARATOR + OrEmpty(t.item.status) + SEPARATOR + OrEmpty(t.item.title) + SEPARATOR
      + OrEmpty(t.item.ref)
  }

  // ---------------------------------------------------------------- piles: an insertion-ordered map of lists

  datatype Slot = Other(item: LaneItem) | Pile(key: string, first: Tagged, rest: seq<Tagged>)

  function Members(s: Slot): (r: seq<Tagged>)
    requires s.Pile?
    ensures r != []
  {
    [s.first] + s.rest
  }

  /** Appends to the pile with the key, or starts it at the end. */
  function Put(slots: seq<Slot>, key: string, t: Tagged): seq<Slot> {
    if slots == [] then [Pile(key, t, [])]
    else if slots[0].Pile? && slots[0].key == key then [Pile(key, slots[0].first, slots[0].rest + [t])] + slots[1..]
    else [slots[0]] + Put(slots[1..], key, t)
  }

  lemma {:induction false} PutNew(slots: seq<Slot>, key: string, t: Tagged)
    requires forall i | 0 <= i < |slots| :: !(slots[i].Pile? && slots[i].key == key)
    ensures Put(slots, key, t) == slots + [Pile(key, t, [])]
    decreases |slots|
  {
    if slots != [] {
      PutNew(slots[1..], key, t);
      assert slots == [slots[0]] + slots[1..];
    }
  }

  lemma {:induction false} PutExisting(slots: seq<Slot>, key: string, t: Tagged, k: nat)
    requires k < |slots| && slots[k].Pile? && slots[k].key == key
    requires forall i | 0 <= i < k :: !(slots[i].Pile? && slots[i].key == key)
    ensures Put(slots, key, t) == slots[k := Pile(key, slots[k].first, slots[k].rest + [t])]
    decreases k
  {
    if k > 0 {
      PutExisting(slots[1..], key, t, k - 1);
      assert slots == [slots[0]] + slots[1..];
    }
  }

  function SlotWeight(m: Measure, s: Slot): nat {
    match s case Other(x) => Weight(m, x) case Pile(_, _, _) => Sum(m, Members(s))
  }

  function SlotTotal(m: Measure, slots: seq<Slot>): nat {
    if slots == [] then 0 else SlotWeight(m, slots[0]) + SlotTotal(m, slots[1..])
  }

  /** Putting an item adds exactly that item. */
  lemma {:induction false} PutAddsOne(m: Measure, slots: seq<Slot>, key: string, t: Tagged)
    ensures SlotTotal(m, Put(slots, key, t)) == SlotTotal(m, slots) + m.read(t)
    decreases |slots|
  {
    if slots == [] {
      var pile := Pile(key, t, []);
      assert [pile][1..] == [];
      SumAppend(m, [], t);
      assert Members(pile) == [] + [t];
    } else if slots[0].Pile? && slots[0].key == key {
      var grown := Pile(key, slots[0].first, slots[0].rest + [t]);
      assert ([grown] + slots[1..])[1..] == slots[1..];
      assert Members(grown) == Members(slots[0]) + [t];
      SumAppend(m, Members(slots[0]), t);
    } else {
      PutAddsOne(m, slots[1..], key, t);
      assert ([slots[0]] + Put(slots[1..], key, t))[1..] == Put(slots[1..], key, t);
    }
  }

  lemma {:induction false} SlotTotalAppend(m: Measure, slots: seq<Slot>, s: Slot)
    ensures SlotTotal(m, slots + [s]) == SlotTotal(m, slots) + SlotWeight(m, s)
    decreases |slots|
  {
    if slots == [] {
      assert slots + [s] == [s] && [s][1..] == [];
    } else {
      SlotTotalAppend(m, slots[1..], s);
      assert (slots + [s])[1..] == slots[1..] + [s];
    }
  }

  ghost predicate DistinctPiles(slots: seq<Slot>) {
    forall i, j | 0 <= i < j < |slots| && slots[i].Pile? && slots[j].Pile? :: slots[i].key != slots[j].key
  }

  /** The members of a pile have its key and can be grouped, and no key has two piles. */
  ghost predicate Piled(slots: seq<Slot>) {
    && (forall i | 0 <= i < |slots| && slots[i].Pile? ::
          forall m | m in Members(slots[i]) :: GroupableKind(m) && GroupKey(m) == slots[i].key)
    && DistinctPiles(slots)
  }

  lemma {:induction false} PutKeepsPiled(slots: seq<Slot>, t: Tagged)
    requires Piled(slots) && GroupableKind(t)
    ensures Piled(Put(slots, GroupKey(t), t))
  {
    var key := GroupKey(t);
    if k :| 0 <= k < |slots| && slots[k].Pile? && slots[k].key == key {
      PutExisting(slots, key, t, k);
    } else {
      PutNew(slots, key, t);
    }
  }

  // ---------------------------------------------------------------- groupSourceItems

  predicate Groupable(x: LaneItem) {
    x.Single? && GroupableKind(x.tagged)
  }

  function Place(slots: seq<Slot>, x: LaneItem): seq<Slot> {
    if Groupable(x) then Put(slots, GroupKey(x.tagged), x.tagged) else slots + [Other(x)]
  }

  function Slots(items: seq<LaneItem>): seq<Slot> {
    if items == [] then [] else Place(Slots(items[..|items| - 1]), items[|items| - 1])
  }

  function Collapse(s: Slot): LaneItem {
    match s
    case Other(x) => x
    case Pile(_, first, rest) => if rest == [] then Single(first) else SourceGroup(Members(s))
  }

  function CollapseAll(slots: seq<Slot>): (r: seq<LaneItem>)
    ensures |r| == |slots|
  {
    seq(|slots|, i requires 0 <= i < |slots| => Collapse(slots[i]))
  }

  /** Groupable items with one key become one item where the first of them stood. */
  function Grouped(items: seq<LaneItem>): seq<LaneItem> {
    CollapseAll(Slots(items))
  }

  lemma {:induction false} SlotsArePiled(items: seq<LaneItem>)
    ensures Piled(Slots(items))
    ensures forall i | 0 <= i < |Slots(items)| && Slots(items)[i].Other? :: !Groupable(Slots(items)[i].item)
    decreases |items|
  {
    if items != [] {
      var before, x := Slots(items[..|items| - 1]), items[|items| - 1];
      SlotsArePiled(items[..|items| - 1]);
      if Groupable(x) {
        PutKeepsPiled(before, x.tagged);
        PutOthers(before, GroupKey(x.tagged), x.tagged);
      }
    }
  }

  lemma {:induction false} PutOthers(slots: seq<Slot>, key: string, t: Tagged)
    ensures forall s | s in Put(slots, key, t) && s.Other? :: s in slots
    decreases |slots|
  {
    if slots != [] { PutOthers(slots[1..], key, t); }
  }

  ghost predicate HasPile(slots: seq<Slot>, key: string) {
    exists i | 0 <= i < |slots| :: slots[i].Pile? && slots[i].key == key
  }

  /** What stands in the list for a slot, and what the map holds for it. */
  predicate SlotIs(s: Slot, x: LaneItem, grouped: map<string, seq<Tagged>>) {
    match s
    case Other(y) => x == y
    case Pile(key, first, _) => x == Single(first) && key in grouped && grouped[key] == Members(s)
  }

  /** What the two passes hold: the first item of each slot, and the members under each key. */
  ghost predicate Matching(slots: seq<Slot>, result: seq<LaneItem>, grouped: map<string, seq<Tagged>>) {
    && |result| == |slots|
    && (forall i | 0 <= i < |slots| :: SlotIs(slots[i], result[i], grouped))
    && (forall key | key in grouped :: HasPile(slots, key))
  }

  lemma {:induction false} MatchingExisting(slots: seq<Slot>, result: seq<LaneItem>, grouped: map<string, seq<Tagged>>,
                                            key: string, t: Tagged, k: nat)
    requires DistinctPiles(slots) && Matching(slots, result, grouped) && key in grouped
    requires k < |slots| && slots[k].Pile? && slots[k].key == key
    ensures Matching(Put(slots, key, t), result, grouped[key := grouped[key] + [t]])
  {
    PutExisting(slots, key, t, k);
    var next, more := Put(slots, key, t), grouped[key := grouped[key] + [t]];
    assert Members(next[k]) == Members(slots[k]) + [t];
    forall i | 0 <= i < |next| ensures SlotIs(next[i], result[i], more) {
      assert SlotIs(slots[i], result[i], grouped);
    }
    forall other | other in more ensures HasPile(next, other) {
      assert HasPile(slots, other);
      var i :| 0 <= i < |slots| && slots[i].Pile? && slots[i].key == other;
      assert next[i].key == other;
    }
  }

  lemma {:induction false} MatchingNew(slots: seq<Slot>, result: seq<LaneItem>, grouped: map<string, seq<Tagged>>,
                                       key: string, t: Tagged)
    requires Matching(slots, result, grouped) && key !in grouped
    ensures Matching(Put(slots, key, t), result + [Single(t)], grouped[key := [t]])
  {
    forall i | 0 <= i < |slots| ensures !(slots[i].Pile? && slots[i].key == key) {
      assert SlotIs(slots[i], result[i], grouped);
    }
    PutNew(slots, key, t);
    var next, longer, more := Put(slots, key, t), result + [Single(t)], grouped[key := [t]];
    forall i | 0 <= i < |next| ensures SlotIs(next[i], longer[i], more) {
      if i < |slots| { assert SlotIs(slots[i], result[i], grouped); } else { assert next[i] == Pile(key, t, []); }
    }
    forall other | other in more ensures HasPile(next, other) {
      if other == key {
        assert next[|slots|].key == key;
      } else {
        assert HasPile(slots, other);
        var i :| 0 <= i < |slots| && slots[i].Pile? && slots[i].key == other;
        assert next[i] == slots[i];
      }
    }
  }

  lemma {:induction false} MatchingOther(slots: seq<Slot>, result: seq<LaneItem>, grouped: map<string, seq<Tagged>>,
                                         x: LaneItem)
    requires Matching(slots, result, grouped)
    ensures Matching(slots + [Other(x)], result + [x], grouped)
  {
    var next, longer := slots + [Other(x)], result + [x];
    forall i | 0 <= i < |next| ensures SlotIs(next[i], longer[i], grouped) {
      if i < |slots| { assert SlotIs(slots[i], result[i], grouped); }
    }
    forall key | key in grouped ensures HasPile(next, key) {
      assert HasPile(slots, key);
      var i :| 0 <= i < |slots| && slots[i].Pile? && slots[i].key == key;
      assert next[i] == slots[i];
    }
  }

  /** One item of the first pass. */
  method PlaceItem(ghost slots: seq<Slot>, result: seq<LaneItem>, grouped: map<string, seq<Tagged>>, item: LaneItem)
    returns (placed: seq<LaneItem>, members: map<string, seq<Tagged>>)
    requires DistinctPiles(slots) && Matching(slots, result, grouped)
    ensures Matching(Place(slots, item), placed, members)
  {
    placed, members := result, grouped;
    if !Groupable(item) {
      MatchingOther(slots, result, grouped, item);
      placed := result + [item];
      return;
    }
    var key := GroupKey(item.tagged);
    if key in grouped {
      assert HasPile(slots, key);
      ghost var k :| 0 <= k < |slots| && slots[k].Pile? && slots[k].key == key;
      MatchingExisting(slots, result, grouped, key, item.tagged, k);
      members := grouped[key := grouped[key] + [item.tagged]];
    } else {
      MatchingNew(slots, result, grouped, key, item.tagged);
      members := grouped[key := [item.tagged]];
      placed := result + [item];
    }
  }

  method GroupSourceItems(items: seq<LaneItem>) returns (r: seq<LaneItem>)
    ensures r == Grouped(items)
  {
    var grouped: map<string, seq<Tagged>> := map[];
    var result: seq<LaneItem> := [];
    for i := 0 to |items|
      invariant Matching(Slots(items[..i]), result, grouped)
    {
      assert items[..i + 1][..i] == items[..i];
      SlotsArePiled(items[..i]);
      result, grouped := PlaceItem(Slots(items[..i]), result, grouped, items[i]);
    }
    assert items[..|items|] == items;
    SlotsArePiled(items);
    r := Expand(Slots(items), result, grouped);
  }

  /** One slot of the second pass. */
  lemma {:induction false} ExpandOne(slots: seq<Slot>, result: seq<LaneItem>, grouped: map<string, seq<Tagged>>, i: nat)
    requires Piled(slots) && Matching(slots, result, grouped) && i < |slots|
    requires slots[i].Other? ==> !Groupable(slots[i].item)
    ensures if Groupable(result[i]) then
              var key := GroupKey(result[i].tagged);
              key in grouped
              && Collapse(slots[i]) == if |grouped[key]| > 1 then SourceGroup(grouped[key]) else result[i]
            else Collapse(slots[i]) == result[i]
  {
    assert SlotIs(slots[i], result[i], grouped);
    if slots[i].Pile? { assert slots[i].first in Members(slots[i]); }
  }

  /** One item of the second pass: its group when it stands for several, itself otherwise. */
  method ExpandItem(ghost slots: seq<Slot>, result: seq<LaneItem>, grouped: map<string, seq<Tagged>>, i: nat)
    returns (r: LaneItem)
    requires Piled(slots) && Matching(slots, result, grouped) && i < |slots|
    requires slots[i].Other? ==> !Groupable(slots[i].item)
    ensures r == Collapse(slots[i])
  {
    ExpandOne(slots, result, grouped, i);
    r := result[i];
    if Groupable(result[i]) {
      var members := grouped[GroupKey(result[i].tagged)];
      if |members| > 1 {
        var representative := LatestItem(members, UpdatedAt);
        r := Group(members, representative);
      }
    }
  }

  method Expand(ghost slots: seq<Slot>, result: seq<LaneItem>, grouped: map<string, seq<Tagged>>)
    returns (r: seq<LaneItem>)
    requires Piled(slots) && Matching(slots, result, grouped)
    requires forall i | 0 <= i < |slots| && slots[i].Other? :: !Groupable(slots[i].item)
    ensures r == CollapseAll(slots)
  {
    r := [];
    for i := 0 to |result|
      invariant r == CollapseAll(slots)[..i]
    {
      var item := ExpandItem(slots, result, grouped, i);
      r := r + [item];
    }
  }

  lemma {:induction false} CollapseOne(m: Measure, s: Slot)
    ensures Weight(m, Collapse(s)) == SlotWeight(m, s)
  {
    if s.Pile? && s.rest == [] {
      assert Members(s) == [] + [s.first];
      SumAppend(m, [], s.first);
    }
  }

  lemma {:induction false} CollapseKeepsTotal(m: Measure, slots: seq<Slot>)
    ensures Total(m, CollapseAll(slots)) == SlotTotal(m, slots)
    decreases |slots|
  {
    if slots != [] {
      var n := |slots| - 1;
      var init := slots[..n];
      CollapseKeepsTotal(m, init);
      SlotTotalAppend(m, init, slots[n]);
      CollapseOne(m, slots[n]);
      assert slots == init + [slots[n]];
      assert CollapseAll(slots)[..n] == CollapseAll(init);
    }
  }

  lemma {:induction false} SlotsKeepTotal(m: Measure, items: seq<LaneItem>)
    ensures SlotTotal(m, Slots(items)) == Total(m, items)
    decreases |items|
  {
    if items != [] {
      var before, x := Slots(items[..|items| - 1]), items[|items| - 1];
      SlotsKeepTotal(m, items[..|items| - 1]);
      if Groupable(x) {
        PutAddsOne(m, before, GroupKey(x.tagged), x.tagged);
      } else {
        SlotTotalAppend(m, before, Other(x));
      }
    }
  }

  /** Grouping hides nothing and shows nothing twice, however it is counted. */
  lemma {:induction false} GroupingConserves(m: Measure, items: seq<LaneItem>)
    ensures Total(m, Grouped(items)) == Total(m, items)
  {
    SlotsKeepTotal(m, items);
    CollapseKeepsTotal(m, Slots(items));
  }

  // ---------------------------------------------------------------- which reads share a group

  /** The texts a key is made of hold no null character, which separates them. */
  predicate PlainTexts(t: Tagged) {
    '\0' !in OrEmpty(t.item.status) && '\0' !in OrEmpty(t.item.title)
  }

  /** Same kind, status, title and reference, a missing one counting as empty. */
  ghost predicate Alike(a: Tagged, b: Tagged) {
    && a.kind == b.kind
    && (if a.item.status.Some? then a.item.status.value else "") ==
       (if b.item.status.Some? then b.item.status.value else "")
    && (if a.item.title.Some? then a.item.title.value else "") ==
       (if b.item.title.Some? then b.item.title.value else "")
    && (if a.item.ref.Some? then a.item.ref.value else "") == (if b.item.ref.Some? then b.item.ref.value else "")
  }

  lemma {:induction false} FirstNull(a: string, x: string)
    requires '\0' !in a
    ensures Lines.IndexOf(a + SEPARATOR + x, SEPARATOR, 0) == |a|
  {
    var s := a + SEPARATOR + x;
    assert s[|a|..|a| + 1] == SEPARATOR;
    forall j | 0 <= j < |a| ensures !Lines.OccursAt(s, SEPARATOR, j) {
      assert s[j..j + 1][0] == a[j];
    }
    Lines.IndexOfIs(s, SEPARATOR, 0, |a|);
  }

  lemma {:induction false} CutAtNull(a: string, b: string, x: string, y: string)
    requires '\0' !in a && '\0' !in b && a + SEPARATOR + x == b + SEPARATOR + y
    ensures a == b && x == y
  {
    var s, t := a + SEPARATOR + x, b + SEPARATOR + y;
    FirstNull(a, x);
    FirstNull(b, y);
    assert a == s[..|a|] && b == t[..|b|] && x == s[|a| + 1..] && y == t[|b| + 1..];
  }

  lemma {:induction false} KeyParts(t: Tagged)
    ensures GroupKey(t) == KindName(t.kind) + SEPARATOR
                           + (OrEmpty(t.item.status) + SEPARATOR
                              + (OrEmpty(t.item.title) + SEPARATOR + OrEmpty(t.item.ref)))
  {
  }

  lemma {:induction false} KindNames(a: Kind, b: Kind)
    ensures '\0' !in KindName(a) && (KindName(a) == KindName(b) ==> a == b)
  {
    assert |KindName(Pull)| == 4 && |KindName(WorkflowRun)| == 12 && |KindName(Deployment)| == 10;
    assert |KindName(Ops)| == 3;
  }

  lemma {:induction false} KeyMeans(a: Tagged, b: Tagged)
    ensures Alike(a, b) ==> GroupKey(a) == GroupKey(b)
    ensures PlainTexts(a) && PlainTexts(b) && GroupKey(a) == GroupKey(b) ==> Alike(a, b)
  {
    KeyParts(a);
    KeyParts(b);
    KindNames(a.kind, b.kind);
    if PlainTexts(a) && PlainTexts(b) && GroupKey(a) == GroupKey(b) {
      var x := OrEmpty(a.item.title) + SEPARATOR + OrEmpty(a.item.ref);
      var y := OrEmpty(b.item.title) + SEPARATOR + OrEmpty(b.item.ref);
      KindNames(b.kind, a.kind);
      CutAtNull(KindName(a.kind), KindName(b.kind), OrEmpty(a.item.status) + SEPARATOR + x,
                OrEmpty(b.item.status) + SEPARATOR + y);
      CutAtNull(OrEmpty(a.item.status), OrEmpty(b.item.status), x, y);
      CutAtNull(OrEmpty(a.item.title), OrEmpty(b.item.title), OrEmpty(a.item.ref), OrEmpty(b.item.ref));
    }
  }

  /** The reads an item stands for. */
  function Reads(x: LaneItem): seq<Tagged> {
    match x
    case Single(t) => [t]
    case Group(members, _) => members
    case Summary(_, _) => []
  }

  /** The condition on null characters is needed: with one in a status or a title, reads that differ can share a key. */
  lemma {:induction false} NullsCollide(a: Tagged, b: Tagged)
    requires a.kind == b.kind && a.item.ref == b.item.ref
    requires a.item.status == Some("x\0y") && a.item.title == Some("z")
    requires b.item.status == Some("x") && b.item.title == Some("y\0z")
    ensures GroupKey(a) == GroupKey(b) && !Alike(a, b)
  {
    assert "x\0y" + SEPARATOR + "z" == "x" + SEPARATOR + "y\0z";
    var head, tail := KindName(a.kind) + SEPARATOR, SEPARATOR + OrEmpty(a.item.ref);
    assert GroupKey(a) == head + ("x\0y" + SEPARATOR + "z") + tail;
    assert GroupKey(b) == head + ("x" + SEPARATOR + "y\0z") + tail;
    assert |"x\0y"| != |"x"|;
  }
}
