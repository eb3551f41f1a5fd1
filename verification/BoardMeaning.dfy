/** Which lane of the board a change stands in, and in which order, said of its reads. */
module BoardMeaning {
  import opened Options
  import opened Correlation
  import opened SourceGroups
  import opened AttentionLanes
  import opened ChangeLanes
  import Lines
  import Sorting

  // ---------------------------------------------------------------- the read that counts for a source

  /** Of the reads of its source, the first of the latest. */
  ghost predicate SpeaksForSource(items: seq<Tagged>, k: nat) {
    && k < |items|
    && forall i | 0 <= i < |items| && i != k && items[i].item.identity == items[k].item.identity ::
         if i < k then Newer(items[k].item.recency, items[i].item.recency)
         else !Newer(items[i].item.recency, items[k].item.recency)
  }

  lemma {:induction false} OneSpeaks(items: seq<Tagged>, j: nat, k: nat)
    requires SpeaksForSource(items, j) && SpeaksForSource(items, k)
    requires items[j].item.identity == items[k].item.identity
    ensures j == k
  {
  }

  lemma {:induction false} SpeakerAfter(init: seq<Tagged>, last: Tagged, k: nat)
    requires SpeaksForSource(init, k)
    ensures var items := init + [last];
            if last.item.identity == init[k].item.identity && Newer(last.item.recency, init[k].item.recency)
            then SpeaksForSource(items, |init|) else SpeaksForSource(items, k)
  {
    var items := init + [last];
    NewerIsAnOrder();
    assert forall i | 0 <= i < |init| :: items[i] == init[i];
    if last.item.identity == init[k].item.identity && Newer(last.item.recency, init[k].item.recency) {
      forall i | 0 <= i < |init| && items[i].item.identity == last.item.identity
        ensures Newer(last.item.recency, items[i].item.recency)
      {
        assert !Newer(init[i].item.recency, init[k].item.recency);
      }
    }
  }

  /** The map of latest reads holds for each source the read that speaks for it. */
  lemma {:induction false} LatestSpeaks(items: seq<Tagged>, key: string) returns (k: nat)
    ensures key in Latest(items) <==> exists i | 0 <= i < |items| :: items[i].item.identity == key
    ensures key in Latest(items) ==>
              SpeaksForSource(items, k) && items[k].item.identity == key && Latest(items)[key] == items[k]
    decreases |items|
  {
    k := 0;
    if items != [] {
      var n := |items| - 1;
      var init, last := items[..n], items[n];
      assert items == init + [last];
      assert forall i | 0 <= i < n :: items[i] == init[i];
      k := LatestSpeaks(init, key);
      if key in Latest(init) {
        SpeakerAfter(init, last, k);
        if last.item.identity == key && Newer(last.item.recency, init[k].item.recency) { k := n; }
      } else if last.item.identity == key {
        k := n;
        assert forall i | 0 <= i < n :: init[i].item.identity != key;
      }
    }
  }

  ghost predicate ShowsStatus(t: Tagged, words: seq<string>) {
    t.item.status.Some? && Lines.Fold(t.item.status.value) in words
  }

  ghost predicate SomeSource(items: seq<Tagged>, words: seq<string>) {
    exists k: nat :: SpeaksForSource(items, k) && ShowsStatus(items[k], words)
  }

  lemma {:induction false} SomeSourceIs(items: seq<Tagged>, words: seq<string>)
    ensures AnyLatest(Latest(items), words) <==> SomeSource(items, words)
  {
    if AnyLatest(Latest(items), words) {
      var key :| key in Latest(items) && HasStatus(Latest(items)[key], words);
      var k := LatestSpeaks(items, key);
      assert SpeaksForSource(items, k) && ShowsStatus(items[k], words);
    }
    if SomeSource(items, words) {
      var k: nat :| SpeaksForSource(items, k) && ShowsStatus(items[k], words);
      var key := items[k].item.identity;
      var j := LatestSpeaks(items, key);
      OneSpeaks(items, j, k);
      assert HasStatus(Latest(items)[key], words);
    }
  }

  // ---------------------------------------------------------------- the state of a change

  ghost predicate Failing(h: Holder) {
    var words := ["failure", "failed", "error", "cancelled", "timed_out", "stale", "degraded"];
    SomeSource(h.workflowRuns, words) || SomeSource(h.deployments, words)
  }

  ghost predicate InProgress(h: Holder) {
    var words := ["queued", "requested", "waiting", "pending", "in_progress", "running"];
    SomeSource(h.workflowRuns, words) || SomeSource(h.deployments, words)
  }

  ghost predicate Ready(h: Holder) {
    var words := ["success", "skipped", "inactive", "success_history"];
    SomeSource(h.workflowRuns, words) || SomeSource(h.deployments, words)
  }

  lemma {:induction false} ShownIs(h: Holder, words: seq<string>)
    ensures Shown(h, words) <==> SomeSource(h.workflowRuns, words) || SomeSource(h.deployments, words)
  {
    SomeSourceIs(h.workflowRuns, words);
    SomeSourceIs(h.deployments, words);
  }

  lemma {:induction false} StateOf(h: Holder)
    ensures OverallStatus(h) ==
            if Failing(h) then Attention
            else if InProgress(h) then Running
            else if Ready(h) then ReadyLanded
            else Backlog
  {
    ShownIs(h, FAILING);
    ShownIs(h, RUNNING);
    ShownIs(h, READY);
  }

  /**
   * The lanes of the board: failing changes need attention, of the others those in progress are running, of the rest
   * those with a ready source are ready or landed, and the rest is backlog; each as often as it has a card.
   */
  lemma {:induction false} LanesHold(holders: seq<Holder>, unlinked: seq<Tagged>, collate: (string, string) -> bool,
                                     h: Holder)
    ensures
      var lanes, cards := Board(holders, unlinked, collate), multiset(holders)[h];
      && multiset(lanes.needsAttention)[h] == (if Failing(h) then cards else 0)
      && multiset(lanes.running)[h] == (if !Failing(h) && InProgress(h) then cards else 0)
      && multiset(lanes.readyLanded)[h] == (if !Failing(h) && !InProgress(h) && Ready(h) then cards else 0)
      && multiset(lanes.backlog)[h] == (if !Failing(h) && !InProgress(h) && !Ready(h) then cards else 0)
  {
    StateOf(h);
    LanesPartitionCards(holders, collate, Attention, h);
    LanesPartitionCards(holders, collate, Running, h);
    LanesPartitionCards(holders, collate, ReadyLanded, h);
    LanesPartitionCards(holders, collate, Backlog, h);
  }

  // ---------------------------------------------------------------- order within a lane

  /** More completed gates first, then the later activity, then title, then id. */
  ghost predicate Ordered(collate: (string, string) -> bool, a: Change, b: Change) {
    && a.card.completedGates >= b.card.completedGates
    && (a.card.completedGates == b.card.completedGates ==> collate(b.card.lastActivityAt, a.card.lastActivityAt))
    && (a.card.completedGates == b.card.completedGates && a.card.lastActivityAt == b.card.lastActivityAt ==>
          collate(a.card.title, b.card.title) && (a.card.title == b.card.title ==> collate(a.id, b.id)))
  }

  lemma {:induction false} CardLeIs(collate: (string, string) -> bool, a: Holder, b: Holder)
    requires Sorting.TotalOrder(collate)
    ensures CardLe(collate)(a, b) <==> Ordered(collate, a.change, b.change)
  {
    var x, y := a.change.card, b.change.card;
    assert collate(x.lastActivityAt, x.lastActivityAt) && collate(x.title, x.title);
    assert collate(x.title, y.title) && collate(y.title, x.title) ==> x.title == y.title;
  }

  lemma {:induction false} OrderedIsPreorder(collate: (string, string) -> bool, a: Change, b: Change, c: Change)
    requires Sorting.TotalOrder(collate)
    ensures Ordered(collate, a, b) || Ordered(collate, b, a)
    ensures Ordered(collate, a, b) && Ordered(collate, b, c) ==> Ordered(collate, a, c)
  {
    var x, y, z := a.card, b.card, c.card;
    Compared(collate, x.lastActivityAt, y.lastActivityAt, z.lastActivityAt);
    Compared(collate, z.lastActivityAt, y.lastActivityAt, x.lastActivityAt);
    Compared(collate, x.title, y.title, z.title);
    Compared(collate, a.id, b.id, c.id);
  }

  lemma {:induction false} Compared(collate: (string, string) -> bool, s: string, t: string, u: string)
    requires Sorting.TotalOrder(collate)
    ensures (collate(s, t) || collate(t, s)) && (collate(s, t) && collate(t, s) <==> s == t)
    ensures collate(s, t) && collate(t, u) ==> collate(s, u)
    ensures collate(s, t) && collate(t, u) && s == u ==> s == t
  {
    assert collate(s, s);
  }

  lemma {:induction false} CardOrder(collate: (string, string) -> bool)
    requires Sorting.TotalOrder(collate)
    ensures Sorting.TotalPreorder(CardLe(collate))
  {
    forall a, b ensures CardLe(collate)(a, b) || CardLe(collate)(b, a) {
      CardLeIs(collate, a, b);
      CardLeIs(collate, b, a);
      OrderedIsPreorder(collate, a.change, b.change, a.change);
    }
    forall a, b, c | CardLe(collate)(a, b) && CardLe(collate)(b, c) ensures CardLe(collate)(a, c) {
      CardLeIs(collate, a, b);
      CardLeIs(collate, b, c);
      CardLeIs(collate, a, c);
      OrderedIsPreorder(collate, a.change, b.change, c.change);
    }
  }

  lemma {:induction false} LaneInOrder(holders: seq<Holder>, lane: Overall, collate: (string, string) -> bool)
    requires Sorting.TotalOrder(collate)
    ensures var cards := LaneOf(holders, lane, collate);
            forall i, j | 0 <= i < j < |cards| :: Ordered(collate, cards[i].change, cards[j].change)
  {
    var cards := LaneOf(holders, lane, collate);
    CardOrder(collate);
    Sorting.SortByIsSortedPermutation(CardLe(collate), Where(holders, OverallStatus, lane));
    forall i, j | 0 <= i < j < |cards| ensures Ordered(collate, cards[i].change, cards[j].change) {
      CardLeIs(collate, cards[i], cards[j]);
    }
  }

  ghost predicate InOrder(collate: (string, string) -> bool, cards: seq<Holder>) {
    forall i, j | 0 <= i < j < |cards| :: Ordered(collate, cards[i].change, cards[j].change)
  }

  /** Every lane of changes is in that order. */
  lemma {:induction false} LanesInOrder(holders: seq<Holder>, unlinked: seq<Tagged>, collate: (string, string) -> bool)
    requires Sorting.TotalOrder(collate)
    ensures var lanes := Board(holders, unlinked, collate);
            && InOrder(collate, lanes.needsAttention) && InOrder(collate, lanes.running)
            && InOrder(collate, lanes.readyLanded) && InOrder(collate, lanes.backlog)
  {
    LaneInOrder(holders, Attention, collate);
    LaneInOrder(holders, Running, collate);
    LaneInOrder(holders, ReadyLanded, collate);
    LaneInOrder(holders, Backlog, collate);
  }

  // ---------------------------------------------------------------- what a card holds

  /** How often a read is linked to a change. */
  function TimesLinked(linked: seq<Linked>, id: string, t: Tagged): nat {
    if linked == [] then 0
    else
      var last := linked[|linked| - 1];
      TimesLinked(linked[..|linked| - 1], id, t) + if last.changeId == id && last.tagged == t then 1 else 0
  }

  lemma {:induction false} OfHolds(linked: seq<Linked>, id: string, kind: Kind, t: Tagged)
    ensures multiset(Of(linked, id, kind))[t] == if t.kind == kind then TimesLinked(linked, id, t) else 0
    decreases |linked|
  {
    if linked != [] { OfHolds(linked[..|linked| - 1], id, kind, t); }
  }

  /** A card holds the pulls, runs and deployments linked to its change, each in the list of its kind. */
  lemma {:induction false} CardHolds(entries: seq<Change>, linked: seq<Linked>, i: nat, t: Tagged)
    requires i < |entries|
    ensures var h, n := FillAll(entries, linked)[i], TimesLinked(linked, entries[i].id, t);
            && h.change == entries[i]
            && multiset(h.prs)[t] == (if t.kind == Pull then n else 0)
            && multiset(h.workflowRuns)[t] == (if t.kind == WorkflowRun then n else 0)
            && multiset(h.deployments)[t] == (if t.kind == Deployment then n else 0)
  {
    OfHolds(linked, entries[i].id, Pull, t);
    OfHolds(linked, entries[i].id, WorkflowRun, t);
    OfHolds(linked, entries[i].id, Deployment, t);
  }

  // ---------------------------------------------------------------- repeated ids

  /** The last change with its id. */
  ghost predicate LastOfItsId(changes: seq<Change>, j: nat) {
    j < |changes| && forall k | j < k < |changes| :: changes[k].id != changes[j].id
  }

  lemma {:induction false} RegisterReplaces(entries: seq<Change>, c: Change)
    requires DistinctIds(entries)
    ensures forall e | e in Register(entries, c) :: e == c || (e in entries && e.id != c.id)
    decreases |entries|
  {
    if entries != [] {
      var rest := entries[1..];
      assert entries == [entries[0]] + rest;
      if entries[0].id == c.id {
        forall e | e in rest
          ensures e.id != c.id
        {
          var k :| 0 <= k < |rest| && rest[k] == e;
          assert entries[k + 1] == e;
        }
      } else {
        RegisterReplaces(rest, c);
      }
    }
  }

  /** Of changes that share an id the last one has the card. */
  lemma {:induction false} LastChangeHasTheCard(changes: seq<Change>, e: Change)
    requires e in Entries(changes)
    ensures exists j: nat :: LastOfItsId(changes, j) && changes[j] == e
    decreases |changes|
  {
    if changes != [] {
      var n := |changes| - 1;
      var init, c := changes[..n], changes[n];
      EntriesMean(init);
      RegisterReplaces(Entries(init), c);
      if e == c {
        assert LastOfItsId(changes, n);
      } else {
        LastChangeHasTheCard(init, e);
        var j: nat :| LastOfItsId(init, j) && init[j] == e;
        assert forall k | 0 <= k < n :: init[k] == changes[k];
        assert LastOfItsId(changes, j);
      }
    }
  }
}
