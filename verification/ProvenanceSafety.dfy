/** Why a refresh is safe: only entry roots were added, and the two scans found exactly the same. */
module ProvenanceSafety {
  import opened Options
  import opened Utf16
  import opened CanonicalJson
  import opened Baseline
  import opened ProvenancePlan
  import opened ProvenanceGuarantees
  import Sorting

  // ---------------------------------------------------------------- the comparison is exact

  lemma {:induction false} MissingMeans(left: seq<JsString>, right: seq<JsString>)
    ensures forall x :: x in Missing(left, right) <==> x in left && x !in right
  {
    if left != [] {
      MissingMeans(left[1..], right);
      assert left == [left[0]] + left[1..];
    }
  }

  /** Nothing is reported exactly when nothing on the left is missing on the right. */
  lemma {:induction false} ChangesMeans(leftKeys: seq<JsString>, rightKeys: seq<JsString>, leftDead: seq<JsString>,
                                        rightDead: seq<JsString>)
    ensures var c := Changes(leftKeys, rightKeys, leftDead, rightDead);
            && Sorting.Distinct(c)
            && forall x :: x in c <==> (x in leftKeys && x !in rightKeys) || (x in leftDead && x !in rightDead)
  {
    MissingMeans(leftKeys, rightKeys);
    MissingMeans(leftDead, rightDead);
    Sorting.SortByIsSortedPermutation(Le, Missing(leftKeys, rightKeys));
    Sorting.SortByIsSortedPermutation(Le, Missing(leftDead, rightDead));
    Sorting.DedupeKeeps(Difference(leftKeys, rightKeys) + Difference(leftDead, rightDead));
  }

  lemma {:induction false} NothingChanged(c: seq<JsString>, leftKeys: seq<JsString>, rightKeys: seq<JsString>,
                                          leftDead: seq<JsString>, rightDead: seq<JsString>)
    requires forall x :: x in c <==> (x in leftKeys && x !in rightKeys) || (x in leftDead && x !in rightDead)
    ensures c == [] <==> (forall x | x in leftKeys :: x in rightKeys) && (forall x | x in leftDead :: x in rightDead)
  {
    if c != [] { assert c[0] in c; }
  }

  lemma {:induction false} DistinctSize(xs: seq<JsString>)
    requires Sorting.Distinct(xs)
    ensures |xs| == |set x | x in xs|
  {
    if xs != [] {
      DistinctSize(xs[1..]);
      assert (set x | x in xs) == {xs[0]} + (set x | x in xs[1..]);
      assert xs[0] !in xs[1..];
    }
  }

  lemma {:induction false} SameDistinctSize(xs: seq<JsString>, ys: seq<JsString>)
    requires Sorting.Distinct(xs) && Sorting.Distinct(ys)
    requires forall x :: x in xs <==> x in ys
    ensures |xs| == |ys|
  {
    DistinctSize(xs);
    DistinctSize(ys);
    assert (set x | x in xs) == (set x | x in ys);
  }

  ghost predicate SameValues(xs: seq<JsString>, ys: seq<JsString>) {
    forall x :: x in xs <==> x in ys
  }

  /** One direction of the comparison, before it is cut: the values only the right scan has. */
  lemma {:induction false} ReportMeans(before: seq<JsString>, after: seq<JsString>, beforeDead: seq<JsString>,
                                       afterDead: seq<JsString>) returns (list: seq<JsString>)
    ensures list == Changes(Sorting.Dedupe(after), Sorting.Dedupe(before),
                            Sorting.Dedupe(afterDead), Sorting.Dedupe(beforeDead))
    ensures Sorting.Distinct(list)
    ensures forall x :: x in list <==> (x in after && x !in before) || (x in afterDead && x !in beforeDead)
  {
    Sorting.DedupeKeeps(before);
    Sorting.DedupeKeeps(after);
    Sorting.DedupeKeeps(beforeDead);
    Sorting.DedupeKeeps(afterDead);
    list := Changes(Sorting.Dedupe(after), Sorting.Dedupe(before),
                    Sorting.Dedupe(afterDead), Sorting.Dedupe(beforeDead));
    ChangesMeans(Sorting.Dedupe(after), Sorting.Dedupe(before), Sorting.Dedupe(afterDead), Sorting.Dedupe(beforeDead));
  }

  lemma {:induction false} CutKeepsCount(list: seq<JsString>)
    ensures |Bounded(list)| + Omitted(list) == |list|
    ensures forall x | x in Bounded(list) :: x in list
    ensures Bounded(list) == [] && Omitted(list) == 0 <==> list == []
  {
  }

  /** The lists are cut after twenty values, yet an empty report still means equal sets, and the other way round. */
  lemma {:induction false} ComparisonIsExact(host: Host, input: PlannerInput)
    ensures Unchanged(host, input) <==>
            && |input.beforeFindings| == |input.afterFindings|
            && SameValues(FindingKeys(host, input.beforeFindings), FindingKeys(host, input.afterFindings))
            && SameValues(DeadCodeFingerprints(host, input.beforeFindings),
                          DeadCodeFingerprints(host, input.afterFindings))
  {
    var before, after := FindingKeys(host, input.beforeFindings), FindingKeys(host, input.afterFindings);
    var beforeDead := DeadCodeFingerprints(host, input.beforeFindings);
    var afterDead := DeadCodeFingerprints(host, input.afterFindings);
    UnchangedMeans(host, input, before, after, beforeDead, afterDead);
  }

  lemma {:induction false} SameDeadSize(before: seq<JsString>, after: seq<JsString>)
    requires SameValues(before, after)
    ensures |Sorting.Dedupe(before)| == |Sorting.Dedupe(after)|
  {
    Sorting.DedupeKeeps(before);
    Sorting.DedupeKeeps(after);
    SameDistinctSize(Sorting.Dedupe(before), Sorting.Dedupe(after));
  }

  lemma {:induction false} UnchangedMeans(host: Host, input: PlannerInput, before: seq<JsString>, after: seq<JsString>,
                                          beforeDead: seq<JsString>, afterDead: seq<JsString>)
    requires before == FindingKeys(host, input.beforeFindings) && after == FindingKeys(host, input.afterFindings)
    requires beforeDead == DeadCodeFingerprints(host, input.beforeFindings)
    requires afterDead == DeadCodeFingerprints(host, input.afterFindings)
    ensures Unchanged(host, input) <==>
            && |input.beforeFindings| == |input.afterFindings|
            && SameValues(before, after) && SameValues(beforeDead, afterDead)
  {
    var added := ReportMeans(before, after, beforeDead, afterDead);
    var removed := ReportMeans(after, before, afterDead, beforeDead);
    NothingChanged(added, after, before, afterDead, beforeDead);
    NothingChanged(removed, before, after, beforeDead, afterDead);
    CutKeepsCount(added);
    CutKeepsCount(removed);
    if SameValues(beforeDead, afterDead) { SameDeadSize(beforeDead, afterDead); }
  }

  function NewValues(before: seq<JsString>, after: seq<JsString>): set<JsString> {
    set x | x in after && x !in before
  }

  lemma {:induction false} CountNew(list: seq<JsString>, before: seq<JsString>, after: seq<JsString>,
                                    beforeDead: seq<JsString>, afterDead: seq<JsString>)
    requires Sorting.Distinct(list)
    requires forall x :: x in list <==> (x in after && x !in before) || (x in afterDead && x !in beforeDead)
    ensures |list| == |NewValues(before, after) + NewValues(beforeDead, afterDead)|
  {
    DistinctSize(list);
    assert (set x | x in list) == NewValues(before, after) + NewValues(beforeDead, afterDead);
  }

  /** What a report counts: shown and omitted values together are the distinct new ones. */
  lemma {:induction false} NothingIsLostByCutting(host: Host, input: PlannerInput)
    ensures var c := CompareFindings(host, input);
            var added := NewValues(FindingKeys(host, input.beforeFindings), FindingKeys(host, input.afterFindings))
                         + NewValues(DeadCodeFingerprints(host, input.beforeFindings),
                                     DeadCodeFingerprints(host, input.afterFindings));
            |c.added| + c.addedOmitted == |added| && (forall x | x in c.added :: x in added)
  {
    var before, after := FindingKeys(host, input.beforeFindings), FindingKeys(host, input.afterFindings);
    var beforeDead := DeadCodeFingerprints(host, input.beforeFindings);
    var afterDead := DeadCodeFingerprints(host, input.afterFindings);
    var list := ReportMeans(before, after, beforeDead, afterDead);
    CountNew(list, before, after, beforeDead, afterDead);
    CutKeepsCount(list);
  }

  // ---------------------------------------------------------------- only entry roots were added

  /** The two configurations do not collide: with equal hashes they have equal canonical forms. */
  ghost predicate NoCollision(host: Host, a: Json, b: Json) {
    ConfigHash(host, a) == ConfigHash(host, b) ==> Canonical(a) == Canonical(b)
  }

  lemma {:induction false} SetFieldKeys(fields: seq<Field>, key: JsString, value: Json)
    requires DistinctKeys(fields)
    ensures DistinctKeys(SetField(fields, key, value))
    ensures forall f | f in SetField(fields, key, value) :: f in fields || f == Field(key, value)
  {
    if fields != [] && fields[0].key != key {
      SetFieldKeys(fields[1..], key, value);
      var rest := SetField(fields[1..], key, value);
      forall j | 0 <= j < |rest| ensures rest[j].key != fields[0].key {
        assert rest[j] in rest;
      }
    }
  }

  lemma {:induction false} ArrayOfIsWellFormed(strings: seq<JsString>)
    ensures WellFormed(ArrayOf(strings))
  {
  }

  lemma {:induction false} SetIsWellFormed(v: Json, key: JsString, value: Json)
    requires WellFormed(v) && v.Obj? && WellFormed(value)
    ensures WellFormed(Set(v, key, value))
  {
    SetFieldKeys(v.fields, key, value);
  }

  lemma {:induction false} SameArray(strings: seq<JsString>, other: Json)
    requires Same(ArrayOf(strings), other)
    ensures other == ArrayOf(strings)
  {
    var a := ArrayOf(strings);
    forall i | 0 <= i < |a.items| ensures other.items[i] == a.items[i] {
      assert Same(a.items[i], other.items[i]);
    }
    assert other.items == a.items;
  }

  ghost predicate SameOption(a: Option<Json>, b: Option<Json>) {
    (a.None? && b.None?) || (a.Some? && b.Some? && Same(a.value, b.value))
  }

  lemma {:induction false} SameMembers(a: Json, b: Json, key: JsString)
    requires a.Obj? && Same(a, b) && Same(b, a)
    ensures SameOption(Member(Some(a), key), Member(Some(b), key))
  {
    GetIsField(a.fields, key);
    GetIsField(b.fields, key);
  }

  /**
   * A refresh whose reconstruction is the current configuration with the recorded entry roots proves that the
   * current configuration differs from the reviewed one in its entry roots only, and lost none of them.
   */
  lemma {:induction false} OnlyEntryRootsWereAdded(host: Host, input: PlannerInput, reviewed: Json,
                                                   roots: seq<JsString>)
    requires NoCollision(host, input.reconstructedConfig, reviewed)
    requires WellFormed(input.currentConfig) && input.currentConfig.Obj? && WellFormed(reviewed)
    requires StringArray(Member(Member(Some(input.baseline), PROVENANCE), ENTRY_ROOTS)) == Some(roots)
    requires input.reconstructedConfig == Set(input.currentConfig, ENTRY, ArrayOf(roots))
    requires IsText(Member(Member(Some(input.baseline), PROVENANCE), KNIP_CONFIG_SHA256), ConfigHash(host, reviewed))
    ensures Plan(host, input).Refreshed? ==>
            var entry := StringArray(Member(Some(input.currentConfig), ENTRY));
            && (forall k | k != ENTRY :: SameOption(Member(Some(input.currentConfig), k), Member(Some(reviewed), k)))
            && StringArray(Member(Some(reviewed), ENTRY)) == Some(roots)
            && entry.Some? && forall r | r in roots :: r in entry.value
  {
    if Plan(host, input).Refreshed? {
      var artifact, oldRoots, newRoots := RefreshedMeans(host, input);
      SameConfigs(host, input.currentConfig, reviewed, roots);
    }
  }

  lemma {:induction false} SameConfigs(host: Host, current: Json, reviewed: Json, roots: seq<JsString>)
    requires NoCollision(host, Set(current, ENTRY, ArrayOf(roots)), reviewed)
    requires WellFormed(current) && current.Obj? && WellFormed(reviewed)
    requires ConfigHash(host, Set(current, ENTRY, ArrayOf(roots))) == ConfigHash(host, reviewed)
    ensures forall k | k != ENTRY :: SameOption(Member(Some(current), k), Member(Some(reviewed), k))
    ensures StringArray(Member(Some(reviewed), ENTRY)) == Some(roots)
  {
    var rebuilt := Set(current, ENTRY, ArrayOf(roots));
    ArrayOfIsWellFormed(roots);
    SetIsWellFormed(current, ENTRY, ArrayOf(roots));
    CanonicalFormDecides(rebuilt, reviewed);
    CanonicalFormDecides(reviewed, rebuilt);
    forall k: JsString
      ensures SameOption(Member(Some(rebuilt), k), Member(Some(reviewed), k))
      ensures Member(Some(rebuilt), k) == if k == ENTRY then Some(ArrayOf(roots)) else Member(Some(current), k)
    {
      SameMembers(rebuilt, reviewed, k);
      MemberAfterSet(current, ENTRY, ArrayOf(roots), k);
    }
    var there := Member(Some(reviewed), ENTRY);
    assert SameOption(Some(ArrayOf(roots)), there);
    SameArray(roots, there.value);
    StringsOfArray(roots);
  }

  // ---------------------------------------------------------------- what a fingerprint tells

  /** A dead-code finding of this detector. */
  ghost predicate DeadCodeFinding(f: Json) {
    && Member(Some(f), U("id")) == Some(Str(U("MAINT-003")))
    && Member(Some(f), U("category")) == Some(Str(U("Dead Code")))
  }

  /** Exactly the dead-code findings have fingerprints. */
  lemma {:induction false} FingerprintsAre(host: Host, findings: seq<Json>, x: JsString)
    ensures x in DeadCodeFingerprints(host, findings) <==>
            exists f | f in findings :: DeadCodeFinding(f) && x == DeadCodeFingerprint(host, f)
  {
    if findings != [] {
      FingerprintsAre(host, findings[1..], x);
      assert findings == [findings[0]] + findings[1..];
    }
  }

  /** Two members are the same, a missing one counting as null. */
  ghost predicate SameMember(a: Json, b: Json, key: JsString) {
    FieldOr(Member(Some(a), key)) == FieldOr(Member(Some(b), key))
  }

  /**
   * When the two values are not printed alike by accident, their fingerprints agree exactly on id, name,
   * shortened file and description.
   */
  lemma {:induction false} FingerprintDecides(host: Host, a: Json, b: Json)
    requires var x, y := FingerprintValue(host, a), FingerprintValue(host, b);
             host.stringify(x) == host.stringify(y) ==> x == y
    ensures DeadCodeFingerprint(host, a) == DeadCodeFingerprint(host, b) <==>
            && SameMember(a, b, U("id")) && SameMember(a, b, U("name")) && SameMember(a, b, U("description"))
            && ShortPath(host, Member(Some(a), U("file"))) == ShortPath(host, Member(Some(b), U("file")))
  {
    var x, y := FingerprintValue(host, a), FingerprintValue(host, b);
    assert x.fields == y.fields ==> x.fields[0] == y.fields[0] && x.fields[1] == y.fields[1]
                                    && x.fields[2] == y.fields[2] && x.fields[3] == y.fields[3];
  }
}
