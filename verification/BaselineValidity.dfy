/** When a baseline is valid, said of its members. */
module BaselineValidity {
  import opened Options
  import opened Utf16
  import opened CanonicalJson
  import opened Baseline

  // ---------------------------------------------------------------- the parts of a record

  function Text(s: string): Option<Json> {
    Some(Str(U(s)))
  }

  /** Scope, schema, configuration, head and authority are those of a reviewed dead-code baseline. */
  ghost predicate ReviewedHeader(v: Option<Json>) {
    var scope, p := Member(v, SCOPE), Member(v, PROVENANCE);
    var basis := Member(p, REVIEW_BASIS);
    && Member(scope, U("repo")) == Text("plugin") && Member(scope, U("detector")) == Text("knip")
    && Member(scope, U("finding_id")) == Text("MAINT-003") && Member(scope, CLASSIFICATION) == Text("review-only")
    && Member(v, SCHEMA_VERSION) == Text("dead_code_baseline.v1")
    && StringArray(Member(p, ENTRY_ROOTS)).Some? && StringArray(Member(p, PROJECT_PATTERNS)).Some?
    && IsHexText(Member(p, KNIP_CONFIG_SHA256), 64) && IsHexText(Member(p, GIT_HEAD), 40)
    && StringArray(Member(v, FINGERPRINTS)).Some?
    && Member(basis, CLASSIFICATION) == Text("review-only")
    && Member(basis, DELETION_OWNER) == Text("clearDeadCodeBaseline")
    && Member(basis, DELETION_AUTHORITY) == Some(Bool(false))
    && Member(basis, REFRESH_OWNER) in {None, Text("dead-code:provenance:refresh")}
  }

  /** An entry of the coverage review: roots and two numbers. */
  ghost predicate ReviewEntry(v: Json) {
    && StringArray(Member(Some(v), ENTRY_ROOTS)).Some?
    && (exists n :: Member(Some(v), NORMALIZED_COUNT) == Some(Num(n)))
    && (exists n :: Member(Some(v), FINGERPRINT_TOTAL) == Some(Num(n)))
  }

  ghost predicate CoverageRecorded(host: Host, coverage: Option<Json>) {
    && coverage.Some? && (coverage.value.Obj? || coverage.value.Arr?)
    && (forall f | f in Entries(host, coverage.value) && f.key != UNCHANGED_REASON :: ReviewEntry(f.value))
    && (exists s :: Member(coverage, UNCHANGED_REASON) == Some(Str(s)))
  }

  /** What a fingerprint holds. */
  ghost predicate Identity(v: Json) {
    && Member(Some(v), U("id")) == Text("MAINT-003")
    && (exists s :: Member(Some(v), U("name")) == Some(Str(s)))
    && (exists s :: Member(Some(v), U("file")) == Some(Str(s)))
    && (exists s :: Member(Some(v), U("description")) == Some(Str(s)))
  }

  /** The fingerprints ascend strictly, are identities, and are counted, in all and by kind. */
  ghost predicate FingerprintsRecorded(host: Host, p: Option<Json>, fingerprints: seq<JsString>) {
    && (forall i, j | 0 <= i < j < |fingerprints| :: Compare(fingerprints[i], fingerprints[j]) < 0)
    && (forall i | 0 <= i < |fingerprints| ::
          host.parse(fingerprints[i]).Some? && Identity(host.parse(fingerprints[i]).value))
    && Member(p, FINGERPRINT_COUNT) == Some(Num(|fingerprints| as real))
    && KindCounts(host, fingerprints).Some?
    && SameText(host, KindCounts(host, fingerprints), Member(p, KIND_COUNTS))
  }

  function Whole(n: nat): Json {
    Num(n as real)
  }

  /** A whole number above zero that both reviews record. */
  ghost predicate RecordedTwice(before: Option<Json>, after: Option<Json>, key: JsString) {
    exists n: nat :: n > 0 && Member(before, key) == Some(Whole(n)) && Member(after, key) == Some(Whole(n))
  }

  /** The review compared fewer roots with the recorded ones, found the same, and says so. */
  ghost predicate HistoryRecorded(p: Option<Json>) {
    var coverage := Member(p, COVERAGE_REVIEW);
    var before, after := Member(coverage, BEFORE), Member(coverage, AFTER);
    var old', new' := StringArray(Member(before, ENTRY_ROOTS)), StringArray(Member(after, ENTRY_ROOTS));
    && RecordedTwice(before, after, NORMALIZED_COUNT)
    && RecordedTwice(before, after, FINGERPRINT_TOTAL)
    && old'.Some? && new'.Some? && new' == StringArray(Member(p, ENTRY_ROOTS))
    && |old'.value| < |new'.value| && (forall r | r in old'.value :: r in new'.value)
    && (exists s :: Member(coverage, UNCHANGED_REASON) == Some(Str(s)) && MentionsExact(s))
  }

  ghost predicate ValidRecord(host: Host, baseline: Json) {
    var v, p := Some(baseline), Member(Some(baseline), PROVENANCE);
    && ReviewedHeader(v) && CoverageRecorded(host, Member(p, COVERAGE_REVIEW))
    && FingerprintsRecorded(host, p, StringArray(Member(v, FINGERPRINTS)).value) && HistoryRecorded(p)
  }

  // ---------------------------------------------------------------- part by part

  lemma {:induction false} HeaderMeans(v: Option<Json>)
    ensures BasicIssues(v, Member(v, PROVENANCE)) == [] <==> ReviewedHeader(v)
  {
  }

  lemma {:induction false} ReviewsMean(entries: seq<Field>)
    ensures ReviewIssues(entries) == [] <==>
            forall f | f in entries && f.key != UNCHANGED_REASON :: ReviewEntry(f.value)
  {
    if entries != [] {
      ReviewsMean(entries[1..]);
      assert entries == [entries[0]] + entries[1..];
      assert ReviewOk(entries[0].value) <==> ReviewEntry(entries[0].value) by { ReviewMeans(entries[0].value); }
    }
  }

  lemma {:induction false} NumberIs(v: Option<Json>)
    ensures (v.Some? && v.value.Num?) <==> exists n :: v == Some(Num(n))
  {
    if v.Some? && v.value.Num? { assert v == Some(Num(v.value.n)); }
  }

  lemma {:induction false} TextIs(v: Option<Json>)
    ensures (v.Some? && v.value.Str?) <==> exists s :: v == Some(Str(s))
  {
    if v.Some? && v.value.Str? { assert v == Some(Str(v.value.s)); }
  }

  lemma {:induction false} ReviewMeans(v: Json)
    ensures ReviewOk(v) <==> ReviewEntry(v)
  {
    NumberIs(Member(Some(v), NORMALIZED_COUNT));
    NumberIs(Member(Some(v), FINGERPRINT_TOTAL));
  }

  lemma {:induction false} CoverageMeans(host: Host, coverage: Option<Json>)
    ensures CoverageIssues(host, coverage) == [] <==> CoverageRecorded(host, coverage)
  {
    if coverage.Some? { ReviewsMean(Entries(host, coverage.value)); }
    TextIs(Member(coverage, UNCHANGED_REASON));
  }

  lemma {:induction false} SortedMeans(fingerprints: seq<JsString>)
    ensures StrictlySorted(fingerprints) <==>
            forall i, j | 0 <= i < j < |fingerprints| :: Compare(fingerprints[i], fingerprints[j]) < 0
  {
    if StrictlySorted(fingerprints) {
      forall i, j | 0 <= i < j < |fingerprints| ensures Compare(fingerprints[i], fingerprints[j]) < 0 {
        Ascends(fingerprints, i, j);
      }
    }
  }

  lemma {:induction false} Ascends(fingerprints: seq<JsString>, i: nat, j: nat)
    requires StrictlySorted(fingerprints) && i < j < |fingerprints|
    ensures Compare(fingerprints[i], fingerprints[j]) < 0
    decreases j
  {
    if i + 1 < j {
      var a, b, c := fingerprints[i], fingerprints[j - 1], fingerprints[j];
      Ascends(fingerprints, i, j - 1);
      assert Compare(b, c) < 0;
      CodePointOrderIsTotal();
      CompareLaws(a, b);
      CompareLaws(a, c);
      assert Le(a, b) && Le(b, c) && Le(a, c);
    }
  }

  lemma {:induction false} IdentityMeans(v: Json)
    ensures IdentityOk(v) <==> Identity(v)
  {
    TextIs(Member(Some(v), U("name")));
    TextIs(Member(Some(v), U("file")));
    TextIs(Member(Some(v), U("description")));
  }

  lemma {:induction false} IdentitiesMean(host: Host, fingerprints: seq<JsString>)
    ensures IdentityIssues(host, fingerprints) == [] <==>
            forall i | 0 <= i < |fingerprints| ::
              host.parse(fingerprints[i]).Some? && Identity(host.parse(fingerprints[i]).value)
  {
    if fingerprints != [] {
      var rest := fingerprints[1..];
      IdentitiesMean(host, rest);
      assert forall i | 0 <= i < |rest| :: rest[i] == fingerprints[i + 1];
      if host.parse(fingerprints[0]).Some? { IdentityMeans(host.parse(fingerprints[0]).value); }
      if IdentityIssues(host, fingerprints) == [] {
        forall i | 0 <= i < |fingerprints|
          ensures host.parse(fingerprints[i]).Some? && Identity(host.parse(fingerprints[i]).value)
        {
          if i > 0 { assert fingerprints[i] == rest[i - 1]; }
        }
      }
    }
  }

  lemma {:induction false} FingerprintsMean(host: Host, p: Option<Json>, fingerprints: seq<JsString>)
    ensures FingerprintIssues(host, p, fingerprints) == [] <==> FingerprintsRecorded(host, p, fingerprints)
  {
    SortedMeans(fingerprints);
    IdentitiesMean(host, fingerprints);
  }

  lemma {:induction false} CountsMean(before: Option<Json>, after: Option<Json>, key: JsString)
    ensures IsPositive(Member(before, key)) && IsPositive(Member(after, key))
            && Member(before, key) == Member(after, key)
            <==> RecordedTwice(before, after, key)
  {
    var v := Member(before, key);
    if IsPositive(v) { assert v == Some(Whole(v.value.n.Floor)); }
    if n: nat :| n > 0 && v == Some(Whole(n)) { assert (n as real).Floor == n; }
  }

  lemma {:induction false} RootsMean(old': Option<seq<JsString>>, new': Option<seq<JsString>>,
                                     recorded: Option<seq<JsString>>)
    ensures RootsOk(old', new', recorded) <==>
            && old'.Some? && new'.Some? && new' == recorded
            && |old'.value| < |new'.value| && (forall r | r in old'.value :: r in new'.value)
  {
  }

  lemma {:induction false} BothCountsMean(before: Option<Json>, after: Option<Json>)
    ensures CountsOk(before, after) <==>
            RecordedTwice(before, after, NORMALIZED_COUNT) && RecordedTwice(before, after, FINGERPRINT_TOTAL)
  {
    CountsMean(before, after, NORMALIZED_COUNT);
    CountsMean(before, after, FINGERPRINT_TOTAL);
  }

  lemma {:induction false} NoHistoryIssues(p: Option<Json>)
    requires IsObjectLike(Member(p, COVERAGE_REVIEW))
    ensures var coverage := Member(p, COVERAGE_REVIEW);
            var before, after := Member(coverage, BEFORE), Member(coverage, AFTER);
            var reason := Member(coverage, UNCHANGED_REASON);
            HistoryIssues(p) == [] <==>
            && CountsOk(before, after)
            && RootsOk(StringArray(Member(before, ENTRY_ROOTS)), StringArray(Member(after, ENTRY_ROOTS)),
                       StringArray(Member(p, ENTRY_ROOTS)))
            && reason.Some? && reason.value.Str? && MentionsExact(reason.value.s)
  {
  }

  lemma {:induction false} HistoryMeans(p: Option<Json>)
    requires IsObjectLike(Member(p, COVERAGE_REVIEW))
    ensures HistoryIssues(p) == [] <==> HistoryRecorded(p)
  {
    var coverage := Member(p, COVERAGE_REVIEW);
    var before, after := Member(coverage, BEFORE), Member(coverage, AFTER);
    NoHistoryIssues(p);
    BothCountsMean(before, after);
    RootsMean(StringArray(Member(before, ENTRY_ROOTS)), StringArray(Member(after, ENTRY_ROOTS)),
              StringArray(Member(p, ENTRY_ROOTS)));
    TextIs(Member(coverage, UNCHANGED_REASON));
  }

  /** There are no issues exactly when the record is valid. */
  lemma {:induction false} ValidMeans(host: Host, baseline: Json)
    ensures Validate(host, baseline) == [] <==> ValidRecord(host, baseline)
  {
    var v, p := Some(baseline), Member(Some(baseline), PROVENANCE);
    HeaderMeans(v);
    CoverageMeans(host, Member(p, COVERAGE_REVIEW));
    if StringArray(Member(v, FINGERPRINTS)).Some? {
      FingerprintsMean(host, p, StringArray(Member(v, FINGERPRINTS)).value);
    }
    if IsObjectLike(Member(p, COVERAGE_REVIEW)) { HistoryMeans(p); }
  }
}
