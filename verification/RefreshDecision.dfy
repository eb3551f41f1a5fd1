/** When the planner refreshes, refuses and blocks, said of its input; and what it writes. */
module RefreshDecision {
  import opened Options
  import opened Utf16
  import opened CanonicalJson
  import opened Baseline
  import opened BaselineValidity
  import opened ProvenancePlan
  import opened ProvenanceGuarantees
  import opened ProvenanceSafety
  import Sorting

  // ---------------------------------------------------------------- the input, read

  function RecordOf(input: PlannerInput): Option<Json> {
    Member(Some(input.baseline), PROVENANCE)
  }

  function RecordedRoots(input: PlannerInput): Option<seq<JsString>> {
    StringArray(Member(RecordOf(input), ENTRY_ROOTS))
  }

  function EntryNow(input: PlannerInput): Option<seq<JsString>> {
    StringArray(Member(Some(input.currentConfig), ENTRY))
  }

  function ProjectNow(input: PlannerInput): Option<seq<JsString>> {
    StringArray(Member(Some(input.currentConfig), PROJECT))
  }

  /** The recorded hash is that of the current configuration with the recorded roots put back. */
  ghost predicate HashRecorded(host: Host, input: PlannerInput) {
    var hash := host.sha256(host.stringify(Canonical(input.reconstructedConfig)));
    Member(RecordOf(input), KNIP_CONFIG_SHA256) == Some(Str(hash))
  }

  ghost predicate PatternsSame(host: Host, input: PlannerInput) {
    SameText(host, Member(RecordOf(input), PROJECT_PATTERNS), Member(Some(input.currentConfig), PROJECT))
  }

  ghost predicate SomethingFound(host: Host, input: PlannerInput) {
    && input.beforeFindings != [] && input.afterFindings != []
    && DeadCodeFingerprints(host, input.beforeFindings) != [] && DeadCodeFingerprints(host, input.afterFindings) != []
  }

  /** Both scans found as many findings, and the same ones up to repetition and key order. */
  ghost predicate SameFound(host: Host, input: PlannerInput) {
    && |input.beforeFindings| == |input.afterFindings|
    && SameValues(FindingKeys(host, input.beforeFindings), FindingKeys(host, input.afterFindings))
    && SameValues(DeadCodeFingerprints(host, input.beforeFindings), DeadCodeFingerprints(host, input.afterFindings))
  }

  /** Every condition of a refresh. */
  ghost predicate Refreshable(host: Host, input: PlannerInput) {
    && ValidRecord(host, input.baseline) && EntryNow(input).Some? && ProjectNow(input).Some?
    && (forall r | r in RecordedRoots(input).value :: r in EntryNow(input).value)
    && |RecordedRoots(input).value| < |EntryNow(input).value|
    && HashRecorded(host, input) && PatternsSame(host, input)
    && IsHex(Str(input.currentConfigHash), 64) && IsHex(Str(input.gitHead), 40)
    && SomethingFound(host, input) && SameFound(host, input)
  }

  // ---------------------------------------------------------------- the candidate

  lemma {:induction false} ExactInside(front: JsString, word: JsString, rest: JsString)
    requires word == [101, 120, 97, 99, 116]
    ensures MentionsExact(front + word + rest)
  {
    var s, i := front + word + rest, |front|;
    assert s[i] == 101 && s[i + 1] == 120 && s[i + 2] == 97 && s[i + 3] == 99 && s[i + 4] == 116;
    assert ExactAt(s, i);
  }

  lemma {:induction false} ReasonMentionsExact(host: Host, a: JsString, b: JsString)
    ensures MentionsExact(Reasoning(host, a, b))
  {
    assert EXACT == [101, 120, 97, 99, 116];
    ExactInside(REASON_FRONT, EXACT, REASON_SCANS + a + REASON_FINDINGS + b + REASON_END);
  }

  /** What the planner's own coverage review records. */
  lemma {:induction false} CoverageIsRecorded(host: Host, roots: seq<JsString>, added: seq<JsString>, n: nat, d: nat)
    ensures CoverageRecorded(host, Some(Coverage(host, roots, added, n, n, d, d)))
  {
    var coverage := Coverage(host, roots, added, n, n, d, d);
    CoverageMembers(host, roots, added, n, n, d, d);
    ReviewMembers(roots, n, d);
    ReviewMembers(added, n, d);
    forall f | f in Entries(host, coverage) && f.key != UNCHANGED_REASON ensures ReviewEntry(f.value) {
      assert f.value == Review(roots, n, d) || f.value == Review(added, n, d);
    }
  }

  lemma {:induction false} HistoryFrom(q: Option<Json>, coverage: Json, before: Json, after: Json, roots: seq<JsString>,
                                       added: seq<JsString>, n: nat, d: nat, reason: JsString)
    requires Member(q, COVERAGE_REVIEW) == Some(coverage) && StringArray(Member(q, ENTRY_ROOTS)) == Some(added)
    requires Member(Some(coverage), BEFORE) == Some(before) && Member(Some(coverage), AFTER) == Some(after)
    requires Member(Some(coverage), UNCHANGED_REASON) == Some(Str(reason)) && MentionsExact(reason)
    requires StringArray(Member(Some(before), ENTRY_ROOTS)) == Some(roots)
    requires StringArray(Member(Some(after), ENTRY_ROOTS)) == Some(added)
    requires n > 0 && d > 0
    requires RecordsCounts(before, n, d) && RecordsCounts(after, n, d)
    ensures HistoryRecorded(q) <==> |roots| < |added| && forall r | r in roots :: r in added
  {
  }

  ghost predicate RecordsCounts(review: Json, n: nat, d: nat) {
    && Member(Some(review), NORMALIZED_COUNT) == Some(Whole(n))
    && Member(Some(review), FINGERPRINT_TOTAL) == Some(Whole(d))
  }

  lemma {:induction false} HistoryIsRecorded(q: Option<Json>, host: Host, roots: seq<JsString>, added: seq<JsString>,
                                             n: nat, d: nat)
    requires Member(q, COVERAGE_REVIEW) == Some(Coverage(host, roots, added, n, n, d, d))
    requires StringArray(Member(q, ENTRY_ROOTS)) == Some(added) && n > 0 && d > 0
    ensures HistoryRecorded(q) <==> |roots| < |added| && forall r | r in roots :: r in added
  {
    CoverageMembers(host, roots, added, n, n, d, d);
    ReviewMembers(roots, n, d);
    ReviewMembers(added, n, d);
    var reason := Reasoning(host, host.show(n as real), host.show(d as real));
    ReasonMentionsExact(host, host.show(n as real), host.show(d as real));
    HistoryFrom(q, Coverage(host, roots, added, n, n, d, d), Review(roots, n, d), Review(added, n, d), roots, added,
                n, d, reason);
  }

  /** The members of the edited copy that validation reads. */
  ghost predicate EditOf(v: Option<Json>, p: Option<Json>, w: Option<Json>, q: Option<Json>, input: PlannerInput,
                         entry: seq<JsString>)
  {
    && Member(w, PROVENANCE) == q
    && Member(w, SCOPE) == Member(v, SCOPE) && Member(w, SCHEMA_VERSION) == Member(v, SCHEMA_VERSION)
    && Member(w, FINGERPRINTS) == Member(v, FINGERPRINTS)
    && StringArray(Member(q, ENTRY_ROOTS)) == Some(entry)
    && Member(q, PROJECT_PATTERNS) == Member(p, PROJECT_PATTERNS)
    && Member(q, KNIP_CONFIG_SHA256) == Some(Str(input.currentConfigHash))
    && Member(q, GIT_HEAD) == Some(Str(input.gitHead))
    && Member(q, FINGERPRINT_COUNT) == Member(p, FINGERPRINT_COUNT)
    && Member(q, KIND_COUNTS) == Member(p, KIND_COUNTS)
    && var new', old' := Member(q, REVIEW_BASIS), Member(p, REVIEW_BASIS);
       && Member(new', REFRESH_OWNER) == Some(Str(REFRESH_COMMAND))
       && Member(new', CLASSIFICATION) == Member(old', CLASSIFICATION)
       && Member(new', DELETION_OWNER) == Member(old', DELETION_OWNER)
       && Member(new', DELETION_AUTHORITY) == Member(old', DELETION_AUTHORITY)
  }

  lemma {:induction false} CandidateIsEdit(host: Host, input: PlannerInput, roots: seq<JsString>, entry: seq<JsString>)
    requires Validate(host, input.baseline) == []
    ensures var w := Some(Candidate(host, input, roots, entry));
            && EditOf(Some(input.baseline), RecordOf(input), w, Member(w, PROVENANCE), input, entry)
            && Member(Member(w, PROVENANCE), COVERAGE_REVIEW) == Some(CoverageOf(host, input, roots, entry))
  {
    var p, basis, f := ValidShape(host, input.baseline);
    var coverage := CoverageOf(host, input, roots, entry);
    TopMembers(input.baseline, NewProvenance(p, basis, input.currentConfigHash, entry, input.gitHead, coverage));
    NewProvenanceMembers(p, basis, input.currentConfigHash, entry, input.gitHead, coverage);
    BasisMembers(basis);
    StringsOfArray(entry);
  }

  lemma {:induction false} HeaderOfEdit(v: Option<Json>, w: Option<Json>, input: PlannerInput, entry: seq<JsString>)
    requires ReviewedHeader(v) && EditOf(v, Member(v, PROVENANCE), w, Member(w, PROVENANCE), input, entry)
    ensures ReviewedHeader(w) <==> IsHex(Str(input.currentConfigHash), 64) && IsHex(Str(input.gitHead), 40)
  {
  }

  lemma {:induction false} FingerprintsOfEdit(host: Host, p: Option<Json>, q: Option<Json>, f: seq<JsString>)
    requires Member(q, FINGERPRINT_COUNT) == Member(p, FINGERPRINT_COUNT)
    requires Member(q, KIND_COUNTS) == Member(p, KIND_COUNTS)
    ensures FingerprintsRecorded(host, q, f) <==> FingerprintsRecorded(host, p, f)
  {
  }

  /**
   * The edited copy of a valid baseline is valid exactly when the hashes are, and roots were added and none
   * removed.
   */
  lemma {:induction false} CandidateIsValid(host: Host, input: PlannerInput, roots: seq<JsString>, entry: seq<JsString>)
    requires ValidRecord(host, input.baseline)
    requires |input.beforeFindings| == |input.afterFindings| > 0
    requires |DeadSet(host, input.beforeFindings)| == |DeadSet(host, input.afterFindings)| > 0
    ensures ValidRecord(host, Candidate(host, input, roots, entry)) <==>
            && IsHex(Str(input.currentConfigHash), 64) && IsHex(Str(input.gitHead), 40)
            && |roots| < |entry| && forall r | r in roots :: r in entry
  {
    var w := Some(Candidate(host, input, roots, entry));
    var p, q := RecordOf(input), Member(w, PROVENANCE);
    var n, d := |input.beforeFindings|, |DeadSet(host, input.beforeFindings)|;
    ValidMeans(host, input.baseline);
    CandidateIsEdit(host, input, roots, entry);
    HeaderOfEdit(Some(input.baseline), w, input, entry);
    CoverageIsRecorded(host, roots, entry, n, d);
    HistoryIsRecorded(q, host, roots, entry, n, d);
    FingerprintsOfEdit(host, p, q, StringArray(Member(w, FINGERPRINTS)).value);
  }

  // ---------------------------------------------------------------- the decision

  lemma {:induction false} DedupeEmpty(xs: seq<JsString>)
    ensures Sorting.Dedupe(xs) == [] <==> xs == []
  {
    Sorting.DedupeKeeps(xs);
    if xs != [] { assert xs[0] in Sorting.Dedupe(xs); }
  }

  /** The checks that need no scan. */
  lemma {:induction false} InputDecides(host: Host, input: PlannerInput)
    requires RecordedRoots(input).Some? && EntryNow(input).Some? && ProjectNow(input).Some?
    ensures
      var objection := Objection(host, input, []);
      if exists r | r in RecordedRoots(input).value :: r !in EntryNow(input).value then
        objection == Some(Refused(EntryRootRemoved))
      else if !HashRecorded(host, input) then objection == Some(Refused(HashMismatch))
      else if !PatternsSame(host, input) then objection == Some(Refused(ProjectChanged))
      else if !IsHex(Str(input.gitHead), 40) then objection == Some(Blocked(GitHeadInvalid))
      else objection == None
  {
  }

  /** The planner after a valid baseline and a readable configuration. */
  lemma {:induction false} PlanFrom(host: Host, input: PlannerInput, roots: seq<JsString>, entry: seq<JsString>)
    requires Validate(host, input.baseline) == []
    requires RecordedRoots(input) == Some(roots) && EntryNow(input) == Some(entry)
    ensures var objection := Objection(host, input, []);
            Plan(host, input) == if objection.Some? then objection.value else Compared(host, input, roots, entry)
  {
  }

  lemma {:induction false} PlanOfUnreadable(host: Host, input: PlannerInput)
    ensures Validate(host, input.baseline) != [] ==>
              Plan(host, input) == Blocked(BaselineInvalid(Validate(host, input.baseline)))
    ensures Validate(host, input.baseline) == [] && (EntryNow(input).None? || ProjectNow(input).None?) ==>
              Plan(host, input) == Blocked(ConfigNotArrays)
  {
  }

  lemma {:induction false} DeadSetsAlike(host: Host, input: PlannerInput)
    requires SomethingFound(host, input) && SameFound(host, input)
    ensures |DeadSet(host, input.beforeFindings)| == |DeadSet(host, input.afterFindings)| > 0
  {
    DedupeEmpty(DeadCodeFingerprints(host, input.beforeFindings));
    SameDeadSize(DeadCodeFingerprints(host, input.beforeFindings), DeadCodeFingerprints(host, input.afterFindings));
  }

  /** The part that needs the scans, and the edit. */
  lemma {:induction false} ComparedDecides(host: Host, input: PlannerInput, roots: seq<JsString>, entry: seq<JsString>)
    requires ValidRecord(host, input.baseline) && IsHex(Str(input.gitHead), 40) && forall r | r in roots :: r in entry
    ensures
      var c := Compared(host, input, roots, entry);
      if !SomethingFound(host, input) then c == Blocked(NothingToCompare)
      else if !SameFound(host, input) then c == Refused(FindingsDiffer)
      else if |roots| >= |entry| || !IsHex(Str(input.currentConfigHash), 64) then
        c.Blocked? && c.reason.CandidateInvalid?
      else c == Refreshed(CompareFindings(host, input), Candidate(host, input, roots, entry))
  {
    ScansDecide(host, input, roots, entry);
    if SomethingFound(host, input) && SameFound(host, input) {
      DeadSetsAlike(host, input);
      CandidateIsValid(host, input, roots, entry);
    }
  }

  /** What the planner answers, cause by cause in the order in which causes count. */
  lemma {:induction false} PlanMeans(host: Host, input: PlannerInput)
    ensures
      var plan, roots, entry := Plan(host, input), RecordedRoots(input), EntryNow(input);
      if !ValidRecord(host, input.baseline) then plan == Blocked(BaselineInvalid(Validate(host, input.baseline)))
      else if entry.None? || ProjectNow(input).None? then plan == Blocked(ConfigNotArrays)
      else if exists r | r in roots.value :: r !in entry.value then plan == Refused(EntryRootRemoved)
      else if !HashRecorded(host, input) then plan == Refused(HashMismatch)
      else if !PatternsSame(host, input) then plan == Refused(ProjectChanged)
      else if !IsHex(Str(input.gitHead), 40) then plan == Blocked(GitHeadInvalid)
      else if !SomethingFound(host, input) then plan == Blocked(NothingToCompare)
      else if !SameFound(host, input) then plan == Refused(FindingsDiffer)
      else if |roots.value| >= |entry.value| || !IsHex(Str(input.currentConfigHash), 64) then
        plan.Blocked? && plan.reason.CandidateInvalid?
      else plan.Refreshed?
  {
    ValidMeans(host, input.baseline);
    PlanOfUnreadable(host, input);
    if ValidRecord(host, input.baseline) && EntryNow(input).Some? && ProjectNow(input).Some? {
      var roots, entry := RecordedRoots(input).value, EntryNow(input).value;
      PlanFrom(host, input, roots, entry);
      InputDecides(host, input);
      if Objection(host, input, []).None? { ComparedDecides(host, input, roots, entry); }
    }
  }

  /** The planner refreshes exactly when every condition holds. */
  lemma {:induction false} RefreshesWhen(host: Host, input: PlannerInput)
    ensures Plan(host, input).Refreshed? <==> Refreshable(host, input)
  {
    PlanMeans(host, input);
  }

  /** The same of the part that compares the scans. */
  lemma {:induction false} ScansDecide(host: Host, input: PlannerInput, roots: seq<JsString>, entry: seq<JsString>)
    ensures
      var c := Compared(host, input, roots, entry);
      if !SomethingFound(host, input) then c == Blocked(NothingToCompare)
      else if !SameFound(host, input) then c == Refused(FindingsDiffer)
      else if ValidRecord(host, Candidate(host, input, roots, entry)) then
        c == Refreshed(CompareFindings(host, input), Candidate(host, input, roots, entry))
      else c == Blocked(CandidateInvalid(Validate(host, Candidate(host, input, roots, entry))))
  {
    DedupeEmpty(DeadCodeFingerprints(host, input.beforeFindings));
    DedupeEmpty(DeadCodeFingerprints(host, input.afterFindings));
    ComparisonIsExact(host, input);
    ValidMeans(host, Candidate(host, input, roots, entry));
  }

  // ---------------------------------------------------------------- what a refresh writes

  ghost predicate ReviewIs(review: Option<Json>, roots: seq<JsString>, n: nat, d: nat) {
    && StringArray(Member(review, ENTRY_ROOTS)) == Some(roots)
    && Member(review, NORMALIZED_COUNT) == Some(Whole(n)) && Member(review, FINGERPRINT_TOTAL) == Some(Whole(d))
  }

  /** How many different dead-code fingerprints the findings have. */
  function DeadCount(host: Host, findings: seq<Json>): nat {
    |set x | x in DeadCodeFingerprints(host, findings)|
  }

  lemma {:induction false} DeadCountIs(host: Host, findings: seq<Json>)
    ensures |DeadSet(host, findings)| == DeadCount(host, findings)
  {
    var all := DeadCodeFingerprints(host, findings);
    Sorting.DedupeKeeps(all);
    DistinctSize(Sorting.Dedupe(all));
    assert (set x | x in Sorting.Dedupe(all)) == (set x | x in all);
  }

  lemma {:induction false} RefreshIs(host: Host, input: PlannerInput)
    ensures Plan(host, input).Refreshed? ==>
              Validate(host, input.baseline) == [] && SameFound(host, input)
              && Plan(host, input) ==
                 Refreshed(CompareFindings(host, input),
                           Candidate(host, input, RecordedRoots(input).value, EntryNow(input).value))
  {
    RefreshesWhen(host, input);
    if Plan(host, input).Refreshed? {
      ValidMeans(host, input.baseline);
      PlanFrom(host, input, RecordedRoots(input).value, EntryNow(input).value);
      InputDecides(host, input);
      ComparedDecides(host, input, RecordedRoots(input).value, EntryNow(input).value);
    }
  }

  lemma {:induction false} CoverageRecords(host: Host, input: PlannerInput, roots: seq<JsString>, entry: seq<JsString>)
    ensures var c := Some(CoverageOf(host, input, roots, entry));
            && ReviewIs(Member(c, BEFORE), roots, |input.beforeFindings|, DeadCount(host, input.beforeFindings))
            && ReviewIs(Member(c, AFTER), entry, |input.afterFindings|, DeadCount(host, input.afterFindings))
  {
    var n, m := |input.beforeFindings|, |input.afterFindings|;
    var d, e := DeadCount(host, input.beforeFindings), DeadCount(host, input.afterFindings);
    DeadCountIs(host, input.beforeFindings);
    DeadCountIs(host, input.afterFindings);
    CoverageMembers(host, roots, entry, n, m, d, e);
    ReviewMembers(roots, n, d);
    ReviewMembers(entry, m, e);
  }

  /**
   * A refresh writes the current roots, hash and head, the refresh owner and a review that goes from the recorded
   * roots to the current ones with the counts of the two scans; it keeps the other members, and reports the counts
   * and no difference.
   */
  lemma {:induction false} RefreshWrites(host: Host, input: PlannerInput)
    ensures
      var plan := Plan(host, input);
      plan.Refreshed? ==>
        var w := Some(plan.artifact);
        var coverage := Member(Member(w, PROVENANCE), COVERAGE_REVIEW);
        && EditOf(Some(input.baseline), RecordOf(input), w, Member(w, PROVENANCE), input, EntryNow(input).value)
        && ReviewIs(Member(coverage, BEFORE), RecordedRoots(input).value, |input.beforeFindings|,
                    DeadCount(host, input.beforeFindings))
        && ReviewIs(Member(coverage, AFTER), EntryNow(input).value, |input.afterFindings|,
                    DeadCount(host, input.afterFindings))
        && plan.comparison ==
           Comparison(|input.afterFindings|, DeadCount(host, input.afterFindings), [], [], 0, 0)
  {
    RefreshIs(host, input);
    if Plan(host, input).Refreshed? {
      CandidateIsEdit(host, input, RecordedRoots(input).value, EntryNow(input).value);
      CoverageRecords(host, input, RecordedRoots(input).value, EntryNow(input).value);
      DeadCountIs(host, input.afterFindings);
      ComparisonIsExact(host, input);
    }
  }
}
