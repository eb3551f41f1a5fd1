/** What a refresh answers before it runs any scan, said of the two files. */
module RefreshGateMeaning {
  import opened Options
  import opened Utf16
  import opened CanonicalJson
  import opened Baseline
  import opened BaselineValidity
  import opened ProvenancePlan

  // ---------------------------------------------------------------- when a record is current

  /** The reason a review gives when the planner wrote it, for the counts it records. */
  ghost predicate PlannersReason(host: Host, coverage: Option<Json>) {
    exists n: nat, d: nat ::
      && RecordsBoth(Member(coverage, AFTER), n, d)
      && Member(coverage, UNCHANGED_REASON) ==
         Some(Str(Reasoning(host, host.show(n as real), host.show(d as real))))
  }

  ghost predicate RecordsBoth(review: Option<Json>, n: nat, d: nat) {
    Member(review, NORMALIZED_COUNT) == Some(Whole(n)) && Member(review, FINGERPRINT_TOTAL) == Some(Whole(d))
  }

  /**
   * A valid baseline is current for a configuration and its hash when it records that hash, those roots and those
   * patterns, names the refresh owner, and its review reads as the planner writes it.
   */
  ghost predicate RecordsCurrent(host: Host, baseline: Json, config: Json, hash: JsString) {
    var p := Member(Some(baseline), PROVENANCE);
    && StringArray(Member(Some(config), ENTRY)).Some? && StringArray(Member(Some(config), PROJECT)).Some?
    && Member(p, KNIP_CONFIG_SHA256) == Some(Str(hash))
    && StringArray(Member(p, ENTRY_ROOTS)) == StringArray(Member(Some(config), ENTRY))
    && StringArray(Member(p, PROJECT_PATTERNS)) == StringArray(Member(Some(config), PROJECT))
    && Member(Member(p, REVIEW_BASIS), REFRESH_OWNER) == Text("dead-code:provenance:refresh")
    && PlannersReason(host, Member(p, COVERAGE_REVIEW))
  }

  lemma {:induction false} CountsRecorded(p: Option<Json>) returns (n: nat, d: nat)
    requires HistoryRecorded(p)
    ensures n > 0 && d > 0
    ensures RecordsBoth(Member(Member(p, COVERAGE_REVIEW), BEFORE), n, d)
    ensures RecordsBoth(Member(Member(p, COVERAGE_REVIEW), AFTER), n, d)
  {
    var before, after := Member(Member(p, COVERAGE_REVIEW), BEFORE), Member(Member(p, COVERAGE_REVIEW), AFTER);
    n :| n > 0 && Member(before, NORMALIZED_COUNT) == Some(Whole(n))
      && Member(after, NORMALIZED_COUNT) == Some(Whole(n));
    d :| d > 0 && Member(before, FINGERPRINT_TOTAL) == Some(Whole(d))
      && Member(after, FINGERPRINT_TOTAL) == Some(Whole(d));
  }

  lemma {:induction false} ReasonIs(host: Host, coverage: Option<Json>, n: nat, d: nat)
    requires RecordsBoth(Member(coverage, AFTER), n, d)
    ensures PlannersReason(host, coverage) <==>
            IsText(Member(coverage, UNCHANGED_REASON), Reasoning(host, host.show(n as real), host.show(d as real)))
  {
    if m: nat, e: nat :| RecordsBoth(Member(coverage, AFTER), m, e)
                         && Member(coverage, UNCHANGED_REASON) ==
                            Some(Str(Reasoning(host, host.show(m as real), host.show(e as real)))) {
      assert Whole(m) == Whole(n) && Whole(e) == Whole(d);
    }
  }

  /** For a valid baseline the long comparison of the program comes down to that. */
  lemma {:induction false} CurrentWhen(host: Host, baseline: Json, config: Json, hash: JsString)
    requires ValidRecord(host, baseline)
    ensures CurrentProvenanceMatches(host, baseline, config, hash) <==> RecordsCurrent(host, baseline, config, hash)
  {
    var p := Member(Some(baseline), PROVENANCE);
    var coverage := Member(p, COVERAGE_REVIEW);
    var n, d := CountsRecorded(p);
    ReasonIs(host, coverage, n, d);
    assert Whole(n).n > 0.0 && Whole(d).n > 0.0;
  }

  // ---------------------------------------------------------------- the answer

  /** Everything matches but the refresh owner, which is missing. */
  ghost predicate OnlyOwnerMissing(host: Host, baseline: Json, config: Json, hash: JsString) {
    var p := Member(Some(baseline), PROVENANCE);
    && Member(Member(p, REVIEW_BASIS), REFRESH_OWNER) == None && Member(p, KNIP_CONFIG_SHA256) == Some(Str(hash))
    && StringArray(Member(p, ENTRY_ROOTS)) == StringArray(Member(Some(config), ENTRY))
    && StringArray(Member(p, PROJECT_PATTERNS)) == StringArray(Member(Some(config), PROJECT))
  }

  /** The recorded hash is that of the configuration with the recorded roots put in. */
  ghost predicate RootsExplainHash(host: Host, baseline: Json, config: Json) {
    var p := Member(Some(baseline), PROVENANCE);
    var roots := StringArray(Member(p, ENTRY_ROOTS));
    && roots.Some?
    && Member(p, KNIP_CONFIG_SHA256) ==
       Some(Str(host.sha256(host.stringify(Canonical(Set(config, ENTRY, ArrayOf(roots.value)))))))
  }

  ghost predicate PatternsKept(host: Host, baseline: Json, config: Json) {
    SameText(host, Member(Member(Some(baseline), PROVENANCE), PROJECT_PATTERNS), Member(Some(config), PROJECT))
  }

  lemma {:induction false} ReadableIsObject(baseline: Json, config: Json)
    ensures Member(Some(baseline), PROVENANCE).Some? ==> IsObjectLike(Some(baseline))
    ensures Member(Some(config), ENTRY).Some? ==> IsObjectLike(Some(config))
  {
  }

  lemma {:induction false} GateOfInvalid(host: Host, baseline: Json, config: Json)
    ensures Validate(host, baseline) != [] ==> RefreshGate(host, baseline, config) == AnswerBlocked
    ensures StringArray(Member(Some(config), ENTRY)).None? || StringArray(Member(Some(config), PROJECT)).None? ==>
              RefreshGate(host, baseline, config) == AnswerBlocked
  {
  }

  lemma {:induction false} GateOfValid(host: Host, baseline: Json, config: Json, hash: JsString)
    requires Validate(host, baseline) == [] && IsObjectLike(Some(baseline)) && IsObjectLike(Some(config))
    requires StringArray(Member(Some(config), ENTRY)).Some? && StringArray(Member(Some(config), PROJECT)).Some?
    requires hash == host.sha256(host.stringify(Canonical(config)))
    ensures
      RefreshGate(host, baseline, config) ==
      if OnlyOwnerMissing(host, baseline, config, hash) then AnswerBlocked
      else if CurrentProvenanceMatches(host, baseline, config, hash) then AnswerCurrent
      else if !RootsExplainHash(host, baseline, config) || !PatternsKept(host, baseline, config) then AnswerRefused
      else GoOn
  {
  }

  /** The answer, cause by cause; scans are run only when none applies. */
  lemma {:induction false} GateMeans(host: Host, baseline: Json, config: Json)
    ensures
      var gate, hash := RefreshGate(host, baseline, config), host.sha256(host.stringify(Canonical(config)));
      if !ValidRecord(host, baseline) || StringArray(Member(Some(config), ENTRY)).None?
         || StringArray(Member(Some(config), PROJECT)).None? then gate == AnswerBlocked
      else if OnlyOwnerMissing(host, baseline, config, hash) then gate == AnswerBlocked
      else if RecordsCurrent(host, baseline, config, hash) then gate == AnswerCurrent
      else if !RootsExplainHash(host, baseline, config) || !PatternsKept(host, baseline, config) then
        gate == AnswerRefused
      else gate == GoOn
  {
    var hash := host.sha256(host.stringify(Canonical(config)));
    ValidMeans(host, baseline);
    GateOfInvalid(host, baseline, config);
    if ValidRecord(host, baseline) && StringArray(Member(Some(config), ENTRY)).Some?
       && StringArray(Member(Some(config), PROJECT)).Some? {
      ReadableIsObject(baseline, config);
      GateOfValid(host, baseline, config, hash);
      CurrentWhen(host, baseline, config, hash);
    }
  }
}
