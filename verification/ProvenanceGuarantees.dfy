/** What a provenance refresh promises. */
module ProvenanceGuarantees {
  import opened Options
  import opened Utf16
  import opened CanonicalJson
  import opened Baseline
  import opened ProvenancePlan
  import JsonText

  // ---------------------------------------------------------------- keys

  lemma {:induction false} KeysDiffer()
    ensures |KNIP_CONFIG_SHA256| == 18 && |ENTRY_ROOTS| == 11 && |GIT_HEAD| == 8 && |COVERAGE_REVIEW| == 15
    ensures |REVIEW_BASIS| == 12 && |PROJECT_PATTERNS| == 16 && |FINGERPRINT_COUNT| == 17 && |KIND_COUNTS| == 11
    ensures ENTRY_ROOTS != KIND_COUNTS
    ensures |PROVENANCE| == 10 && |SCHEMA_VERSION| == 14 && |SCOPE| == 5 && |FINGERPRINTS| == 12
    ensures |CLASSIFICATION| == 14 && |DELETION_OWNER| == 14 && |DELETION_AUTHORITY| == 18 && |REFRESH_OWNER| == 24
    ensures |BEFORE| == 6 && |AFTER| == 5 && |UNCHANGED_REASON| == 16
    ensures |NORMALIZED_COUNT| == 24 && |FINGERPRINT_TOTAL| == 27
    ensures |ENTRY| == 5 && |PROJECT| == 7
  {
    assert ENTRY_ROOTS[0] == 101 && KIND_COUNTS[0] == 107;
  }

  lemma {:induction false} NewProvenanceMembers(provenance: Json, basis: Json, hash: JsString, roots: seq<JsString>,
                                                gitHead: JsString, coverage: Json)
    requires provenance.Obj?
    ensures var v := Some(NewProvenance(provenance, basis, hash, roots, gitHead, coverage)); var o := Some(provenance);
            && Member(v, KNIP_CONFIG_SHA256) == Some(Str(hash))
            && Member(v, ENTRY_ROOTS) == Some(ArrayOf(roots))
            && Member(v, GIT_HEAD) == Some(Str(gitHead))
            && Member(v, COVERAGE_REVIEW) == Some(coverage)
            && Member(v, REVIEW_BASIS) == Some(Set(basis, REFRESH_OWNER, Str(REFRESH_COMMAND)))
            && Member(v, PROJECT_PATTERNS) == Member(o, PROJECT_PATTERNS)
            && Member(v, FINGERPRINT_COUNT) == Member(o, FINGERPRINT_COUNT)
            && Member(v, KIND_COUNTS) == Member(o, KIND_COUNTS)
  {
    KeysDiffer();
    var p1 := Set(provenance, KNIP_CONFIG_SHA256, Str(hash));
    var p2 := Set(p1, ENTRY_ROOTS, ArrayOf(roots));
    var p3 := Set(p2, GIT_HEAD, Str(gitHead));
    var p4 := Set(p3, COVERAGE_REVIEW, coverage);
    var basis' := Set(basis, REFRESH_OWNER, Str(REFRESH_COMMAND));
    forall k: JsString
      ensures Member(Some(Set(p4, REVIEW_BASIS, basis')), k) ==
              if k == REVIEW_BASIS then Some(basis')
              else if k == COVERAGE_REVIEW then Some(coverage)
              else if k == GIT_HEAD then Some(Str(gitHead))
              else if k == ENTRY_ROOTS then Some(ArrayOf(roots))
              else if k == KNIP_CONFIG_SHA256 then Some(Str(hash))
              else Member(Some(provenance), k)
    {
      MemberAfterSet(provenance, KNIP_CONFIG_SHA256, Str(hash), k);
      MemberAfterSet(p1, ENTRY_ROOTS, ArrayOf(roots), k);
      MemberAfterSet(p2, GIT_HEAD, Str(gitHead), k);
      MemberAfterSet(p3, COVERAGE_REVIEW, coverage, k);
      MemberAfterSet(p4, REVIEW_BASIS, basis', k);
    }
  }

  lemma {:induction false} GetThree(a: Field, b: Field, c: Field)
    requires a.key != b.key && a.key != c.key && b.key != c.key
    ensures Get([a, b, c], a.key) == Some(a.value)
    ensures Get([a, b, c], b.key) == Some(b.value)
    ensures Get([a, b, c], c.key) == Some(c.value)
  {
    GetIs([a, b, c], 0);
    GetIs([a, b, c], 1);
    GetIs([a, b, c], 2);
  }

  lemma {:induction false} ReviewMembers(roots: seq<JsString>, normalized: nat, dead: nat)
    ensures var r := Some(Review(roots, normalized, dead));
            && StringArray(Member(r, ENTRY_ROOTS)) == Some(roots)
            && Member(r, NORMALIZED_COUNT) == Some(Num(normalized as real))
            && Member(r, FINGERPRINT_TOTAL) == Some(Num(dead as real))
  {
    KeysDiffer();
    StringsOfArray(roots);
    GetThree(Field(ENTRY_ROOTS, ArrayOf(roots)), Field(NORMALIZED_COUNT, Num(normalized as real)),
             Field(FINGERPRINT_TOTAL, Num(dead as real)));
  }

  lemma {:induction false} CoverageMembers(host: Host, oldRoots: seq<JsString>, newRoots: seq<JsString>, before: nat,
                                           after: nat, beforeDead: nat, afterDead: nat)
    ensures var c := Some(Coverage(host, oldRoots, newRoots, before, after, beforeDead, afterDead));
            && Member(c, BEFORE) == Some(Review(oldRoots, before, beforeDead))
            && Member(c, AFTER) == Some(Review(newRoots, after, afterDead))
            && Member(c, UNCHANGED_REASON) ==
               Some(Str(Reasoning(host, host.show(after as real), host.show(afterDead as real))))
  {
    KeysDiffer();
    GetThree(Field(BEFORE, Review(oldRoots, before, beforeDead)), Field(AFTER, Review(newRoots, after, afterDead)),
             Field(UNCHANGED_REASON, Str(Reasoning(host, host.show(after as real), host.show(afterDead as real)))));
  }

  // ---------------------------------------------------------------- what validation gives

  lemma {:induction false} ValidParts(host: Host, baseline: Json)
    ensures var v := Some(baseline); var p := Member(v, PROVENANCE); var f := StringArray(Member(v, FINGERPRINTS));
            Validate(host, baseline) == [] ==>
            && IsObjectLike(p) && BasicIssues(v, p) == [] && CoverageIssues(host, Member(p, COVERAGE_REVIEW)) == []
            && (f.Some? ==> FingerprintIssues(host, p, f.value) == []) && HistoryIssues(p) == []
  {
  }

  lemma {:induction false} BasicShape(v: Option<Json>, p: Option<Json>)
    requires BasicIssues(v, p) == []
    ensures AuthorityOk(p) && StringArray(Member(v, FINGERPRINTS)).Some?
    ensures p.Some? && p.value.Obj?
    ensures Member(p, REVIEW_BASIS).Some? && Member(p, REVIEW_BASIS).value.Obj?
  {
  }

  lemma {:induction false} CountsShape(host: Host, p: Option<Json>, f: seq<JsString>)
    requires FingerprintIssues(host, p, f) == []
    ensures Member(p, FINGERPRINT_COUNT) == Some(Num(|f| as real))
    ensures KindCounts(host, f).Some? && SameText(host, KindCounts(host, f), Member(p, KIND_COUNTS))
  {
    assert KindIssues(host, f, Member(p, KIND_COUNTS)) == [];
  }

  /** A valid baseline is an object with an object as provenance and an object as review basis. */
  ghost predicate Shaped(host: Host, baseline: Json, p: Json, basis: Json, f: seq<JsString>) {
    && baseline.Obj? && p.Obj? && basis.Obj?
    && Member(Some(baseline), PROVENANCE) == Some(p) && Member(Some(p), REVIEW_BASIS) == Some(basis)
    && StringArray(Member(Some(baseline), FINGERPRINTS)) == Some(f)
    && AuthorityOk(Some(p)) && HistoryIssues(Some(p)) == [] && IsObjectLike(Member(Some(p), COVERAGE_REVIEW))
    && Member(Some(p), FINGERPRINT_COUNT) == Some(Num(|f| as real))
    && KindCounts(host, f).Some? && SameText(host, KindCounts(host, f), Member(Some(p), KIND_COUNTS))
  }

  lemma {:induction false} ValidShape(host: Host, baseline: Json) returns (p: Json, basis: Json, f: seq<JsString>)
    ensures Validate(host, baseline) == [] ==> Shaped(host, baseline, p, basis, f)
  {
    p, basis, f := Null, Null, [];
    if Validate(host, baseline) == [] {
      ValidParts(host, baseline);
      var v := Some(baseline);
      BasicShape(v, Member(v, PROVENANCE));
      p := Member(v, PROVENANCE).value;
      basis := Member(Some(p), REVIEW_BASIS).value;
      f := StringArray(Member(v, FINGERPRINTS)).value;
      CountsShape(host, Some(p), f);
    }
  }

  // ---------------------------------------------------------------- the members of the edited copy

  lemma {:induction false} TopMembers(baseline: Json, q: Json)
    requires baseline.Obj?
    ensures var v := Some(Set(baseline, PROVENANCE, q));
            && Member(v, PROVENANCE) == Some(q)
            && Member(v, FINGERPRINTS) == Member(Some(baseline), FINGERPRINTS)
            && Member(v, SCOPE) == Member(Some(baseline), SCOPE)
            && Member(v, SCHEMA_VERSION) == Member(Some(baseline), SCHEMA_VERSION)
  {
    KeysDiffer();
    MemberAfterSet(baseline, PROVENANCE, q, PROVENANCE);
    MemberAfterSet(baseline, PROVENANCE, q, FINGERPRINTS);
    MemberAfterSet(baseline, PROVENANCE, q, SCOPE);
    MemberAfterSet(baseline, PROVENANCE, q, SCHEMA_VERSION);
  }

  lemma {:induction false} BasisMembers(basis: Json)
    requires basis.Obj?
    ensures var v := Some(Set(basis, REFRESH_OWNER, Str(REFRESH_COMMAND)));
            && Member(v, REFRESH_OWNER) == Some(Str(REFRESH_COMMAND))
            && Member(v, DELETION_AUTHORITY) == Member(Some(basis), DELETION_AUTHORITY)
            && Member(v, DELETION_OWNER) == Member(Some(basis), DELETION_OWNER)
            && Member(v, CLASSIFICATION) == Member(Some(basis), CLASSIFICATION)
  {
    KeysDiffer();
    MemberAfterSet(basis, REFRESH_OWNER, Str(REFRESH_COMMAND), REFRESH_OWNER);
    MemberAfterSet(basis, REFRESH_OWNER, Str(REFRESH_COMMAND), DELETION_AUTHORITY);
    MemberAfterSet(basis, REFRESH_OWNER, Str(REFRESH_COMMAND), DELETION_OWNER);
    MemberAfterSet(basis, REFRESH_OWNER, Str(REFRESH_COMMAND), CLASSIFICATION);
  }

  /** The coverage review the planner writes. */
  function CoverageOf(host: Host, input: PlannerInput, oldRoots: seq<JsString>, newRoots: seq<JsString>): Json {
    Coverage(host, oldRoots, newRoots, |input.beforeFindings|, |input.afterFindings|,
             |DeadSet(host, input.beforeFindings)|, |DeadSet(host, input.afterFindings)|)
  }

  lemma {:induction false} NoObjection(host: Host, input: PlannerInput, issues: seq<Issue>)
    returns (oldRoots: seq<JsString>, newRoots: seq<JsString>)
    requires Objection(host, input, issues).None?
    ensures issues == []
    ensures StringArray(Member(Member(Some(input.baseline), PROVENANCE), ENTRY_ROOTS)) == Some(oldRoots)
    ensures StringArray(Member(Some(input.currentConfig), ENTRY)) == Some(newRoots)
    ensures StringArray(Member(Some(input.currentConfig), PROJECT)).Some?
    ensures SameText(host, Member(Member(Some(input.baseline), PROVENANCE), PROJECT_PATTERNS),
                     Member(Some(input.currentConfig), PROJECT))
    ensures IsText(Member(Member(Some(input.baseline), PROVENANCE), KNIP_CONFIG_SHA256),
                   ConfigHash(host, input.reconstructedConfig))
    ensures forall r | r in oldRoots :: r in newRoots
  {
    oldRoots := StringArray(Member(Member(Some(input.baseline), PROVENANCE), ENTRY_ROOTS)).value;
    newRoots := StringArray(Member(Some(input.currentConfig), ENTRY)).value;
  }

  /** An objection never refreshes. */
  lemma {:induction false} ObjectionsDoNotRefresh(host: Host, input: PlannerInput, issues: seq<Issue>)
    ensures Objection(host, input, issues).Some? ==> !Objection(host, input, issues).value.Refreshed?
  {
  }

  lemma {:induction false} ComparedMeans(host: Host, input: PlannerInput, oldRoots: seq<JsString>,
                                         newRoots: seq<JsString>)
    ensures var c := Compared(host, input, oldRoots, newRoots);
            c.Refreshed? ==> Unchanged(host, input) && c.artifact == Candidate(host, input, oldRoots, newRoots)
                             && Validate(host, c.artifact) == []
  {
  }

  lemma {:induction false} OnlyUnobjected(host: Host, input: PlannerInput, issues: seq<Issue>)
    ensures Plan(host, input).Refreshed? && issues == Validate(host, input.baseline) ==>
            Objection(host, input, issues).None?
  {
    ObjectionsDoNotRefresh(host, input, issues);
  }

  /** What a refreshed plan is made of. */
  ghost predicate MadeOf(host: Host, input: PlannerInput, artifact: Json, oldRoots: seq<JsString>,
                         newRoots: seq<JsString>) {
    && artifact == Candidate(host, input, oldRoots, newRoots)
    && StringArray(Member(Member(Some(input.baseline), PROVENANCE), ENTRY_ROOTS)) == Some(oldRoots)
    && StringArray(Member(Some(input.currentConfig), ENTRY)) == Some(newRoots)
    && StringArray(Member(Some(input.currentConfig), PROJECT)).Some?
    && SameText(host, Member(Member(Some(input.baseline), PROVENANCE), PROJECT_PATTERNS),
                Member(Some(input.currentConfig), PROJECT))
    && IsText(Member(Member(Some(input.baseline), PROVENANCE), KNIP_CONFIG_SHA256),
              ConfigHash(host, input.reconstructedConfig))
    && forall r | r in oldRoots :: r in newRoots
  }

  lemma {:induction false} RefreshedMeans(host: Host, input: PlannerInput)
    returns (artifact: Json, oldRoots: seq<JsString>, newRoots: seq<JsString>)
    ensures Plan(host, input).Refreshed? ==>
              && artifact == Plan(host, input).artifact && MadeOf(host, input, artifact, oldRoots, newRoots)
              && Validate(host, input.baseline) == [] && Validate(host, artifact) == [] && Unchanged(host, input)
  {
    artifact, oldRoots, newRoots := Null, [], [];
    if Plan(host, input).Refreshed? {
      artifact := Plan(host, input).artifact;
      var issues := Validate(host, input.baseline);
      OnlyUnobjected(host, input, issues);
      oldRoots, newRoots := NoObjection(host, input, issues);
      ComparedMeans(host, input, oldRoots, newRoots);
    }
  }

  // ---------------------------------------------------------------- provenance only

  lemma {:induction false} EditKeeps(baseline: Json, p: Json, basis: Json, hash: JsString, roots: seq<JsString>,
                                     gitHead: JsString, coverage: Json)
    requires baseline.Obj? && p.Obj? && basis.Obj?
    requires AuthorityOk(Some(p)) && Member(Some(p), REVIEW_BASIS) == Some(basis)
    ensures var old' := Some(baseline);
            var new' := Some(Set(baseline, PROVENANCE, NewProvenance(p, basis, hash, roots, gitHead, coverage)));
            var q := Member(new', PROVENANCE);
            && Member(new', FINGERPRINTS) == Member(old', FINGERPRINTS)
            && Member(new', SCOPE) == Member(old', SCOPE)
            && Member(new', SCHEMA_VERSION) == Member(old', SCHEMA_VERSION)
            && Member(q, KIND_COUNTS) == Member(Some(p), KIND_COUNTS)
            && Member(q, FINGERPRINT_COUNT) == Member(Some(p), FINGERPRINT_COUNT)
            && Member(q, PROJECT_PATTERNS) == Member(Some(p), PROJECT_PATTERNS)
            && Member(Member(q, REVIEW_BASIS), DELETION_AUTHORITY) == Some(Bool(false))
            && Member(Member(q, REVIEW_BASIS), DELETION_OWNER) == Member(Some(basis), DELETION_OWNER)
            && Member(Member(q, REVIEW_BASIS), CLASSIFICATION) == Member(Some(basis), CLASSIFICATION)
  {
    var q := NewProvenance(p, basis, hash, roots, gitHead, coverage);
    TopMembers(baseline, q);
    NewProvenanceMembers(p, basis, hash, roots, gitHead, coverage);
    BasisMembers(basis);
  }

  /** A refresh edits provenance only: fingerprints, counts, patterns, scope and deletion authority stay. */
  lemma {:induction false} RefreshKeepsTheReviewedRecord(host: Host, input: PlannerInput)
    ensures Plan(host, input).Refreshed? ==>
            var old', new' := Some(input.baseline), Some(Plan(host, input).artifact);
            var p, q := Member(old', PROVENANCE), Member(new', PROVENANCE);
            && Member(new', FINGERPRINTS) == Member(old', FINGERPRINTS)
            && Member(new', SCOPE) == Member(old', SCOPE)
            && Member(new', SCHEMA_VERSION) == Member(old', SCHEMA_VERSION)
            && Member(q, KIND_COUNTS) == Member(p, KIND_COUNTS)
            && Member(q, FINGERPRINT_COUNT) == Member(p, FINGERPRINT_COUNT)
            && Member(q, PROJECT_PATTERNS) == Member(p, PROJECT_PATTERNS)
            && Member(Member(q, REVIEW_BASIS), DELETION_AUTHORITY) == Some(Bool(false))
            && Member(Member(q, REVIEW_BASIS), DELETION_OWNER) == Member(Member(p, REVIEW_BASIS), DELETION_OWNER)
            && Member(Member(q, REVIEW_BASIS), CLASSIFICATION) == Member(Member(p, REVIEW_BASIS), CLASSIFICATION)
  {
    if Plan(host, input).Refreshed? {
      var artifact, oldRoots, newRoots := RefreshedMeans(host, input);
      var p, basis, f := ValidShape(host, input.baseline);
      EditKeeps(input.baseline, p, basis, input.currentConfigHash, newRoots, input.gitHead,
                CoverageOf(host, input, oldRoots, newRoots));
    }
  }

  // ---------------------------------------------------------------- a refreshed record is current

  /** `JSON.stringify` gives different lists of strings different texts. */
  ghost predicate TextsDetermineArrays(host: Host) {
    forall a, b {:trigger ArrayOf(a), ArrayOf(b)} | host.stringify(ArrayOf(a)) == host.stringify(ArrayOf(b)) :: a == b
  }

  /** Every host that prints arrays of strings as the language standard says meets it, and there are such hosts. */
  lemma {:induction false} PrintingHostsMeetIt(host: Host)
    requires forall a {:trigger ArrayOf(a)} :: host.stringify(ArrayOf(a)) == JsonText.ArrayText(a)
    ensures TextsDetermineArrays(host)
  {
    forall a, b | host.stringify(ArrayOf(a)) == host.stringify(ArrayOf(b)) ensures a == b {
      JsonText.ArrayTextDetermines(a, b);
    }
  }

  lemma {:induction false} SuchHostsExist(host: Host) returns (printing: Host)
    ensures printing == host.(stringify := printing.stringify)
    ensures forall a {:trigger ArrayOf(a)} :: printing.stringify(ArrayOf(a)) == JsonText.ArrayText(a)
  {
    printing := host.(stringify := (v: Json) =>
      match StringArray(Some(v))
      case None => host.stringify(v)
      case Some(strings) => JsonText.ArrayText(strings));
    forall a ensures printing.stringify(ArrayOf(a)) == JsonText.ArrayText(a) { StringsOfArray(a); }
  }

  lemma {:induction false} ArrayOfStrings(items: seq<Json>)
    ensures Strings(items).Some? ==> ArrayOf(Strings(items).value).items == items
  {
    if items != [] { ArrayOfStrings(items[1..]); }
  }

  lemma {:induction false} SamePatterns(host: Host, a: Option<Json>, b: Option<Json>)
    requires TextsDetermineArrays(host) && SameText(host, a, b)
    requires StringArray(a).Some? && StringArray(b).Some?
    ensures StringArray(a) == StringArray(b)
  {
    ArrayOfStrings(a.value.items);
    ArrayOfStrings(b.value.items);
    assert a.value == ArrayOf(StringArray(a).value) && b.value == ArrayOf(StringArray(b).value);
  }

  lemma {:induction false} HistoryHolds(q: Option<Json>, before: Json, after: Json)
    requires HistoryIssues(q) == [] && IsObjectLike(Member(q, COVERAGE_REVIEW))
    requires Member(Member(q, COVERAGE_REVIEW), BEFORE) == Some(before)
    requires Member(Member(q, COVERAGE_REVIEW), AFTER) == Some(after)
    ensures CountsOk(Some(before), Some(after))
    ensures RootsOk(StringArray(Member(Some(before), ENTRY_ROOTS)), StringArray(Member(Some(after), ENTRY_ROOTS)),
                    StringArray(Member(q, ENTRY_ROOTS)))
  {
  }

  lemma {:induction false} PatternsAreStrings(host: Host, artifact: Json)
    ensures Validate(host, artifact) == [] ==>
              StringArray(Member(Member(Some(artifact), PROVENANCE), PROJECT_PATTERNS)).Some?
  {
    ValidParts(host, artifact);
  }

  /** The record matches when each of its members does. */
  lemma {:induction false} Matches(host: Host, artifact: Json, q: Json, f: seq<JsString>, config: Json, hash: JsString,
                                   coverage: Json, before: Json, after: Json, oldRoots: seq<JsString>,
                                   newRoots: seq<JsString>, n: real, d: real)
    requires Member(Some(artifact), PROVENANCE) == Some(q)
    requires StringArray(Member(Some(artifact), FINGERPRINTS)) == Some(f)
    requires StringArray(Member(Some(config), ENTRY)) == Some(newRoots)
    requires StringArray(Member(Some(config), PROJECT)).Some?
    requires StringArray(Member(Some(q), PROJECT_PATTERNS)) == StringArray(Member(Some(config), PROJECT))
    requires Member(Some(q), KNIP_CONFIG_SHA256) == Some(Str(hash))
    requires StringArray(Member(Some(q), ENTRY_ROOTS)) == Some(newRoots)
    requires Member(Member(Some(q), REVIEW_BASIS), REFRESH_OWNER) == Some(Str(REFRESH_COMMAND))
    requires Member(Some(q), COVERAGE_REVIEW) == Some(coverage)
    requires Member(Some(coverage), BEFORE) == Some(before) && Member(Some(coverage), AFTER) == Some(after)
    requires Member(Some(coverage), UNCHANGED_REASON) == Some(Str(Reasoning(host, host.show(n), host.show(d))))
    requires StringArray(Member(Some(before), ENTRY_ROOTS)) == Some(oldRoots)
    requires StringArray(Member(Some(after), ENTRY_ROOTS)) == Some(newRoots)
    requires Member(Some(after), NORMALIZED_COUNT) == Some(Num(n))
             && Member(Some(after), FINGERPRINT_TOTAL) == Some(Num(d))
    requires CountsOk(Some(before), Some(after)) && RootsOk(Some(oldRoots), Some(newRoots), Some(newRoots))
    requires Member(Some(q), FINGERPRINT_COUNT) == Some(Num(|f| as real))
    requires KindCounts(host, f).Some? && SameText(host, KindCounts(host, f), Member(Some(q), KIND_COUNTS))
    ensures CurrentProvenanceMatches(host, artifact, config, hash)
  {
  }

  /** Whatever the planner returns as refreshed is a valid baseline that matches the current configuration. */
  lemma {:induction false} RefreshedMatches(host: Host, input: PlannerInput)
    requires TextsDetermineArrays(host)
    ensures var r := Plan(host, input);
            r.Refreshed? ==> Validate(host, r.artifact) == []
                             && CurrentProvenanceMatches(host, r.artifact, input.currentConfig, input.currentConfigHash)
  {
    if Plan(host, input).Refreshed? {
      var artifact, oldRoots, newRoots := RefreshedMeans(host, input);
      var p, basis, f := ValidShape(host, input.baseline);
      var q, basis', f' := ValidShape(host, artifact);
      PatternsAreStrings(host, artifact);
      CandidateMatches(host, input, artifact, oldRoots, newRoots, p, basis, q, f');
    }
  }

  lemma {:induction false} CandidateMatches(host: Host, input: PlannerInput, artifact: Json, oldRoots: seq<JsString>,
                                            newRoots: seq<JsString>, p: Json, basis: Json, q: Json, f: seq<JsString>)
    requires TextsDetermineArrays(host)
    requires input.baseline.Obj? && p.Obj? && basis.Obj?
    requires Member(Some(input.baseline), PROVENANCE) == Some(p) && Member(Some(p), REVIEW_BASIS) == Some(basis)
    requires artifact == Candidate(host, input, oldRoots, newRoots)
    requires StringArray(Member(Some(q), PROJECT_PATTERNS)).Some? && IsObjectLike(Member(Some(q), COVERAGE_REVIEW))
    requires Member(Some(artifact), PROVENANCE) == Some(q)
    requires StringArray(Member(Some(artifact), FINGERPRINTS)) == Some(f)
    requires HistoryIssues(Some(q)) == []
    requires Member(Some(q), FINGERPRINT_COUNT) == Some(Num(|f| as real))
    requires KindCounts(host, f).Some? && SameText(host, KindCounts(host, f), Member(Some(q), KIND_COUNTS))
    requires SameText(host, Member(Some(p), PROJECT_PATTERNS), Member(Some(input.currentConfig), PROJECT))
    requires StringArray(Member(Some(input.currentConfig), ENTRY)) == Some(newRoots)
    requires StringArray(Member(Some(input.currentConfig), PROJECT)).Some?
    ensures CurrentProvenanceMatches(host, artifact, input.currentConfig, input.currentConfigHash)
  {
    var n, m := |input.beforeFindings|, |input.afterFindings|;
    var d, e := |DeadSet(host, input.beforeFindings)|, |DeadSet(host, input.afterFindings)|;
    var coverage := CoverageOf(host, input, oldRoots, newRoots);
    var before, after := Review(oldRoots, n, d), Review(newRoots, m, e);
    TopMembers(input.baseline, NewProvenance(p, basis, input.currentConfigHash, newRoots, input.gitHead, coverage));
    NewProvenanceMembers(p, basis, input.currentConfigHash, newRoots, input.gitHead, coverage);
    SamePatterns(host, Member(Some(q), PROJECT_PATTERNS), Member(Some(input.currentConfig), PROJECT));
    BasisMembers(basis);
    StringsOfArray(newRoots);
    CoverageMembers(host, oldRoots, newRoots, n, m, d, e);
    ReviewMembers(oldRoots, n, d);
    ReviewMembers(newRoots, m, e);
    HistoryHolds(Some(q), before, after);
    Matches(host, artifact, q, f, input.currentConfig, input.currentConfigHash, coverage, before, after, oldRoots,
            newRoots, m as real, e as real);
  }

  lemma {:induction false} MatchingHasOwner(host: Host, artifact: Json, config: Json, hash: JsString)
    requires CurrentProvenanceMatches(host, artifact, config, hash)
    ensures StringArray(Member(Some(config), ENTRY)).Some? && StringArray(Member(Some(config), PROJECT)).Some?
    ensures Member(Member(Member(Some(artifact), PROVENANCE), REVIEW_BASIS), REFRESH_OWNER).Some?
  {
  }

  lemma {:induction false} MemberOfObject(v: Json, key: JsString)
    ensures Member(Some(v), key).Some? ==> IsObjectLike(Some(v))
  {
  }

  lemma {:induction false} GateOpens(host: Host, artifact: Json, config: Json)
    requires IsObjectLike(Some(artifact)) && IsObjectLike(Some(config)) && Validate(host, artifact) == []
    requires StringArray(Member(Some(config), ENTRY)).Some? && StringArray(Member(Some(config), PROJECT)).Some?
    requires Member(Member(Member(Some(artifact), PROVENANCE), REVIEW_BASIS), REFRESH_OWNER).Some?
    requires CurrentProvenanceMatches(host, artifact, config, ConfigHash(host, config))
    ensures RefreshGate(host, artifact, config) == AnswerCurrent
  {
  }

  lemma {:induction false} MatchingIsCurrent(host: Host, artifact: Json, config: Json)
    ensures Validate(host, artifact) == []
            && CurrentProvenanceMatches(host, artifact, config, ConfigHash(host, config)) ==>
              RefreshGate(host, artifact, config) == AnswerCurrent
  {
    if Validate(host, artifact) == [] && CurrentProvenanceMatches(host, artifact, config, ConfigHash(host, config)) {
      MatchingHasOwner(host, artifact, config, ConfigHash(host, config));
      MemberOfObject(artifact, PROVENANCE);
      MemberOfObject(config, ENTRY);
      GateOpens(host, artifact, config);
    }
  }

  /** With the configuration it was refreshed for, the next refresh answers `current` before any scan. */
  lemma {:induction false} RefreshedIsFixedPoint(host: Host, input: PlannerInput)
    requires TextsDetermineArrays(host)
    requires input.currentConfigHash == ConfigHash(host, input.currentConfig)
    ensures Plan(host, input).Refreshed? ==>
              RefreshGate(host, Plan(host, input).artifact, input.currentConfig) == AnswerCurrent
  {
    if Plan(host, input).Refreshed? {
      RefreshedMatches(host, input);
      MatchingIsCurrent(host, Plan(host, input).artifact, input.currentConfig);
    }
  }

  /**
   * The same for files: once a text that parses back to the refreshed artifact is written, the next refresh with a
   * configuration file of that configuration answers `current`.
   */
  lemma {:induction false} WrittenTextIsFixedPoint(host: Host, input: PlannerInput, written: JsString,
                                                   configRaw: JsString)
    requires TextsDetermineArrays(host)
    requires input.currentConfigHash == ConfigHash(host, input.currentConfig)
    requires host.parse(configRaw) == Some(input.currentConfig)
    ensures Plan(host, input).Refreshed? && host.parse(written) == Some(Plan(host, input).artifact) ==>
              RefreshTexts(host, written, configRaw) == AnswerCurrent
  {
    RefreshedIsFixedPoint(host, input);
  }
}
