/** The provenance-only refresh of the reviewed baseline. */
module ProvenancePlan {
  import opened Options
  import opened Utf16
  import opened CanonicalJson
  import opened Baseline
  import Sorting

  const MAX_DIAGNOSTICS := 20
  const ENTRY := U("entry")
  const PROJECT := U("project")

  datatype PlannerInput = PlannerInput(
    baseline: Json,
    currentConfig: Json,
    reconstructedConfig: Json,
    currentConfigHash: JsString,
    gitHead: JsString,
    beforeFindings: seq<Json>,
    afterFindings: seq<Json>)

  datatype Comparison = Comparison(
    normalizedFindingCount: nat,
    deadCodeFingerprintCount: nat,
    added: seq<JsString>,
    removed: seq<JsString>,
    addedOmitted: nat,
    removedOmitted: nat)

  datatype Reason =
    | BaselineInvalid(issues: seq<Issue>)
    | ConfigNotArrays
    | EntryRootRemoved
    | HashMismatch
    | ProjectChanged
    | GitHeadInvalid
    | NothingToCompare
    | FindingsDiffer
    | CandidateInvalid(issues: seq<Issue>)

  datatype PlannerResult =
    | Refreshed(comparison: Comparison, artifact: Json)
    | Refused(reason: Reason)
    | Blocked(reason: Reason)

  function ConfigHash(host: Host, config: Json): JsString {
    host.sha256(host.stringify(Canonical(config)))
  }

  // ---------------------------------------------------------------- comparing the two scans

  function FindingKeys(host: Host, findings: seq<Json>): seq<JsString> {
    seq(|findings|, i requires 0 <= i < |findings| => host.stringify(Canonical(findings[i])))
  }

  predicate IsDeadCode(finding: Json) {
    && IsText(Member(Some(finding), U("id")), FINDING_ID)
    && IsText(Member(Some(finding), U("category")), U("Dead Code"))
  }

  function FieldOr(v: Option<Json>): Json {
    if v.Some? then v.value else Null
  }

  function ShortPath(host: Host, v: Option<Json>): Json {
    match v
    case Some(Str(path)) => Str(host.repoRelative(path))
    case _ => FieldOr(v)
  }

  function FingerprintValue(host: Host, finding: Json): Json {
    var f := Some(finding);
    Obj([
      Field(U("id"), FieldOr(Member(f, U("id")))),
      Field(NAME, FieldOr(Member(f, NAME))),
      Field(U("file"), ShortPath(host, Member(f, U("file")))),
      Field(U("description"), FieldOr(Member(f, U("description"))))])
  }

  function DeadCodeFingerprint(host: Host, finding: Json): JsString {
    host.stringify(FingerprintValue(host, finding))
  }

  function DeadCodeFingerprints(host: Host, findings: seq<Json>): seq<JsString> {
    if findings == [] then []
    else
      (if IsDeadCode(findings[0]) then [DeadCodeFingerprint(host, findings[0])] else [])
      + DeadCodeFingerprints(host, findings[1..])
  }

  function DeadSet(host: Host, findings: seq<Json>): seq<JsString> {
    Sorting.Dedupe(DeadCodeFingerprints(host, findings))
  }

  function Missing(left: seq<JsString>, right: seq<JsString>): seq<JsString> {
    if left == [] then []
    else (if left[0] !in right then [left[0]] else []) + Missing(left[1..], right)
  }

  function Difference(left: seq<JsString>, right: seq<JsString>): seq<JsString> {
    Sorting.SortBy(Le, Missing(left, right))
  }

  function Changes(leftKeys: seq<JsString>, rightKeys: seq<JsString>, leftDead: seq<JsString>, rightDead: seq<JsString>)
    : seq<JsString>
  {
    Sorting.Dedupe(Difference(leftKeys, rightKeys) + Difference(leftDead, rightDead))
  }

  function Bounded(values: seq<JsString>): seq<JsString> {
    if |values| > MAX_DIAGNOSTICS then values[..MAX_DIAGNOSTICS] else values
  }

  function Omitted(values: seq<JsString>): nat {
    if |values| > MAX_DIAGNOSTICS then |values| - MAX_DIAGNOSTICS else 0
  }

  function CompareFindings(host: Host, input: PlannerInput): Comparison {
    var beforeKeys := Sorting.Dedupe(FindingKeys(host, input.beforeFindings));
    var afterKeys := Sorting.Dedupe(FindingKeys(host, input.afterFindings));
    var beforeDead, afterDead := DeadSet(host, input.beforeFindings), DeadSet(host, input.afterFindings);
    var added := Changes(afterKeys, beforeKeys, afterDead, beforeDead);
    var removed := Changes(beforeKeys, afterKeys, beforeDead, afterDead);
    Comparison(|input.afterFindings|, |afterDead|, Bounded(added), Bounded(removed), Omitted(added), Omitted(removed))
  }

  // ---------------------------------------------------------------- the plan

  const REASON_FRONT := U("Independent before/after normalized-set comparison was ")
  const EXACT := U("exact")
  const REASON_SCANS := U(". Both scans produced ")
  const REASON_FINDINGS := U(" normalized findings and ")
  const REASON_END := U(" dead-code fingerprints, with zero added and removed values.")

  function Reasoning(host: Host, normalized: JsString, dead: JsString): JsString {
    REASON_FRONT + EXACT + (REASON_SCANS + normalized + REASON_FINDINGS + dead + REASON_END)
  }

  function Review(roots: seq<JsString>, normalized: nat, dead: nat): Json {
    Obj([Field(ENTRY_ROOTS, ArrayOf(roots)),
         Field(NORMALIZED_COUNT, Num(normalized as real)),
         Field(FINGERPRINT_TOTAL, Num(dead as real))])
  }

  function Coverage(host: Host, oldRoots: seq<JsString>, newRoots: seq<JsString>, before: nat, after: nat,
                    beforeDead: nat, afterDead: nat): Json
  {
    Obj([Field(BEFORE, Review(oldRoots, before, beforeDead)),
         Field(AFTER, Review(newRoots, after, afterDead)),
         Field(UNCHANGED_REASON, Str(Reasoning(host, host.show(after as real), host.show(afterDead as real))))])
  }

  /** The provenance after its five edits. */
  function NewProvenance(provenance: Json, basis: Json, hash: JsString, roots: seq<JsString>, gitHead: JsString,
                         coverage: Json): Json
  {
    Set(Set(Set(Set(Set(provenance,
      KNIP_CONFIG_SHA256, Str(hash)),
      ENTRY_ROOTS, ArrayOf(roots)),
      GIT_HEAD, Str(gitHead)),
      COVERAGE_REVIEW, coverage),
      REVIEW_BASIS, Set(basis, REFRESH_OWNER, Str(REFRESH_COMMAND)))
  }

  function Candidate(host: Host, input: PlannerInput, oldRoots: seq<JsString>, newRoots: seq<JsString>): Json {
    var provenance := FieldOr(Member(Some(input.baseline), PROVENANCE));
    var basis := FieldOr(Member(Some(provenance), REVIEW_BASIS));
    var coverage := Coverage(host, oldRoots, newRoots, |input.beforeFindings|, |input.afterFindings|,
                             |DeadSet(host, input.beforeFindings)|, |DeadSet(host, input.afterFindings)|);
    Set(input.baseline, PROVENANCE,
        NewProvenance(provenance, basis, input.currentConfigHash, newRoots, input.gitHead, coverage))
  }

  predicate Differs(c: Comparison) {
    c.added != [] || c.removed != [] || c.addedOmitted > 0 || c.removedOmitted > 0
  }

  predicate Unchanged(host: Host, input: PlannerInput) {
    var c := CompareFindings(host, input);
    && !Differs(c)
    && |input.beforeFindings| == |input.afterFindings|
    && |DeadSet(host, input.beforeFindings)| == |DeadSet(host, input.afterFindings)|
  }

  /** The edited copy is returned only if it is a valid baseline itself. */
  function Checked(host: Host, input: PlannerInput, artifact: Json): PlannerResult {
    var issues := Validate(host, artifact);
    if issues != [] then Blocked(CandidateInvalid(issues)) else Refreshed(CompareFindings(host, input), artifact)
  }

  /** The checks that need no scan, in order, given the issues of the baseline. */
  function Objection(host: Host, input: PlannerInput, issues: seq<Issue>): (r: Option<PlannerResult>)
    ensures r.None? ==> StringArray(Member(Member(Some(input.baseline), PROVENANCE), ENTRY_ROOTS)).Some?
                        && StringArray(Member(Some(input.currentConfig), ENTRY)).Some?
  {
    var provenance := Member(Some(input.baseline), PROVENANCE);
    var roots := StringArray(Member(provenance, ENTRY_ROOTS));
    var entry := StringArray(Member(Some(input.currentConfig), ENTRY));
    var project := StringArray(Member(Some(input.currentConfig), PROJECT));
    if issues != [] then Some(Blocked(BaselineInvalid(issues)))
    else if entry.None? || project.None? then Some(Blocked(ConfigNotArrays))
    else if roots.None? || exists r | r in roots.value :: r !in entry.value then Some(Refused(EntryRootRemoved))
    else if !IsText(Member(provenance, KNIP_CONFIG_SHA256), ConfigHash(host, input.reconstructedConfig)) then
      Some(Refused(HashMismatch))
    else if !SameText(host, Member(provenance, PROJECT_PATTERNS), Member(Some(input.currentConfig), PROJECT)) then
      Some(Refused(ProjectChanged))
    else if !IsHex(Str(input.gitHead), 40) then Some(Blocked(GitHeadInvalid))
    else None
  }

  /** The checks of the two scans, and the edit. */
  function Compared(host: Host, input: PlannerInput, oldRoots: seq<JsString>, newRoots: seq<JsString>): PlannerResult {
    if input.beforeFindings == [] || input.afterFindings == []
       || DeadSet(host, input.beforeFindings) == [] || DeadSet(host, input.afterFindings) == [] then
      Blocked(NothingToCompare)
    else if !Unchanged(host, input) then Refused(FindingsDiffer)
    else Checked(host, input, Candidate(host, input, oldRoots, newRoots))
  }

  function Plan(host: Host, input: PlannerInput): PlannerResult {
    var objection := Objection(host, input, Validate(host, input.baseline));
    if objection.Some? then objection.value
    else
      Compared(host, input, StringArray(Member(Member(Some(input.baseline), PROVENANCE), ENTRY_ROOTS)).value,
               StringArray(Member(Some(input.currentConfig), ENTRY)).value)
  }

  // ---------------------------------------------------------------- is the record already current

  function CurrentProvenanceMatches(host: Host, baseline: Json, config: Json, hash: JsString): bool {
    var v := Some(baseline);
    var provenance := Member(v, PROVENANCE);
    var entry := StringArray(Member(Some(config), ENTRY));
    var project := StringArray(Member(Some(config), PROJECT));
    var coverage := Member(provenance, COVERAGE_REVIEW);
    var before, after := Member(coverage, BEFORE), Member(coverage, AFTER);
    var beforeRoots, afterRoots := StringArray(Member(before, ENTRY_ROOTS)), StringArray(Member(after, ENTRY_ROOTS));
    var fingerprints := StringArray(Member(v, FINGERPRINTS));
    var normalized, dead := Member(after, NORMALIZED_COUNT), Member(after, FINGERPRINT_TOTAL);
    && entry.Some? && project.Some?
    && IsText(Member(provenance, KNIP_CONFIG_SHA256), hash)
    && StringArray(Member(provenance, ENTRY_ROOTS)) == entry
    && StringArray(Member(provenance, PROJECT_PATTERNS)) == project
    && IsText(Member(Member(provenance, REVIEW_BASIS), REFRESH_OWNER), REFRESH_COMMAND)
    && afterRoots == entry
    && beforeRoots.Some? && afterRoots.Some? && |beforeRoots.value| < |afterRoots.value|
    && (forall r | r in beforeRoots.value :: r in afterRoots.value)
    && (var n := Member(before, NORMALIZED_COUNT); n.Some? && n.value.Num? && n.value.n > 0.0 && n == normalized)
    && (var n := Member(before, FINGERPRINT_TOTAL); n.Some? && n.value.Num? && n.value.n > 0.0 && n == dead)
    && normalized.Some? && normalized.value.Num? && dead.Some? && dead.value.Num?
    && IsText(Member(coverage, UNCHANGED_REASON),
              Reasoning(host, host.show(normalized.value.n), host.show(dead.value.n)))
    && fingerprints.Some?
    && Member(provenance, FINGERPRINT_COUNT) == Some(Num(|fingerprints.value| as real))
    && SameText(host, Member(provenance, KIND_COUNTS), KindCounts(host, fingerprints.value))
  }

  /** What a refresh answers before it runs any scan. */
  datatype Gate = AnswerBlocked | AnswerCurrent | AnswerRefused | GoOn

  function RefreshGate(host: Host, baseline: Json, config: Json): Gate {
    var provenance := Member(Some(baseline), PROVENANCE);
    var roots := StringArray(Member(provenance, ENTRY_ROOTS));
    var patterns := StringArray(Member(provenance, PROJECT_PATTERNS));
    var entry := StringArray(Member(Some(config), ENTRY));
    var project := StringArray(Member(Some(config), PROJECT));
    var hash := ConfigHash(host, config);
    if !IsObjectLike(Some(baseline)) || !IsObjectLike(Some(config)) || Validate(host, baseline) != [] then AnswerBlocked
    else if entry.None? || project.None? then AnswerBlocked
    else if Member(Member(provenance, REVIEW_BASIS), REFRESH_OWNER).None?
            && IsText(Member(provenance, KNIP_CONFIG_SHA256), hash) && roots == entry && patterns == project then
      AnswerBlocked
    else if CurrentProvenanceMatches(host, baseline, config, hash) then AnswerCurrent
    else if !(roots.Some? && IsText(Member(provenance, KNIP_CONFIG_SHA256),
                                    ConfigHash(host, Set(config, ENTRY, ArrayOf(roots.value))))) then AnswerRefused
    else if !SameText(host, Member(provenance, PROJECT_PATTERNS), Member(Some(config), PROJECT)) then AnswerRefused
    else GoOn
  }

  /** The same from the texts of the two files; a text that is no JSON blocks. */
  function RefreshTexts(host: Host, baselineRaw: JsString, configRaw: JsString): Gate {
    match (host.parse(baselineRaw), host.parse(configRaw))
    case (Some(baseline), Some(config)) => RefreshGate(host, baseline, config)
    case _ => AnswerBlocked
  }

  method ObjectionTo(host: Host, input: PlannerInput, issues: seq<Issue>) returns (r: Option<PlannerResult>)
    ensures r == Objection(host, input, issues)
  {
    if issues != [] { return Some(Blocked(BaselineInvalid(issues))); }
    var provenance := Member(Some(input.baseline), PROVENANCE);
    var roots := StringArray(Member(provenance, ENTRY_ROOTS));
    var entry := StringArray(Member(Some(input.currentConfig), ENTRY));
    var project := StringArray(Member(Some(input.currentConfig), PROJECT));
    if entry.None? || project.None? { return Some(Blocked(ConfigNotArrays)); }
    if roots.None? || exists r | r in roots.value :: r !in entry.value { return Some(Refused(EntryRootRemoved)); }
    if !IsText(Member(provenance, KNIP_CONFIG_SHA256), ConfigHash(host, input.reconstructedConfig)) {
      return Some(Refused(HashMismatch));
    }
    if !SameText(host, Member(provenance, PROJECT_PATTERNS), Member(Some(input.currentConfig), PROJECT)) {
      return Some(Refused(ProjectChanged));
    }
    if !IsHex(Str(input.gitHead), 40) { return Some(Blocked(GitHeadInvalid)); }
    return None;
  }

  /** The planner as it runs: checks in order, then edits of a copy of the baseline. */
  method PlanDeadCodeProvenanceRefresh(host: Host, input: PlannerInput) returns (r: PlannerResult)
    ensures r == Plan(host, input)
  {
    var issues := ValidateBaseline(host, input.baseline);
    var objection := ObjectionTo(host, input, issues);
    if objection.Some? { return objection.value; }
    r := CompareAndEdit(host, input, StringArray(Member(Member(Some(input.baseline), PROVENANCE), ENTRY_ROOTS)).value,
                        StringArray(Member(Some(input.currentConfig), ENTRY)).value);
  }

  method CompareAndEdit(host: Host, input: PlannerInput, roots: seq<JsString>, entry: seq<JsString>)
    returns (r: PlannerResult)
    ensures r == Compared(host, input, roots, entry)
  {
    var comparison := CompareFindings(host, input);
    var beforeDead, afterDead := DeadSet(host, input.beforeFindings), DeadSet(host, input.afterFindings);
    if input.beforeFindings == [] || input.afterFindings == [] || beforeDead == [] || afterDead == [] {
      return Blocked(NothingToCompare);
    }
    if Differs(comparison) || |input.beforeFindings| != |input.afterFindings| || |beforeDead| != |afterDead| {
      return Refused(FindingsDiffer);
    }
    var edited := EditCopy(host, input, roots, entry, |beforeDead|, |afterDead|);
    r := CheckCandidate(host, input, comparison, edited);
  }

  method CheckCandidate(host: Host, input: PlannerInput, comparison: Comparison, edited: Json)
    returns (r: PlannerResult)
    requires comparison == CompareFindings(host, input)
    ensures r == Checked(host, input, edited)
  {
    var candidateIssues := ValidateBaseline(host, edited);
    if candidateIssues != [] { return Blocked(CandidateInvalid(candidateIssues)); }
    return Refreshed(comparison, edited);
  }

  method EditCopy(host: Host, input: PlannerInput, oldRoots: seq<JsString>, newRoots: seq<JsString>,
                  beforeDead: nat, afterDead: nat) returns (artifact: Json)
    requires beforeDead == |DeadSet(host, input.beforeFindings)| && afterDead == |DeadSet(host, input.afterFindings)|
    ensures artifact == Candidate(host, input, oldRoots, newRoots)
  {
    var provenance := FieldOr(Member(Some(input.baseline), PROVENANCE));
    var basis := FieldOr(Member(Some(provenance), REVIEW_BASIS));
    provenance := Set(provenance, KNIP_CONFIG_SHA256, Str(input.currentConfigHash));
    provenance := Set(provenance, ENTRY_ROOTS, ArrayOf(newRoots));
    provenance := Set(provenance, GIT_HEAD, Str(input.gitHead));
    provenance := Set(provenance, COVERAGE_REVIEW,
                      Coverage(host, oldRoots, newRoots, |input.beforeFindings|, |input.afterFindings|,
                               beforeDead, afterDead));
    provenance := Set(provenance, REVIEW_BASIS, Set(basis, REFRESH_OWNER, Str(REFRESH_COMMAND)));
    artifact := Set(input.baseline, PROVENANCE, provenance);
  }
}
