/** The reviewed dead-code baseline and its validation. */
module Baseline {
  import opened Options
  import opened Utf16
  import opened CanonicalJson
  import Sorting

  /** What the host runtime provides: JSON text, number text, the digest, path shortening. */
  datatype Host = Host(
    parse: JsString -> Option<Json>,
    stringify: Json -> JsString,
    show: real -> JsString,
    sha256: JsString -> JsString,
    repoRelative: JsString -> JsString)

  const SCHEMA_VERSION := U("schema_version")
  const SCOPE := U("scope")
  const PROVENANCE := U("provenance")
  const FINGERPRINTS := U("fingerprints")
  const KNIP_CONFIG_SHA256 := U("knip_config_sha256")
  const ENTRY_ROOTS := U("entry_roots")
  const PROJECT_PATTERNS := U("project_patterns")
  const GIT_HEAD := U("git_head")
  const FINGERPRINT_COUNT := U("fingerprint_count")
  const KIND_COUNTS := U("kind_counts")
  const REVIEW_BASIS := U("review_basis")
  const COVERAGE_REVIEW := U("coverage_review")
  const CLASSIFICATION := U("classification")
  const DELETION_OWNER := U("deletion_owner")
  const DELETION_AUTHORITY := U("deletion_authority")
  const REFRESH_OWNER := U("provenance_refresh_owner")
  const BEFORE := U("before")
  const AFTER := U("after")
  const UNCHANGED_REASON := U("unchanged_reason")
  const NORMALIZED_COUNT := U("normalized_finding_count")
  const FINGERPRINT_TOTAL := U("dead_code_fingerprint_count")
  const NAME := U("name")
  const FINDING_ID := U("MAINT-003")
  const REVIEW_ONLY := U("review-only")
  const REFRESH_COMMAND := U("dead-code:provenance:refresh")

  // ---------------------------------------------------------------- reading and writing values

  /** Property access; anything but an object has none of the properties read here. */
  function Member(v: Option<Json>, key: JsString): Option<Json> {
    if v.Some? && v.value.Obj? then Get(v.value.fields, key) else None
  }

  function SetField(fields: seq<Field>, key: JsString, value: Json): seq<Field> {
    if fields == [] then [Field(key, value)]
    else if fields[0].key == key then [Field(key, value)] + fields[1..]
    else [fields[0]] + SetField(fields[1..], key, value)
  }

  function Set(v: Json, key: JsString, value: Json): Json {
    if v.Obj? then Obj(SetField(v.fields, key, value)) else v
  }

  lemma {:induction false} GetAfterSet(fields: seq<Field>, key: JsString, value: Json, other: JsString)
    ensures Get(SetField(fields, key, value), other) == if other == key then Some(value) else Get(fields, other)
  {
    if fields != [] && fields[0].key != key {
      GetAfterSet(fields[1..], key, value, other);
    }
  }

  lemma {:induction false} MemberAfterSet(v: Json, key: JsString, value: Json, other: JsString)
    requires v.Obj?
    ensures Member(Some(Set(v, key, value)), other) == if other == key then Some(value) else Member(Some(v), other)
  {
    GetAfterSet(v.fields, key, value, other);
  }

  function Strings(items: seq<Json>): Option<seq<JsString>> {
    if items == [] then Some([])
    else
      match Strings(items[1..])
      case None => None
      case Some(rest) => if items[0].Str? then Some([items[0].s] + rest) else None
  }

  /** `isStringArray`, giving the strings. */
  function StringArray(v: Option<Json>): Option<seq<JsString>> {
    if v.Some? && v.value.Arr? then Strings(v.value.items) else None
  }

  function ArrayOf(strings: seq<JsString>): Json {
    Arr(seq(|strings|, i requires 0 <= i < |strings| => Str(strings[i])))
  }

  lemma {:induction false} StringsOfArray(strings: seq<JsString>)
    ensures StringArray(Some(ArrayOf(strings))) == Some(strings)
  {
    if strings != [] {
      StringsOfArray(strings[1..]);
      assert ArrayOf(strings).items[1..] == ArrayOf(strings[1..]).items;
      assert strings == [strings[0]] + strings[1..];
    }
  }

  predicate IsObjectLike(v: Option<Json>) {
    v.Some? && (v.value.Obj? || v.value.Arr?)
  }

  predicate IsText(v: Option<Json>, text: JsString) {
    v == Some(Str(text))
  }

  predicate IsHexDigit(u: CodeUnit) {
    48 <= u <= 57 || 97 <= u <= 102
  }

  /** The hexadecimal test, which also coerces a one-element array to the text of its element. */
  predicate IsHex(v: Json, length: nat)
    decreases v
  {
    match v
    case Str(s) => |s| == length && forall i | 0 <= i < |s| :: IsHexDigit(s[i])
    case Arr(items) => |items| == 1 && IsHex(items[0], length)
    case _ => false
  }

  predicate IsHexText(v: Option<Json>, length: nat) {
    v.Some? && IsHex(v.value, length)
  }

  predicate IsInteger(v: Option<Json>) {
    v.Some? && v.value.Num? && v.value.n.Floor as real == v.value.n
  }

  /** An integer above zero. */
  predicate IsPositive(v: Option<Json>) {
    IsInteger(v) && v.value.n > 0.0
  }

  function LowerUnit(u: CodeUnit): CodeUnit {
    if 65 <= u <= 90 then u + 32 else u
  }

  /** The letters of "exact" in either case from a position on. */
  predicate ExactAt(s: JsString, i: int) {
    0 <= i <= |s| - 5
    && LowerUnit(s[i]) == 101 && LowerUnit(s[i + 1]) == 120 && LowerUnit(s[i + 2]) == 97
    && LowerUnit(s[i + 3]) == 99 && LowerUnit(s[i + 4]) == 116
  }

  predicate MentionsExact(s: JsString) {
    exists i | 0 <= i <= |s| - 5 :: ExactAt(s, i)
  }

  // ---------------------------------------------------------------- kind counts

  function Increment(counts: seq<Field>, name: JsString): seq<Field> {
    if counts == [] then [Field(name, Num(1.0))]
    else if counts[0].key == name then
      [Field(name, if counts[0].value.Num? then Num(counts[0].value.n + 1.0) else Num(1.0))] + counts[1..]
    else [counts[0]] + Increment(counts[1..], name)
  }

  function NameOf(host: Host, fingerprint: JsString): Option<JsString> {
    match Member(host.parse(fingerprint), NAME)
    case Some(Str(name)) => Some(name)
    case _ => None
  }

  function CountNames(host: Host, fingerprints: seq<JsString>, counts: seq<Field>): Option<seq<Field>>
    decreases |fingerprints|
  {
    if fingerprints == [] then Some(counts)
    else
      match NameOf(host, fingerprints[0])
      case None => None
      case Some(name) => CountNames(host, fingerprints[1..], Increment(counts, name))
  }

  function KindCounts(host: Host, fingerprints: seq<JsString>): Option<Json> {
    match CountNames(host, fingerprints, [])
    case None => None
    case Some(counts) => Some(Obj(Sorting.SortBy(KeyLe, counts)))
  }

  /** `JSON.stringify` of two values gives the same text; `undefined` has no text. */
  predicate SameText(host: Host, a: Option<Json>, b: Option<Json>) {
    match (a, b)
    case (Some(x), Some(y)) => host.stringify(x) == host.stringify(y)
    case (None, None) => true
    case _ => false
  }

  method FingerprintKindCounts(host: Host, fingerprints: seq<JsString>) returns (r: Option<Json>)
    ensures r == KindCounts(host, fingerprints)
  {
    var counts: seq<Field> := [];
    assert fingerprints[0..] == fingerprints;
    for i := 0 to |fingerprints|
      invariant CountNames(host, fingerprints, []) == CountNames(host, fingerprints[i..], counts)
    {
      assert fingerprints[i..][1..] == fingerprints[i + 1..];
      var name := NameOf(host, fingerprints[i]);
      if name.None? { return None; }
      counts := Increment(counts, name.value);
    }
    return Some(Obj(Sorting.SortBy(KeyLe, counts)));
  }

  // ---------------------------------------------------------------- validation

  datatype Issue =
    | ScopeInvalid
    | SchemaVersionInvalid
    | ProvenanceRequired
    | EntryRootsNotStrings
    | ProjectPatternsNotStrings
    | ConfigHashNotHex
    | GitHeadNotSha1
    | FingerprintsNotStrings
    | ReviewAuthorityInvalid
    | CoverageRequired
    | CoverageEntryInvalid(entry: JsString)
    | UnchangedReasonRequired
    | FingerprintsNotSorted
    | FingerprintCountWrong
    | FingerprintsNotJson
    | KindCountsWrong
    | IdentityInvalid
    | CoverageCountsInvalid
    | CoverageRootsNotSubset
    | CoverageReasonInvalid

  function When(condition: bool, issue: Issue): seq<Issue> {
    if condition then [issue] else []
  }

  predicate ScopeOk(v: Option<Json>) {
    var scope := Member(v, SCOPE);
    && IsText(Member(scope, U("repo")), U("plugin"))
    && IsText(Member(scope, U("detector")), U("knip"))
    && IsText(Member(scope, U("finding_id")), FINDING_ID)
    && IsText(Member(scope, CLASSIFICATION), REVIEW_ONLY)
  }

  predicate AuthorityOk(provenance: Option<Json>) {
    var basis := Member(provenance, REVIEW_BASIS);
    && IsText(Member(basis, CLASSIFICATION), REVIEW_ONLY)
    && IsText(Member(basis, DELETION_OWNER), U("clearDeadCodeBaseline"))
    && Member(basis, DELETION_AUTHORITY) == Some(Bool(false))
    && (Member(basis, REFRESH_OWNER).None? || IsText(Member(basis, REFRESH_OWNER), REFRESH_COMMAND))
  }

  predicate ReviewOk(review: Json) {
    && StringArray(Member(Some(review), ENTRY_ROOTS)).Some?
    && (var n := Member(Some(review), NORMALIZED_COUNT); n.Some? && n.value.Num?)
    && (var n := Member(Some(review), FINGERPRINT_TOTAL); n.Some? && n.value.Num?)
  }

  function Entries(host: Host, v: Json): seq<Field> {
    match v
    case Obj(fields) => fields
    case Arr(items) => seq(|items|, i requires 0 <= i < |items| => Field(host.show(i as real), items[i]))
    case _ => []
  }

  function ReviewIssues(entries: seq<Field>): seq<Issue> {
    if entries == [] then []
    else
      When(entries[0].key != UNCHANGED_REASON && !ReviewOk(entries[0].value), CoverageEntryInvalid(entries[0].key))
      + ReviewIssues(entries[1..])
  }

  function CoverageIssues(host: Host, coverage: Option<Json>): seq<Issue> {
    if !IsObjectLike(coverage) then [CoverageRequired]
    else
      ReviewIssues(Entries(host, coverage.value))
      + When(!(var r := Member(coverage, UNCHANGED_REASON); r.Some? && r.value.Str?), UnchangedReasonRequired)
  }

  predicate StrictlySorted(fingerprints: seq<JsString>) {
    forall i | 0 < i < |fingerprints| :: Compare(fingerprints[i - 1], fingerprints[i]) < 0
  }

  predicate IdentityOk(v: Json) {
    && IsText(Member(Some(v), U("id")), FINDING_ID)
    && (var n := Member(Some(v), NAME); n.Some? && n.value.Str?)
    && (var n := Member(Some(v), U("file")); n.Some? && n.value.Str?)
    && (var n := Member(Some(v), U("description")); n.Some? && n.value.Str?)
  }

  /** The first fingerprint that is no JSON or no identity ends the scan. */
  function IdentityIssues(host: Host, fingerprints: seq<JsString>): seq<Issue> {
    if fingerprints == [] then []
    else
      match host.parse(fingerprints[0])
      case None => [FingerprintsNotJson]
      case Some(v) => if IdentityOk(v) then IdentityIssues(host, fingerprints[1..]) else [IdentityInvalid]
  }

  function KindIssues(host: Host, fingerprints: seq<JsString>, recorded: Option<Json>): seq<Issue> {
    var counts := KindCounts(host, fingerprints);
    if counts.None? then [FingerprintsNotJson] else When(!SameText(host, counts, recorded), KindCountsWrong)
  }

  function FingerprintIssues(host: Host, provenance: Option<Json>, fingerprints: seq<JsString>): seq<Issue> {
    When(!StrictlySorted(fingerprints), FingerprintsNotSorted)
    + When(Member(provenance, FINGERPRINT_COUNT) != Some(Num(|fingerprints| as real)), FingerprintCountWrong)
    + KindIssues(host, fingerprints, Member(provenance, KIND_COUNTS))
    + IdentityIssues(host, fingerprints)
  }

  predicate CountsOk(before: Option<Json>, after: Option<Json>) {
    && IsPositive(Member(before, NORMALIZED_COUNT)) && IsPositive(Member(after, NORMALIZED_COUNT))
    && IsPositive(Member(before, FINGERPRINT_TOTAL)) && IsPositive(Member(after, FINGERPRINT_TOTAL))
    && Member(before, NORMALIZED_COUNT) == Member(after, NORMALIZED_COUNT)
    && Member(before, FINGERPRINT_TOTAL) == Member(after, FINGERPRINT_TOTAL)
  }

  /** The earlier roots are fewer and all still present, and the later ones are the recorded ones. */
  predicate RootsOk(before: Option<seq<JsString>>, after: Option<seq<JsString>>, recorded: Option<seq<JsString>>) {
    && before.Some? && after.Some? && recorded.Some?
    && |before.value| < |after.value|
    && (forall r | r in before.value :: r in after.value)
    && after == recorded
  }

  function HistoryIssues(provenance: Option<Json>): seq<Issue> {
    var coverage := Member(provenance, COVERAGE_REVIEW);
    if !IsObjectLike(coverage) then []
    else
      var before, after := Member(coverage, BEFORE), Member(coverage, AFTER);
      var reason := Member(coverage, UNCHANGED_REASON);
      When(!CountsOk(before, after), CoverageCountsInvalid)
      + When(!RootsOk(StringArray(Member(before, ENTRY_ROOTS)), StringArray(Member(after, ENTRY_ROOTS)),
                      StringArray(Member(provenance, ENTRY_ROOTS))), CoverageRootsNotSubset)
      + When(!(reason.Some? && reason.value.Str? && MentionsExact(reason.value.s)), CoverageReasonInvalid)
  }

  function BasicIssues(v: Option<Json>, provenance: Option<Json>): seq<Issue> {
    When(!ScopeOk(v), ScopeInvalid)
    + When(!IsText(Member(v, SCHEMA_VERSION), U("dead_code_baseline.v1")), SchemaVersionInvalid)
    + When(StringArray(Member(provenance, ENTRY_ROOTS)).None?, EntryRootsNotStrings)
    + When(StringArray(Member(provenance, PROJECT_PATTERNS)).None?, ProjectPatternsNotStrings)
    + When(!IsHexText(Member(provenance, KNIP_CONFIG_SHA256), 64), ConfigHashNotHex)
    + When(!IsHexText(Member(provenance, GIT_HEAD), 40), GitHeadNotSha1)
    + When(StringArray(Member(v, FINGERPRINTS)).None?, FingerprintsNotStrings)
    + When(!AuthorityOk(provenance), ReviewAuthorityInvalid)
  }

  function Validate(host: Host, baseline: Json): seq<Issue> {
    var v := Some(baseline);
    var provenance := Member(v, PROVENANCE);
    if !IsObjectLike(provenance) then [ProvenanceRequired]
    else
      var fingerprints := StringArray(Member(v, FINGERPRINTS));
      BasicIssues(v, provenance)
      + CoverageIssues(host, Member(provenance, COVERAGE_REVIEW))
      + (if fingerprints.Some? then FingerprintIssues(host, provenance, fingerprints.value) else [])
      + HistoryIssues(provenance)
  }

  lemma {:induction false} NextReview(entries: seq<Field>, i: nat, issues: seq<Issue>)
    requires i < |entries|
    ensures var e := entries[i]; var invalid := CoverageEntryInvalid(e.key);
            issues + ReviewIssues(entries[i..]) ==
            (if e.key != UNCHANGED_REASON && !ReviewOk(e.value) then issues + [invalid] else issues)
            + ReviewIssues(entries[i + 1..])
  {
    assert entries[i..][1..] == entries[i + 1..] && entries[i..][0] == entries[i];
  }

  method ValidateReviews(entries: seq<Field>) returns (issues: seq<Issue>)
    ensures issues == ReviewIssues(entries)
  {
    issues := [];
    assert entries[0..] == entries;
    for i := 0 to |entries|
      invariant ReviewIssues(entries) == issues + ReviewIssues(entries[i..])
    {
      NextReview(entries, i, issues);
      if entries[i].key == UNCHANGED_REASON { continue; }
      if !ReviewOk(entries[i].value) { issues := issues + [CoverageEntryInvalid(entries[i].key)]; }
    }
  }

  method ValidateIdentities(host: Host, fingerprints: seq<JsString>) returns (issues: seq<Issue>)
    ensures issues == IdentityIssues(host, fingerprints)
  {
    assert fingerprints[0..] == fingerprints;
    for i := 0 to |fingerprints|
      invariant IdentityIssues(host, fingerprints) == IdentityIssues(host, fingerprints[i..])
    {
      assert fingerprints[i..][1..] == fingerprints[i + 1..];
      var parsed := host.parse(fingerprints[i]);
      if parsed.None? { return [FingerprintsNotJson]; }
      if !IdentityOk(parsed.value) { return [IdentityInvalid]; }
    }
    return [];
  }

  method ValidateCoverage(host: Host, coverage: Option<Json>) returns (issues: seq<Issue>)
    ensures issues == CoverageIssues(host, coverage)
  {
    if !IsObjectLike(coverage) { return [CoverageRequired]; }
    issues := ValidateReviews(Entries(host, coverage.value));
    var reason := Member(coverage, UNCHANGED_REASON);
    if !(reason.Some? && reason.value.Str?) { issues := issues + [UnchangedReasonRequired]; }
  }

  method ValidateBaseline(host: Host, baseline: Json) returns (issues: seq<Issue>)
    ensures issues == Validate(host, baseline)
  {
    var v := Some(baseline);
    var provenance := Member(v, PROVENANCE);
    if !IsObjectLike(provenance) { return [ProvenanceRequired]; }
    issues := BasicIssues(v, provenance);
    var more := ValidateCoverage(host, Member(provenance, COVERAGE_REVIEW));
    issues := issues + more;
    var fingerprints := StringArray(Member(v, FINGERPRINTS));
    if fingerprints.Some? {
      more := ValidateFingerprints(host, provenance, fingerprints.value);
      issues := issues + more;
    }
    issues := issues + HistoryIssues(provenance);
  }

  method ValidateKinds(host: Host, recorded: Option<Json>, fingerprints: seq<JsString>) returns (issues: seq<Issue>)
    ensures issues == KindIssues(host, fingerprints, recorded)
  {
    var kindCounts := FingerprintKindCounts(host, fingerprints);
    if kindCounts.None? { return [FingerprintsNotJson]; }
    if !SameText(host, kindCounts, recorded) { return [KindCountsWrong]; }
    return [];
  }

  method ValidateFingerprints(host: Host, provenance: Option<Json>, fingerprints: seq<JsString>)
    returns (issues: seq<Issue>)
    ensures issues == FingerprintIssues(host, provenance, fingerprints)
  {
    issues := When(!StrictlySorted(fingerprints), FingerprintsNotSorted);
    issues := issues + When(Member(provenance, FINGERPRINT_COUNT) != Some(Num(|fingerprints| as real)),
                            FingerprintCountWrong);
    var kinds := ValidateKinds(host, Member(provenance, KIND_COUNTS), fingerprints);
    var identities := ValidateIdentities(host, fingerprints);
    issues := issues + kinds + identities;
  }
}
