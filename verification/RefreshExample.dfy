/** A refresh that adds a root: the planner's conditions can be met together. */
module RefreshExample {
  import opened Options
  import opened Utf16
  import opened CanonicalJson
  import opened Baseline
  import opened BaselineValidity
  import opened ProvenancePlan
  import opened ProvenanceGuarantees
  import opened ProvenanceSafety
  import opened RefreshDecision
  import Sorting

  const ROOT := U("a")
  const NEW_ROOT := U("b")
  const CLASS_UNUSED := U("unused")

  function Zeros(n: nat): (r: JsString)
    ensures |r| == n
  {
    seq(n, _ => 48)
  }

  /** What every text parses to: the identity of one finding. */
  function OneIdentity(): Json {
    Set(Obj([Field(U("id"), Str(FINDING_ID)), Field(NAME, Str(CLASS_UNUSED)), Field(U("file"), Str([]))]),
        U("description"), Str([]))
  }

  /** A host that prints arrays of strings as the standard says and gives every text the same digest. */
  lemma {:induction false} ExampleHost() returns (host: Host)
    ensures forall s :: host.parse(s) == Some(OneIdentity()) && host.sha256(s) == Zeros(64)
    ensures TextsDetermineArrays(host)
  {
    host := SuchHostsExist(Host(s => Some(OneIdentity()), v => [], r => [], s => Zeros(64), s => s));
    PrintingHostsMeetIt(host);
  }

  lemma {:induction false} IdentityHolds()
    ensures Identity(OneIdentity())
    ensures Member(Some(OneIdentity()), NAME) == Some(Str(CLASS_UNUSED))
  {
    var three := Obj([Field(U("id"), Str(FINDING_ID)), Field(NAME, Str(CLASS_UNUSED)), Field(U("file"), Str([]))]);
    assert |U("id")| == 2 && |NAME| == 4 && |U("file")| == 4 && |U("description")| == 11;
    assert NAME[0] == 110 && U("file")[0] == 102;
    GetThree(three.fields[0], three.fields[1], three.fields[2]);
    MemberAfterSet(three, U("description"), Str([]), U("id"));
    MemberAfterSet(three, U("description"), Str([]), NAME);
    MemberAfterSet(three, U("description"), Str([]), U("file"));
    MemberAfterSet(three, U("description"), Str([]), U("description"));
  }

  function OneFinding(): Json {
    Obj([Field(U("id"), Str(FINDING_ID)), Field(U("category"), Str(U("Dead Code")))])
  }

  lemma {:induction false} FindingIsDeadCode(host: Host)
    ensures DeadCodeFingerprints(host, [OneFinding()]) != []
  {
    var fields := OneFinding().fields;
    assert |U("id")| == 2 && |U("category")| == 8;
    GetIs(fields, 0);
    GetIs(fields, 1);
    assert IsDeadCode(OneFinding());
  }

  function ExampleScope(): Json {
    Set(Obj([Field(U("repo"), Str(U("plugin"))), Field(U("detector"), Str(U("knip"))),
             Field(U("finding_id"), Str(FINDING_ID))]), CLASSIFICATION, Str(REVIEW_ONLY))
  }

  lemma {:induction false} ScopeMembers()
    ensures var s := Some(ExampleScope());
            && Member(s, U("repo")) == Text("plugin") && Member(s, U("detector")) == Text("knip")
            && Member(s, U("finding_id")) == Text("MAINT-003") && Member(s, CLASSIFICATION) == Text("review-only")
  {
    var three := Obj([Field(U("repo"), Str(U("plugin"))), Field(U("detector"), Str(U("knip"))),
                      Field(U("finding_id"), Str(FINDING_ID))]);
    assert |U("repo")| == 4 && |U("detector")| == 8 && |U("finding_id")| == 10 && |CLASSIFICATION| == 14;
    GetThree(three.fields[0], three.fields[1], three.fields[2]);
    MemberAfterSet(three, CLASSIFICATION, Str(REVIEW_ONLY), U("repo"));
    MemberAfterSet(three, CLASSIFICATION, Str(REVIEW_ONLY), U("detector"));
    MemberAfterSet(three, CLASSIFICATION, Str(REVIEW_ONLY), U("finding_id"));
    MemberAfterSet(three, CLASSIFICATION, Str(REVIEW_ONLY), CLASSIFICATION);
  }

  function ExampleBasis(): Json {
    Obj([Field(CLASSIFICATION, Str(REVIEW_ONLY)), Field(DELETION_OWNER, Str(U("clearDeadCodeBaseline"))),
         Field(DELETION_AUTHORITY, Bool(false))])
  }

  lemma {:induction false} BasisHolds()
    ensures var b := Some(Set(ExampleBasis(), REFRESH_OWNER, Str(REFRESH_COMMAND)));
            && Member(b, CLASSIFICATION) == Text("review-only")
            && Member(b, DELETION_OWNER) == Text("clearDeadCodeBaseline")
            && Member(b, DELETION_AUTHORITY) == Some(Bool(false))
            && Member(b, REFRESH_OWNER) == Text("dead-code:provenance:refresh")
  {
    KeysDiffer();
    assert CLASSIFICATION[0] == 99 && DELETION_OWNER[0] == 100;
    GetThree(ExampleBasis().fields[0], ExampleBasis().fields[1], ExampleBasis().fields[2]);
    BasisMembers(ExampleBasis());
  }

  /** One fingerprint, the empty text. */
  const PRINTS: seq<JsString> := [[]]

  lemma {:induction false} KindsCounted(host: Host) returns (kinds: Json)
    requires forall s :: host.parse(s) == Some(OneIdentity())
    ensures KindCounts(host, PRINTS) == Some(kinds)
  {
    IdentityHolds();
    assert NameOf(host, []) == Some(CLASS_UNUSED);
    assert PRINTS[1..] == [];
    kinds := KindCounts(host, PRINTS).value;
  }

  function ExampleRecord(kinds: Json): Json {
    Obj([Field(PROJECT_PATTERNS, ArrayOf([])), Field(FINGERPRINT_COUNT, Num(1.0)), Field(KIND_COUNTS, kinds)])
  }

  /** A baseline reviewed when it had one root, which its review found to be one more than before. */
  function ExampleBaseline(host: Host, kinds: Json): Json {
    Set(Obj([Field(SCHEMA_VERSION, Str(U("dead_code_baseline.v1"))), Field(SCOPE, ExampleScope()),
             Field(FINGERPRINTS, ArrayOf(PRINTS))]),
        PROVENANCE,
        NewProvenance(ExampleRecord(kinds), ExampleBasis(), Zeros(64), [ROOT], Zeros(40),
                      Coverage(host, [], [ROOT], 1, 1, 1, 1)))
  }

  lemma {:induction false} ExampleTop(host: Host, kinds: Json)
    ensures var v := Some(ExampleBaseline(host, kinds));
            && Member(v, SCHEMA_VERSION) == Text("dead_code_baseline.v1") && Member(v, SCOPE) == Some(ExampleScope())
            && StringArray(Member(v, FINGERPRINTS)) == Some(PRINTS)
            && Member(v, PROVENANCE) ==
               Some(NewProvenance(ExampleRecord(kinds), ExampleBasis(), Zeros(64), [ROOT], Zeros(40),
                                  Coverage(host, [], [ROOT], 1, 1, 1, 1)))
  {
    var three := Obj([Field(SCHEMA_VERSION, Str(U("dead_code_baseline.v1"))), Field(SCOPE, ExampleScope()),
                      Field(FINGERPRINTS, ArrayOf(PRINTS))]);
    KeysDiffer();
    GetThree(three.fields[0], three.fields[1], three.fields[2]);
    TopMembers(three, NewProvenance(ExampleRecord(kinds), ExampleBasis(), Zeros(64), [ROOT], Zeros(40),
                                    Coverage(host, [], [ROOT], 1, 1, 1, 1)));
    StringsOfArray(PRINTS);
  }

  lemma {:induction false} ExampleProvenance(host: Host, kinds: Json)
    ensures var q := Member(Some(ExampleBaseline(host, kinds)), PROVENANCE);
            && Member(q, KNIP_CONFIG_SHA256) == Some(Str(Zeros(64))) && Member(q, GIT_HEAD) == Some(Str(Zeros(40)))
            && StringArray(Member(q, ENTRY_ROOTS)) == Some([ROOT])
            && Member(q, PROJECT_PATTERNS) == Some(ArrayOf([])) && StringArray(Member(q, PROJECT_PATTERNS)).Some?
            && Member(q, FINGERPRINT_COUNT) == Some(Num(1.0)) && Member(q, KIND_COUNTS) == Some(kinds)
            && Member(q, COVERAGE_REVIEW) == Some(Coverage(host, [], [ROOT], 1, 1, 1, 1))
            && Member(q, REVIEW_BASIS) == Some(Set(ExampleBasis(), REFRESH_OWNER, Str(REFRESH_COMMAND)))
  {
    ExampleTop(host, kinds);
    KeysDiffer();
    GetThree(ExampleRecord(kinds).fields[0], ExampleRecord(kinds).fields[1], ExampleRecord(kinds).fields[2]);
    NewProvenanceMembers(ExampleRecord(kinds), ExampleBasis(), Zeros(64), [ROOT], Zeros(40),
                         Coverage(host, [], [ROOT], 1, 1, 1, 1));
    StringsOfArray([ROOT]);
    StringsOfArray([]);
  }

  lemma {:induction false} ExamplePrints(host: Host, q: Option<Json>, kinds: Json)
    requires forall s :: host.parse(s) == Some(OneIdentity())
    requires KindCounts(host, PRINTS) == Some(kinds) && Member(q, KIND_COUNTS) == Some(kinds)
    requires Member(q, FINGERPRINT_COUNT) == Some(Num(1.0))
    ensures FingerprintsRecorded(host, q, PRINTS)
  {
    IdentityHolds();
  }

  lemma {:induction false} ExampleIsValid(host: Host, kinds: Json)
    requires forall s :: host.parse(s) == Some(OneIdentity())
    requires KindCounts(host, PRINTS) == Some(kinds)
    ensures ValidRecord(host, ExampleBaseline(host, kinds))
  {
    var v := Some(ExampleBaseline(host, kinds));
    var q := Member(v, PROVENANCE);
    ExampleTop(host, kinds);
    ExampleProvenance(host, kinds);
    ExampleHeader(v, q);
    ExamplePrints(host, q, kinds);
    CoverageIsRecorded(host, [], [ROOT], 1, 1);
    HistoryIsRecorded(q, host, [], [ROOT], 1, 1);
    PartsMakeValid(host, ExampleBaseline(host, kinds), q, PRINTS);
  }

  lemma {:induction false} PartsMakeValid(host: Host, baseline: Json, q: Option<Json>, f: seq<JsString>)
    requires Member(Some(baseline), PROVENANCE) == q && StringArray(Member(Some(baseline), FINGERPRINTS)) == Some(f)
    requires ReviewedHeader(Some(baseline)) && CoverageRecorded(host, Member(q, COVERAGE_REVIEW))
    requires FingerprintsRecorded(host, q, f) && HistoryRecorded(q)
    ensures ValidRecord(host, baseline)
  {
  }

  lemma {:induction false} ExampleHeader(v: Option<Json>, q: Option<Json>)
    requires Member(v, PROVENANCE) == q && Member(v, SCOPE) == Some(ExampleScope())
    requires Member(v, SCHEMA_VERSION) == Text("dead_code_baseline.v1") && StringArray(Member(v, FINGERPRINTS)).Some?
    requires StringArray(Member(q, ENTRY_ROOTS)).Some? && StringArray(Member(q, PROJECT_PATTERNS)).Some?
    requires Member(q, KNIP_CONFIG_SHA256) == Some(Str(Zeros(64))) && Member(q, GIT_HEAD) == Some(Str(Zeros(40)))
    requires Member(q, REVIEW_BASIS) == Some(Set(ExampleBasis(), REFRESH_OWNER, Str(REFRESH_COMMAND)))
    ensures ReviewedHeader(v)
  {
    ScopeMembers();
    BasisHolds();
  }

  function ExampleConfig(): Json {
    Obj([Field(ENTRY, ArrayOf([ROOT, NEW_ROOT])), Field(PROJECT, ArrayOf([]))])
  }

  lemma {:induction false} ConfigMembers()
    ensures StringArray(Member(Some(ExampleConfig()), ENTRY)) == Some([ROOT, NEW_ROOT])
    ensures Member(Some(ExampleConfig()), PROJECT) == Some(ArrayOf([]))
    ensures StringArray(Member(Some(ExampleConfig()), PROJECT)).Some?
  {
    KeysDiffer();
    GetIs(ExampleConfig().fields, 0);
    GetIs(ExampleConfig().fields, 1);
    StringsOfArray([ROOT, NEW_ROOT]);
    StringsOfArray([]);
  }

  function ExampleInput(host: Host, kinds: Json): PlannerInput {
    PlannerInput(ExampleBaseline(host, kinds), ExampleConfig(), Set(ExampleConfig(), ENTRY, ArrayOf([ROOT])), Zeros(64),
                 Zeros(40), [OneFinding()], [OneFinding()])
  }

  lemma {:induction false} SameScans(host: Host, input: PlannerInput)
    requires input.beforeFindings == input.afterFindings == [OneFinding()]
    ensures SomethingFound(host, input) && SameFound(host, input)
  {
    FindingIsDeadCode(host);
  }

  lemma {:induction false} ExampleIsRefreshable(host: Host, input: PlannerInput)
    requires ValidRecord(host, input.baseline) && SomethingFound(host, input) && SameFound(host, input)
    requires RecordedRoots(input) == Some([ROOT]) && EntryNow(input) == Some([ROOT, NEW_ROOT])
    requires ProjectNow(input).Some? && HashRecorded(host, input) && PatternsSame(host, input)
    requires input.currentConfigHash == Zeros(64) && input.gitHead == Zeros(40)
    ensures Refreshable(host, input)
  {
  }

  lemma {:induction false} ExampleReads(host: Host, kinds: Json)
    requires forall s :: host.sha256(s) == Zeros(64)
    ensures var input := ExampleInput(host, kinds);
            && RecordedRoots(input) == Some([ROOT]) && EntryNow(input) == Some([ROOT, NEW_ROOT])
            && ProjectNow(input).Some? && HashRecorded(host, input) && PatternsSame(host, input)
  {
    ExampleProvenance(host, kinds);
    ConfigMembers();
  }

  lemma {:induction false} ExampleRefreshes(host: Host, kinds: Json)
    requires forall s :: host.parse(s) == Some(OneIdentity()) && host.sha256(s) == Zeros(64)
    requires KindCounts(host, PRINTS) == Some(kinds)
    ensures Plan(host, ExampleInput(host, kinds)).Refreshed?
  {
    ExampleIsValid(host, kinds);
    ExampleReads(host, kinds);
    SameScans(host, ExampleInput(host, kinds));
    ExampleIsRefreshable(host, ExampleInput(host, kinds));
    RefreshesWhen(host, ExampleInput(host, kinds));
  }

  /** There are a host and an input with one more root than recorded for which the planner refreshes. */
  lemma {:induction false} OneRootIsAdded() returns (host: Host, input: PlannerInput)
    ensures TextsDetermineArrays(host) && input.currentConfigHash == ConfigHash(host, input.currentConfig)
    ensures RecordedRoots(input) == Some([ROOT]) && EntryNow(input) == Some([ROOT, NEW_ROOT])
    ensures Plan(host, input).Refreshed?
  {
    host := ExampleHost();
    var kinds := KindsCounted(host);
    input := ExampleInput(host, kinds);
    ExampleRefreshes(host, kinds);
    ExampleReads(host, kinds);
  }
}
