/** Evaluation of one capability relationship: verdicts, the per-hit decision and what a timeout can change. */
module RelationshipScan {
  import opened Options
  import opened BoundedSearch

  /** A file in some signal's scope: unreadable, or all matches of that signal's pattern in its text. */
  datatype File = File(path: string, hits: Option<seq<Hit>>)

  /** Per file, whether the budget of its search is used up after hit number `k`. */
  type Clock = string -> nat -> bool

  datatype Signal = Signal(forTrigger: Option<string -> bool>, files: seq<File>)

  datatype Evidence = Evidence(role: string, file: string, line: int, column: Option<int>, matched: string)

  datatype Marker = Marker(line: int, text: string)

  datatype Relationship = Relationship(
    counterparts: seq<Signal>,
    exceptions: seq<Signal>,
    triggerFiles: seq<File>,
    escalate: bool,
    severity: string,
    markers: (string, int) -> seq<Marker>)

  const COUNTERPART: string := "counterpart"
  const EXCEPTION: string := "exception"
  const TRIGGER: string := "trigger"
  const SCOPE: string := "searched_scope"

  // ---------------------------------------------------------------- severity

  const SEVERITIES: seq<string> := ["nit", "minor", "major", "blocker"]

  function Rank(s: string): int {
    if s == SEVERITIES[0] then 0 else if s == SEVERITIES[1] then 1 else if s == SEVERITIES[2] then 2
    else if s == SEVERITIES[3] then 3 else -1
  }

  function EscalateSeverity(s: string): string {
    var i := Rank(s);
    if i == -1 then s else SEVERITIES[if i + 1 < 3 then i + 1 else 3]
  }

  /** One step up, never past the top; an unknown severity stays. */
  lemma {:induction false} EscalationIsOneStep(s: string)
    ensures Rank(EscalateSeverity(s)) == if Rank(s) == -1 then -1 else if Rank(s) == 3 then 3 else Rank(s) + 1
    ensures EscalateSeverity(s) == s <==> Rank(s) == -1 || Rank(s) == 3
    ensures s in SEVERITIES <==> Rank(s) != -1
  {
    assert SEVERITIES[0] == "nit" && SEVERITIES[1] == "minor" && SEVERITIES[2] == "major" && SEVERITIES[3] == "blocker";
    assert SEVERITIES[0][0] == 'n' && SEVERITIES[1][1] == 'i' && SEVERITIES[2][1] == 'a' && SEVERITIES[3][0] == 'b';
  }

  // ---------------------------------------------------------------- verdicts

  function EvidenceOf(role: string, path: string, hit: Hit): Evidence {
    Evidence(role, path, hit.line, Some(hit.column), hit.match')
  }

  /** The first hit in the first readable file that has one. */
  function FirstMatch(role: string, files: seq<File>): Option<Evidence> {
    if files == [] then None
    else if files[0].hits.Some? && files[0].hits.value != [] then
      Some(EvidenceOf(role, files[0].path, files[0].hits.value[0]))
    else FirstMatch(role, files[1..])
  }

  /** Unreadable files met before the search ends. */
  function Failures(files: seq<File>): seq<string> {
    if files == [] then []
    else if files[0].hits.None? then [files[0].path] + Failures(files[1..])
    else if files[0].hits.value != [] then []
    else Failures(files[1..])
  }

  method FindFirst(role: string, files: seq<File>, clock: Clock)
    returns (match': Option<Evidence>, failures: seq<string>)
    ensures match' == FirstMatch(role, files) && failures == Failures(files)
  {
    failures := [];
    assert files[0..] == files;
    for i := 0 to |files|
      invariant FirstMatch(role, files) == FirstMatch(role, files[i..])
      invariant Failures(files) == failures + Failures(files[i..])
    {
      assert files[i..][1..] == files[i + 1..];
      if files[i].hits.None? {
        assert failures + ([files[i].path] + Failures(files[i + 1..])) ==
               failures + [files[i].path] + Failures(files[i + 1..]);
        failures := failures + [files[i].path];
        continue;
      }
      var r := Cut(files[i].hits.value, clock(files[i].path));
      FirstHitSurvives(files[i].hits.value, clock(files[i].path));
      if |r.hits| > 0 { return Some(EvidenceOf(role, files[i].path, r.hits[0])), failures; }
    }
    return None, failures;
  }

  function ExceptionOf(signals: seq<Signal>): Option<Evidence> {
    if signals == [] then None
    else
      var first := FirstMatch(EXCEPTION, signals[0].files);
      if first.Some? then first else ExceptionOf(signals[1..])
  }

  function ExceptionFailures(signals: seq<Signal>): seq<string> {
    if signals == [] then []
    else
      Failures(signals[0].files)
      + if FirstMatch(EXCEPTION, signals[0].files).Some? then [] else ExceptionFailures(signals[1..])
  }

  lemma {:induction false} ExceptionStep(signals: seq<Signal>, i: nat, failures: seq<string>)
    requires i < |signals|
    ensures var first := FirstMatch(EXCEPTION, signals[i].files); var rest := signals[i + 1..];
            && ExceptionOf(signals[i..]) == (if first.Some? then first else ExceptionOf(rest))
            && failures + ExceptionFailures(signals[i..]) ==
               failures + Failures(signals[i].files) + (if first.Some? then [] else ExceptionFailures(rest))
  {
    assert signals[i..][1..] == signals[i + 1..];
  }

  method FindException(signals: seq<Signal>, clock: Clock) returns (match': Option<Evidence>, failures: seq<string>)
    ensures match' == ExceptionOf(signals) && failures == ExceptionFailures(signals)
  {
    failures := [];
    assert signals[0..] == signals;
    for i := 0 to |signals|
      invariant ExceptionOf(signals) == ExceptionOf(signals[i..])
      invariant ExceptionFailures(signals) == failures + ExceptionFailures(signals[i..])
    {
      ExceptionStep(signals, i, failures);
      var first, more := FindFirst(EXCEPTION, signals[i].files, clock);
      failures := failures + more;
      if first.Some? {
        assert failures + [] == failures;
        return first, failures;
      }
    }
    assert signals[|signals|..] == [] && failures + [] == failures;
    return None, failures;
  }

  function CounterpartMatches(signals: seq<Signal>): (r: seq<Option<Evidence>>)
    ensures |r| == |signals|
  {
    seq(|signals|, i requires 0 <= i < |signals| => FirstMatch(COUNTERPART, signals[i].files))
  }

  function CounterpartFailures(signals: seq<Signal>): seq<string> {
    if signals == [] then []
    else CounterpartFailures(signals[..|signals| - 1])
         + Failures(signals[|signals| - 1].files)
  }

  method CollectCounterpartMatches(signals: seq<Signal>, clock: Clock)
    returns (matches: seq<Option<Evidence>>, failures: seq<string>)
    ensures matches == CounterpartMatches(signals) && failures == CounterpartFailures(signals)
  {
    matches, failures := [], [];
    for i := 0 to |signals|
      invariant matches == CounterpartMatches(signals[..i]) && failures == CounterpartFailures(signals[..i])
    {
      assert signals[i] in signals;
      var first, more := FindFirst(COUNTERPART, signals[i].files, clock);
      assert signals[..i + 1][..i] == signals[..i];
      matches := matches + [first];
      failures := failures + more;
    }
    assert signals[..|signals|] == signals;
  }

  predicate Eligible(s: Signal, trigger: string) {
    s.forTrigger.None? || s.forTrigger.value(trigger)
  }

  function CounterpartFor(signals: seq<Signal>, matches: seq<Option<Evidence>>, trigger: string): Option<Evidence>
    requires |matches| == |signals|
  {
    if signals == [] then None
    else if Eligible(signals[0], trigger) && matches[0].Some? then matches[0]
    else CounterpartFor(signals[1..], matches[1..], trigger)
  }

  method FindCounterpart(signals: seq<Signal>, matches: seq<Option<Evidence>>, trigger: string)
    returns (r: Option<Evidence>)
    requires |matches| == |signals|
    ensures r == CounterpartFor(signals, matches, trigger)
  {
    assert signals[0..] == signals && matches[0..] == matches;
    for i := 0 to |signals|
      invariant CounterpartFor(signals, matches, trigger) == CounterpartFor(signals[i..], matches[i..], trigger)
    {
      assert signals[i..][1..] == signals[i + 1..] && matches[i..][1..] == matches[i + 1..];
      if !Eligible(signals[i], trigger) { continue; }
      if matches[i].Some? { return matches[i]; }
    }
    return None;
  }

  /** A hit is satisfied exactly when some counterpart meant for it was found somewhere. */
  lemma {:induction false} SatisfiedMeans(signals: seq<Signal>, matches: seq<Option<Evidence>>, trigger: string)
    requires |matches| == |signals|
    ensures CounterpartFor(signals, matches, trigger).Some? <==>
            exists i | 0 <= i < |signals| :: Eligible(signals[i], trigger) && matches[i].Some?
    decreases |signals|
  {
    if signals != [] {
      SatisfiedMeans(signals[1..], matches[1..], trigger);
      if i :| 0 <= i < |signals| && Eligible(signals[i], trigger) && matches[i].Some? {
        if i > 0 { assert signals[1..][i - 1] == signals[i] && matches[1..][i - 1] == matches[i]; }
      }
      if i :| 0 <= i < |signals| - 1 && Eligible(signals[1..][i], trigger) && matches[1..][i].Some? {
        assert signals[i + 1] == signals[1..][i] && matches[i + 1] == matches[1..][i];
      }
    }
  }

  // ---------------------------------------------------------------- the closest debt marker

  function Distance(a: int, b: int): nat {
    if a < b then b - a else a - b
  }

  /** The nearest by line, the earliest of the nearest. */
  ghost predicate IsClosest(markers: seq<Marker>, around: int, k: nat) {
    && k < |markers|
    && (forall i | 0 <= i < k :: Distance(markers[k].line, around) < Distance(markers[i].line, around))
    && (forall i | k < i < |markers| :: Distance(markers[k].line, around) <= Distance(markers[i].line, around))
  }

  function ClosestUpTo(markers: seq<Marker>, around: int, n: nat): (k: nat)
    requires 0 < n <= |markers|
    ensures k < n && IsClosest(markers[..n], around, k)
  {
    if n == 1 then 0
    else
      var k := ClosestUpTo(markers, around, n - 1);
      assert markers[..n - 1] == markers[..n][..n - 1];
      assert forall i | 0 <= i < n - 1 :: markers[..n][i] == markers[..n - 1][i];
      if Distance(markers[n - 1].line, around) < Distance(markers[k].line, around) then n - 1 else k
  }

  function Closest(markers: seq<Marker>, around: int): Option<Marker> {
    if markers == [] then None else Some(markers[ClosestUpTo(markers, around, |markers|)])
  }

  method PickClosestDebtMarker(markers: seq<Marker>, around: int) returns (r: Option<Marker>)
    ensures r == Closest(markers, around)
  {
    if |markers| == 0 { return None; }
    var best := markers[0];
    var bestDelta := Distance(best.line, around);
    for i := 1 to |markers|
      invariant best == markers[ClosestUpTo(markers, around, i)] && bestDelta == Distance(best.line, around)
    {
      var delta := Distance(markers[i].line, around);
      if delta < bestDelta { best, bestDelta := markers[i], delta; }
    }
    return Some(best);
  }

  // ---------------------------------------------------------------- one hit

  datatype Place = Place(path: string, hit: Hit)

  datatype Decision =
    | Satisfied(signal: string)
    | Suppressed
    | Emit(severity: string, evidence: seq<Evidence>, escalated: bool)

  /** What is known before the trigger files are walked. */
  datatype Verdicts = Verdicts(declared: Option<Evidence>, matches: seq<Option<Evidence>>)

  function VerdictsOf(r: Relationship): Verdicts {
    Verdicts(ExceptionOf(r.exceptions), CounterpartMatches(r.counterparts))
  }

  function BuildEvidence(p: Place, extra: Option<Evidence>): seq<Evidence> {
    [EvidenceOf(TRIGGER, p.path, p.hit), Evidence(SCOPE, ".", 0, None, "")]
    + if extra.Some? then [extra.value] else []
  }

  function ExtraEvidence(r: Relationship, v: Verdicts, p: Place): Option<Evidence> {
    if v.declared.Some? then v.declared
    else
      match Closest(r.markers(p.path, p.hit.line), p.hit.line)
      case None => None
      case Some(m) => Some(Evidence(EXCEPTION, p.path, m.line, None, m.text))
  }

  function Decide(r: Relationship, v: Verdicts, p: Place): Decision
    requires |v.matches| == |r.counterparts|
  {
    var counterpart := CounterpartFor(r.counterparts, v.matches, p.hit.match');
    if counterpart.Some? then Satisfied(counterpart.value.matched)
    else if !r.escalate then
      if v.declared.Some? then Suppressed else Emit(r.severity, BuildEvidence(p, None), false)
    else
      var extra := ExtraEvidence(r, v, p);
      Emit(if extra.Some? then EscalateSeverity(r.severity) else r.severity, BuildEvidence(p, extra), extra.Some?)
  }

  /** A counterpart for every trigger, or for triggers like this one. */
  ghost predicate MeantFor(s: Signal, trigger: string) {
    match s.forTrigger
    case None => true
    case Some(test) => test(trigger)
  }

  /** The first counterpart meant for the trigger that was found anywhere. */
  ghost predicate FirstFound(signals: seq<Signal>, matches: seq<Option<Evidence>>, trigger: string, k: nat)
    requires |matches| == |signals|
  {
    && k < |signals| && MeantFor(signals[k], trigger) && matches[k].Some?
    && forall i | 0 <= i < k :: !(MeantFor(signals[i], trigger) && matches[i].Some?)
  }

  lemma {:induction false} FoundIsFirst(signals: seq<Signal>, matches: seq<Option<Evidence>>, trigger: string)
    returns (k: nat)
    requires |matches| == |signals| && CounterpartFor(signals, matches, trigger).Some?
    ensures FirstFound(signals, matches, trigger, k) && CounterpartFor(signals, matches, trigger) == matches[k]
    decreases |signals|
  {
    k := 0;
    if !(Eligible(signals[0], trigger) && matches[0].Some?) {
      var rest := FoundIsFirst(signals[1..], matches[1..], trigger);
      k := rest + 1;
      assert forall i | 0 < i < |signals| :: signals[i] == signals[1..][i - 1] && matches[i] == matches[1..][i - 1];
    }
  }

  /**
   * What an emitted hit carries: the trigger, the scope, and exactly when it is escalated the declared exception or
   * else the closest marker; its severity is one step up then, as far as there is one, and its own otherwise.
   */
  ghost predicate EmittedAsMeant(r: Relationship, v: Verdicts, p: Place, d: Decision)
    requires d.Emit?
  {
    && (d.escalated <==> r.escalate && (v.declared.Some? || r.markers(p.path, p.hit.line) != []))
    && Rank(d.severity) == Rank(r.severity) + (if d.escalated && 0 <= Rank(r.severity) < 3 then 1 else 0)
    && (!d.escalated || Rank(r.severity) == -1 ==> d.severity == r.severity)
    && |d.evidence| == (if d.escalated then 3 else 2)
    && d.evidence[0] == Evidence("trigger", p.path, p.hit.line, Some(p.hit.column), p.hit.match')
    && d.evidence[1] == Evidence("searched_scope", ".", 0, None, "")
    && (d.escalated && v.declared.Some? ==> d.evidence[2] == v.declared.value)
    && (d.escalated && v.declared.None? ==>
          exists k: nat :: IsClosest(r.markers(p.path, p.hit.line), p.hit.line, k)
                      && d.evidence[2] == MarkerEvidence(p.path, r.markers(p.path, p.hit.line)[k]))
  }

  function MarkerEvidence(path: string, m: Marker): Evidence {
    Evidence("exception", path, m.line, None, m.text)
  }

  lemma {:induction false} ClosestMeans(markers: seq<Marker>, around: int)
    ensures Closest(markers, around).None? <==> markers == []
    ensures markers != [] ==>
              exists k: nat :: IsClosest(markers, around, k) && Closest(markers, around) == Some(markers[k])
  {
    if markers != [] {
      var k := ClosestUpTo(markers, around, |markers|);
      assert markers[..|markers|] == markers;
      assert IsClosest(markers, around, k);
    }
  }

  lemma {:induction false} EmittedMeans(r: Relationship, v: Verdicts, p: Place)
    requires |v.matches| == |r.counterparts|
    ensures var d := Decide(r, v, p); d.Emit? ==> EmittedAsMeant(r, v, p, d)
  {
    EscalationIsOneStep(r.severity);
    ClosestMeans(r.markers(p.path, p.hit.line), p.hit.line);
  }

  /**
   * Each hit's fate. It is satisfied exactly when a counterpart meant for it was found, and carries the signal of the
   * first such; suppressed exactly when the relationship suppresses and an exception is declared; emitted otherwise.
   */
  lemma {:induction false} DecisionMeans(r: Relationship, v: Verdicts, p: Place)
    requires |v.matches| == |r.counterparts|
    ensures var d := Decide(r, v, p);
            var found := exists i | 0 <= i < |r.counterparts| ::
                           MeantFor(r.counterparts[i], p.hit.match') && v.matches[i].Some?;
            && (d.Satisfied? <==> found)
            && (d.Satisfied? ==> exists k: nat :: FirstFound(r.counterparts, v.matches, p.hit.match', k)
                                             && d.signal == v.matches[k].value.matched)
            && (d.Suppressed? <==> !found && !r.escalate && v.declared.Some?)
            && (d.Emit? ==> EmittedAsMeant(r, v, p, d))
  {
    SatisfiedMeans(r.counterparts, v.matches, p.hit.match');
    if CounterpartFor(r.counterparts, v.matches, p.hit.match').Some? {
      var k := FoundIsFirst(r.counterparts, v.matches, p.hit.match');
    }
    EmittedMeans(r, v, p);
  }

  method DecideHit(r: Relationship, v: Verdicts, place: Place) returns (d: Decision)
    requires |v.matches| == |r.counterparts|
    ensures d == Decide(r, v, place)
  {
    var counterpart := FindCounterpart(r.counterparts, v.matches, place.hit.match');
    if counterpart.Some? { return Satisfied(counterpart.value.matched); }
    if !r.escalate {
      if v.declared.Some? { return Suppressed; }
      return Emit(r.severity, BuildEvidence(place, None), false);
    }
    var extra := v.declared;
    if extra.None? {
      var marker := PickClosestDebtMarker(r.markers(place.path, place.hit.line), place.hit.line);
      if marker.Some? { extra := Some(Evidence(EXCEPTION, place.path, marker.value.line, None, marker.value.text)); }
    }
    var severity := if extra.Some? then EscalateSeverity(r.severity) else r.severity;
    return Emit(severity, BuildEvidence(place, extra), extra.Some?);
  }

  // ---------------------------------------------------------------- the whole walk

  /** A finding; its number is the part of its id after the hash sign. */
  datatype Finding = Finding(number: nat, severity: string, evidence: seq<Evidence>)

  datatype Tally = Tally(
    triggerMatchCount: nat, satisfied: nat, suppressed: nat, escalated: nat, signal: Option<string>,
    findings: seq<Finding>)

  const NOTHING := Tally(0, 0, 0, 0, None, [])

  function Account(t: Tally, d: Decision): Tally {
    var n := t.triggerMatchCount + 1;
    match d
    case Satisfied(s) => t.(triggerMatchCount := n, satisfied := t.satisfied + 1, signal := Some(s))
    case Suppressed => t.(triggerMatchCount := n, suppressed := t.suppressed + 1)
    case Emit(severity, evidence, escalated) =>
      t.(triggerMatchCount := n, escalated := t.escalated + (if escalated then 1 else 0),
         findings := t.findings + [Finding(n, severity, evidence)])
  }

  function TallyOf(r: Relationship, v: Verdicts, places: seq<Place>): Tally
    requires |v.matches| == |r.counterparts|
  {
    if places == [] then NOTHING
    else Account(TallyOf(r, v, places[..|places| - 1]), Decide(r, v, places[|places| - 1]))
  }

  function PlacesIn(path: string, hits: seq<Hit>): (r: seq<Place>)
    ensures |r| == |hits|
  {
    seq(|hits|, i requires 0 <= i < |hits| => Place(path, hits[i]))
  }

  function Searched(f: File, clock: Clock): SearchResult
    requires f.hits.Some?
  {
    Cut(f.hits.value, clock(f.path))
  }

  /** The trigger hits that are looked at: the walk ends behind the first search that runs out of time. */
  function Places(files: seq<File>, clock: Clock): seq<Place> {
    if files == [] then []
    else if files[0].hits.None? then Places(files[1..], clock)
    else
      var s := Searched(files[0], clock);
      PlacesIn(files[0].path, s.hits) + if s.timedOut then [] else Places(files[1..], clock)
  }

  predicate RunsOut(files: seq<File>, clock: Clock) {
    files != [] && ((files[0].hits.Some? && Searched(files[0], clock).timedOut) || RunsOut(files[1..], clock))
  }

  function TriggerFailures(files: seq<File>, clock: Clock): seq<string> {
    if files == [] then []
    else if files[0].hits.None? then [files[0].path] + TriggerFailures(files[1..], clock)
    else if Searched(files[0], clock).timedOut then []
    else TriggerFailures(files[1..], clock)
  }

  lemma {:induction false} PlacesNext(before: seq<Place>, path: string, hits: seq<Hit>, i: nat)
    requires i < |hits|
    ensures before + PlacesIn(path, hits[..i + 1]) == (before + PlacesIn(path, hits[..i])) + [Place(path, hits[i])]
  {
  }

  method AccountHit(r: Relationship, v: Verdicts, place: Place, ghost seen: seq<Place>, t0: Tally) returns (t: Tally)
    requires |v.matches| == |r.counterparts| && t0 == TallyOf(r, v, seen)
    ensures t == TallyOf(r, v, seen + [place])
  {
    var d := DecideHit(r, v, place);
    assert (seen + [place])[..|seen|] == seen;
    t := Account(t0, d);
  }

  method EvaluateHits(r: Relationship, v: Verdicts, path: string, hits: seq<Hit>, ghost before: seq<Place>, t0: Tally)
    returns (t: Tally)
    requires |v.matches| == |r.counterparts| && t0 == TallyOf(r, v, before)
    ensures t == TallyOf(r, v, before + PlacesIn(path, hits))
  {
    t := t0;
    ghost var seen := before;
    assert before + PlacesIn(path, hits[..0]) == before;
    for i := 0 to |hits|
      invariant t == TallyOf(r, v, seen) && seen == before + PlacesIn(path, hits[..i])
    {
      PlacesNext(before, path, hits, i);
      t := AccountHit(r, v, Place(path, hits[i]), seen, t);
      seen := seen + [Place(path, hits[i])];
    }
    assert hits[..|hits|] == hits;
  }

  datatype Coverage =
    | NoTriggerFiles
    | PartialEscalated(findings: nat, escalated: nat)
    | PartialSuppressed(findings: nat, suppressed: nat)
    | ExceptionSuppressed(suppressed: nat)
    | NoTriggerMatch
    | CounterpartSatisfied(signal: string)
    | EmittedEscalated(findings: nat, escalated: nat)
    | Emitted(findings: nat)

  /** All findings of a run share one list of parse failures. */
  datatype Result = Result(findings: seq<Finding>, parseFailures: seq<string>, coverage: Coverage)

  function CoverageOf(r: Relationship, declared: Option<Evidence>, t: Tally, timedOut: bool): Coverage {
    if timedOut then
      if r.escalate then PartialEscalated(|t.findings|, t.escalated) else PartialSuppressed(|t.findings|, t.suppressed)
    else if !r.escalate && declared.Some? && t.triggerMatchCount > 0 then ExceptionSuppressed(t.suppressed)
    else if t.triggerMatchCount == 0 then NoTriggerMatch
    else if t.findings == [] && t.signal.Some? then CounterpartSatisfied(t.signal.value)
    else if r.escalate && t.escalated > 0 then EmittedEscalated(|t.findings|, t.escalated)
    else Emitted(|t.findings|)
  }

  function Evaluated(r: Relationship, clock: Clock): Result {
    if r.triggerFiles == [] then Result([], [], NoTriggerFiles)
    else
      var t := TallyOf(r, VerdictsOf(r), Places(r.triggerFiles, clock));
      Result(t.findings,
             ExceptionFailures(r.exceptions) + CounterpartFailures(r.counterparts)
             + TriggerFailures(r.triggerFiles, clock),
             CoverageOf(r, ExceptionOf(r.exceptions), t, RunsOut(r.triggerFiles, clock)))
  }

  /** One file of the walk. */
  lemma {:induction false} WalkStep(files: seq<File>, i: nat, clock: Clock, before: seq<Place>, failures: seq<string>)
    requires i < |files|
    ensures var f, rest := files[i], files[i + 1..];
            var found := if f.hits.Some? then PlacesIn(f.path, Searched(f, clock).hits) else [];
            var more := if f.hits.None? then [f.path] else [];
            if f.hits.Some? && Searched(f, clock).timedOut then
              && before + Places(files[i..], clock) == before + found
              && failures + TriggerFailures(files[i..], clock) == failures && RunsOut(files[i..], clock)
            else
              && before + Places(files[i..], clock) == before + found + Places(rest, clock)
              && failures + TriggerFailures(files[i..], clock) == failures + more + TriggerFailures(rest, clock)
              && RunsOut(files[i..], clock) == RunsOut(rest, clock)
  {
    assert files[i..][1..] == files[i + 1..];
  }

  method WalkTriggerFiles(r: Relationship, v: Verdicts, clock: Clock)
    returns (t: Tally, failures: seq<string>, timedOut: bool)
    requires |v.matches| == |r.counterparts|
    ensures t == TallyOf(r, v, Places(r.triggerFiles, clock))
    ensures failures == TriggerFailures(r.triggerFiles, clock)
    ensures timedOut == RunsOut(r.triggerFiles, clock)
  {
    t, failures, timedOut := NOTHING, [], false;
    ghost var before: seq<Place> := [];
    var files := r.triggerFiles;
    assert files[0..] == files;
    for i := 0 to |files|
      invariant t == TallyOf(r, v, before) && !timedOut
      invariant Places(files, clock) == before + Places(files[i..], clock)
      invariant TriggerFailures(files, clock) == failures + TriggerFailures(files[i..], clock)
      invariant RunsOut(files, clock) == RunsOut(files[i..], clock)
    {
      WalkStep(files, i, clock, before, failures);
      if files[i].hits.None? {
        failures := failures + [files[i].path];
        continue;
      }
      var s := Searched(files[i], clock);
      t := EvaluateHits(r, v, files[i].path, s.hits, before, t);
      before := before + PlacesIn(files[i].path, s.hits);
      if s.timedOut { return t, failures, true; }
    }
    assert files[|files|..] == [] && before + [] == before && failures + [] == failures;
  }

  method EvaluateRelationship(r: Relationship, clock: Clock) returns (result: Result)
    ensures result == Evaluated(r, clock)
  {
    if |r.triggerFiles| == 0 { return Result([], [], NoTriggerFiles); }
    var declared, parseFailures := FindException(r.exceptions, clock);
    var matches, counterpartFailures := CollectCounterpartMatches(r.counterparts, clock);
    parseFailures := parseFailures + counterpartFailures;
    var t, failures, timedOut := WalkTriggerFiles(r, Verdicts(declared, matches), clock);
    parseFailures := parseFailures + failures;
    result := Result(t.findings, parseFailures, CoverageOf(r, declared, t, timedOut));
  }

  // ---------------------------------------------------------------- every hit is accounted for once

  ghost predicate Balanced(t: Tally) {
    && t.triggerMatchCount == t.satisfied + t.suppressed + |t.findings|
    && (forall i, j | 0 <= i < j < |t.findings| :: t.findings[i].number < t.findings[j].number)
    && (forall i | 0 <= i < |t.findings| :: 0 < t.findings[i].number <= t.triggerMatchCount)
  }

  /** Satisfied, suppressed and emitted hits add up to all hits, and finding numbers strictly increase. */
  lemma {:induction false} EveryHitCountsOnce(r: Relationship, v: Verdicts, places: seq<Place>)
    requires |v.matches| == |r.counterparts|
    ensures Balanced(TallyOf(r, v, places)) && TallyOf(r, v, places).triggerMatchCount == |places|
    decreases |places|
  {
    if places != [] { EveryHitCountsOnce(r, v, places[..|places| - 1]); }
  }

  ghost predicate IsEmitted(r: Relationship, v: Verdicts, p: Place, f: Finding)
    requires |v.matches| == |r.counterparts|
  {
    var d := Decide(r, v, p);
    d.Emit? && f.severity == d.severity && f.evidence == d.evidence
  }

  lemma {:induction false} FindingHasItsHit(r: Relationship, v: Verdicts, places: seq<Place>, f: Finding)
    requires |v.matches| == |r.counterparts| && f in TallyOf(r, v, places).findings
    ensures 0 < f.number <= |places| && IsEmitted(r, v, places[f.number - 1], f)
    decreases |places|
  {
    if places != [] {
      var n := |places| - 1;
      EveryHitCountsOnce(r, v, places[..n]);
      if f in TallyOf(r, v, places[..n]).findings { FindingHasItsHit(r, v, places[..n], f); }
    }
  }

  lemma {:induction false} EmittedHitIsReported(r: Relationship, v: Verdicts, places: seq<Place>, i: nat)
    requires |v.matches| == |r.counterparts| && i < |places| && Decide(r, v, places[i]).Emit?
    ensures var d := Decide(r, v, places[i]); Finding(i + 1, d.severity, d.evidence) in TallyOf(r, v, places).findings
    decreases |places|
  {
    var n := |places| - 1;
    EveryHitCountsOnce(r, v, places[..n]);
    var d := Decide(r, v, places[i]);
    if i < n {
      EmittedHitIsReported(r, v, places[..n], i);
    } else {
      var f := Finding(i + 1, d.severity, d.evidence);
      assert TallyOf(r, v, places).findings == TallyOf(r, v, places[..n]).findings + [f];
    }
  }

  /** The findings are exactly the hits decided to be emitted, each under its hit's own number. */
  lemma {:induction false} FindingsAreTheEmittedHits(r: Relationship, v: Verdicts, places: seq<Place>, f: Finding)
    requires |v.matches| == |r.counterparts|
    ensures f in TallyOf(r, v, places).findings <==>
            0 < f.number <= |places| && IsEmitted(r, v, places[f.number - 1], f)
  {
    if f in TallyOf(r, v, places).findings { FindingHasItsHit(r, v, places, f); }
    if 0 < f.number <= |places| && IsEmitted(r, v, places[f.number - 1], f) {
      EmittedHitIsReported(r, v, places, f.number - 1);
      var d := Decide(r, v, places[f.number - 1]);
      assert f == Finding(f.number, d.severity, d.evidence);
    }
  }

  // ---------------------------------------------------------------- what a timeout can change

  function Never(path: string): nat -> bool {
    k => false
  }

  lemma {:induction false} PlacesConcat(path: string, some: seq<Hit>, all: seq<Hit>, cut: seq<Place>, rest: seq<Place>)
    requires (some <= all && cut == []) || (some == all && cut <= rest)
    ensures PlacesIn(path, some) + cut <= PlacesIn(path, all) + rest
  {
    var a, b := PlacesIn(path, some) + cut, PlacesIn(path, all) + rest;
    assert forall i | 0 <= i < |a| :: a[i] == b[i];
  }

  lemma {:induction false} NeverStops(f: File)
    requires f.hits.Some?
    ensures Searched(f, Never) == SearchResult(f.hits.value, false)
  {
    FirstHitSurvives(f.hits.value, Never(f.path));
  }

  lemma {:induction false} TimeoutCutsHits(files: seq<File>, clock: Clock)
    ensures Places(files, clock) <= Places(files, Never)
    ensures !RunsOut(files, clock) ==> Places(files, clock) == Places(files, Never)
    decreases |files|
  {
    if files != [] {
      TimeoutCutsHits(files[1..], clock);
      if files[0].hits.Some? {
        var s := Searched(files[0], clock);
        FirstHitSurvives(files[0].hits.value, clock(files[0].path));
        NeverStops(files[0]);
        PlacesConcat(files[0].path, s.hits, files[0].hits.value,
                     if s.timedOut then [] else Places(files[1..], clock), Places(files[1..], Never));
      }
    }
  }

  lemma {:induction false} TallyPrefix(r: Relationship, v: Verdicts, some: seq<Place>, all: seq<Place>)
    requires |v.matches| == |r.counterparts| && some <= all
    ensures TallyOf(r, v, some).findings <= TallyOf(r, v, all).findings
    decreases |all|
  {
    if some != all {
      var shorter := all[..|all| - 1];
      assert some <= shorter by {
        assert some == all[..|some|];
      }
      TallyPrefix(r, v, some, shorter);
    }
  }

  /** A run that ran out of time reports a beginning of the untimed findings; one that did not reports them all. */
  lemma {:induction false} TimeoutCutsFindings(r: Relationship, clock: Clock)
    ensures Evaluated(r, clock).findings <= Evaluated(r, Never).findings
    ensures !RunsOut(r.triggerFiles, clock) ==> Evaluated(r, clock).findings == Evaluated(r, Never).findings
  {
    TimeoutCutsHits(r.triggerFiles, clock);
    TallyPrefix(r, VerdictsOf(r), Places(r.triggerFiles, clock), Places(r.triggerFiles, Never));
  }
}
