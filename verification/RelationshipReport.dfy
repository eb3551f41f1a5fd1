/** What the report of a relationship says, of the hits of its trigger files. */
module RelationshipReport {
  import opened Options
  import opened BoundedSearch
  import opened RelationshipScan

  // ---------------------------------------------------------------- the hits that are looked at

  /** The hit of a readable file, by file and place. */
  ghost predicate IsHit(files: seq<File>, i: nat, j: nat, p: Place) {
    && i < |files| && files[i].hits.Some? && j < |files[i].hits.value|
    && p == Place(files[i].path, files[i].hits.value[j])
  }

  ghost predicate HasHit(files: seq<File>, p: Place) {
    exists i: nat, j: nat :: IsHit(files, i, j, p)
  }

  lemma {:induction false} HasHitCons(f: File, rest: seq<File>, p: Place)
    ensures HasHit([f] + rest, p) <==>
            (exists j: nat :: IsHit([f], 0, j, p)) || HasHit(rest, p)
  {
    var files := [f] + rest;
    if i: nat, j: nat :| IsHit(files, i, j, p) {
      if i == 0 { assert IsHit([f], 0, j, p); } else { assert IsHit(rest, i - 1, j, p); }
    }
    if j: nat :| IsHit([f], 0, j, p) { assert IsHit(files, 0, j, p); }
    if i: nat, j: nat :| IsHit(rest, i, j, p) { assert IsHit(files, i + 1, j, p); }
  }

  lemma {:induction false} PlacesOfFile(f: File, p: Place)
    requires f.hits.Some?
    ensures p in PlacesIn(f.path, f.hits.value) <==> exists j: nat :: IsHit([f], 0, j, p)
  {
    var places := PlacesIn(f.path, f.hits.value);
    if p in places {
      var j :| 0 <= j < |places| && places[j] == p;
      assert IsHit([f], 0, j, p);
    }
    if j: nat :| IsHit([f], 0, j, p) { assert places[j] == p; }
  }

  /** A run that does not run out of time looks at every hit of every readable trigger file, and at nothing else. */
  lemma {:induction false} EveryHitIsLookedAt(files: seq<File>, clock: Clock, p: Place)
    requires !RunsOut(files, clock)
    ensures p in Places(files, clock) <==> HasHit(files, p)
    decreases |files|
  {
    if files != [] {
      var f, rest := files[0], files[1..];
      assert files == [f] + rest;
      EveryHitIsLookedAt(rest, clock, p);
      HasHitCons(f, rest, p);
      if f.hits.Some? {
        FirstHitSurvives(f.hits.value, clock(f.path));
        PlacesOfFile(f, p);
      }
    }
  }

  lemma {:induction false} NoHitTwice(files: seq<File>, clock: Clock)
    requires !RunsOut(files, clock)
    ensures |Places(files, clock)| == HitCount(files)
    decreases |files|
  {
    if files != [] {
      NoHitTwice(files[1..], clock);
      if files[0].hits.Some? { FirstHitSurvives(files[0].hits.value, clock(files[0].path)); }
    }
  }

  /** How many hits the readable files have. */
  function HitCount(files: seq<File>): nat {
    if files == [] then 0 else (if files[0].hits.Some? then |files[0].hits.value| else 0) + HitCount(files[1..])
  }

  // ---------------------------------------------------------------- counters

  function CountWhere(places: seq<Place>, test: Place -> bool): nat {
    if places == [] then 0
    else CountWhere(places[..|places| - 1], test) + if test(places[|places| - 1]) then 1 else 0
  }

  function Fate(r: Relationship, v: Verdicts): Place -> Decision
    requires |v.matches| == |r.counterparts|
  {
    (p: Place) requires |v.matches| == |r.counterparts| => Decide(r, v, p)
  }

  function Satisfies(fate: Place -> Decision): Place -> bool {
    (p: Place) => fate(p).Satisfied?
  }

  function Suppresses(fate: Place -> Decision): Place -> bool {
    (p: Place) => fate(p).Suppressed?
  }

  function Emits(fate: Place -> Decision): Place -> bool {
    (p: Place) => fate(p).Emit?
  }

  function Escalates(fate: Place -> Decision): Place -> bool {
    (p: Place) => fate(p).Emit? && fate(p).escalated
  }

  /** The counters of a tally are the numbers of hits of each fate, and its signal is that of the last one satisfied. */
  ghost predicate CountsFates(t: Tally, fate: Place -> Decision, places: seq<Place>) {
    && t.triggerMatchCount == |places|
    && t.satisfied == CountWhere(places, Satisfies(fate)) && t.suppressed == CountWhere(places, Suppresses(fate))
    && |t.findings| == CountWhere(places, Emits(fate)) && t.escalated == CountWhere(places, Escalates(fate))
    && (t.signal.Some? <==> t.satisfied > 0)
    && (t.signal.Some? ==> exists k | 0 <= k < |places| :: LastSatisfied(fate, places, k)
                                                           && fate(places[k]).signal == t.signal.value)
  }

  ghost predicate LastSatisfied(fate: Place -> Decision, places: seq<Place>, k: nat) {
    && k < |places| && fate(places[k]).Satisfied?
    && forall i | k < i < |places| :: !fate(places[i]).Satisfied?
  }

  lemma {:induction false} CountsNext(t: Tally, fate: Place -> Decision, init: seq<Place>, p: Place)
    requires CountsFates(t, fate, init)
    ensures CountsFates(Account(t, fate(p)), fate, init + [p])
  {
    var places, next := init + [p], Account(t, fate(p));
    assert places[..|init|] == init && places[|init|] == p;
    if fate(p).Satisfied? {
      assert LastSatisfied(fate, places, |init|);
    } else if t.signal.Some? {
      var k :| 0 <= k < |init| && LastSatisfied(fate, init, k) && fate(init[k]).signal == t.signal.value;
      assert places[k] == init[k];
      assert LastSatisfied(fate, places, k);
    }
  }

  lemma {:induction false} TallyCountsFates(r: Relationship, v: Verdicts, places: seq<Place>)
    requires |v.matches| == |r.counterparts|
    ensures CountsFates(TallyOf(r, v, places), Fate(r, v), places)
    decreases |places|
  {
    if places != [] {
      var n := |places| - 1;
      TallyCountsFates(r, v, places[..n]);
      CountsNext(TallyOf(r, v, places[..n]), Fate(r, v), places[..n], places[n]);
      assert places == places[..n] + [places[n]];
    }
  }

  lemma {:induction false} FatesAddUp(fate: Place -> Decision, places: seq<Place>)
    ensures CountWhere(places, Satisfies(fate)) + CountWhere(places, Suppresses(fate)) + CountWhere(places, Emits(fate))
            == |places|
    ensures CountWhere(places, Escalates(fate)) <= CountWhere(places, Emits(fate))
    decreases |places|
  {
    if places != [] { FatesAddUp(fate, places[..|places| - 1]); }
  }

  lemma {:induction false} NoneCounted(places: seq<Place>, test: Place -> bool)
    ensures CountWhere(places, test) == 0 <==> forall p | p in places :: !test(p)
    decreases |places|
  {
    if places != [] {
      NoneCounted(places[..|places| - 1], test);
      assert places == places[..|places| - 1] + [places[|places| - 1]];
    }
  }

  // ---------------------------------------------------------------- the coverage entry

  /**
   * The coverage of a run, by how its hits fared. A timed-out run is partial. Otherwise a declared exception that
   * suppresses is named when there is a hit; no hit at all, only satisfied hits, escalations, and findings follow.
   */
  lemma {:induction false} CoverageMeans(r: Relationship, clock: Clock)
    requires r.triggerFiles != []
    ensures
      var places, fate := Places(r.triggerFiles, clock), Fate(r, VerdictsOf(r));
      var emitted, escalated := CountWhere(places, Emits(fate)), CountWhere(places, Escalates(fate));
      var suppressed := CountWhere(places, Suppresses(fate));
      var coverage := Evaluated(r, clock).coverage;
      if RunsOut(r.triggerFiles, clock) then
        coverage == if r.escalate then PartialEscalated(emitted, escalated) else PartialSuppressed(emitted, suppressed)
      else if places == [] then coverage == NoTriggerMatch
      else if !r.escalate && ExceptionOf(r.exceptions).Some? then coverage == ExceptionSuppressed(suppressed)
      else if forall p | p in places :: fate(p).Satisfied? then
        coverage == CounterpartSatisfied(fate(places[|places| - 1]).signal)
      else if escalated > 0 then coverage == EmittedEscalated(emitted, escalated)
      else coverage == Emitted(emitted)
  {
    var places, v := Places(r.triggerFiles, clock), VerdictsOf(r);
    var fate, t := Fate(r, v), TallyOf(r, v, places);
    TallyCountsFates(r, v, places);
    FatesAddUp(fate, places);
    NoneCounted(places, Suppresses(fate));
    NoneCounted(places, Escalates(fate));
    NoneCounted(places, Emits(fate));
    forall p | p in places
      ensures fate(p).Suppressed? ==> !r.escalate && v.declared.Some?
      ensures fate(p).Emit? && fate(p).escalated ==> r.escalate
    {
      DecisionMeans(r, v, p);
    }
    if places != [] { AllSatisfied(t, fate, places); }
  }

  lemma {:induction false} AllSatisfied(t: Tally, fate: Place -> Decision, places: seq<Place>)
    requires CountsFates(t, fate, places) && places != []
    ensures (forall p | p in places :: fate(p).Satisfied?) ==>
              t.findings == [] && t.signal == Some(fate(places[|places| - 1]).signal)
    ensures (forall p | p in places :: !fate(p).Suppressed?) && t.findings == [] ==>
              forall p | p in places :: fate(p).Satisfied?
  {
    NoneCounted(places, Emits(fate));
    NoneCounted(places, Satisfies(fate));
    if forall p | p in places :: fate(p).Satisfied? {
      var last := |places| - 1;
      assert places[last] in places;
      var k :| 0 <= k < |places| && LastSatisfied(fate, places, k) && fate(places[k]).signal == t.signal.value;
      assert k == last;
    }
  }

  // ---------------------------------------------------------------- where a signal is found

  predicate HasHits(f: File) {
    f.hits.Some? && f.hits.value != []
  }

  /** The first readable file with a hit. */
  ghost predicate FirstWithHits(files: seq<File>, k: nat) {
    k < |files| && HasHits(files[k]) && forall i | 0 <= i < k :: !HasHits(files[i])
  }

  function HitEvidence(role: string, path: string, h: Hit): Evidence {
    Evidence(role, path, h.line, Some(h.column), h.match')
  }

  /** The evidence is the first hit of the first readable file with one. */
  lemma {:induction false} FirstMatchMeans(role: string, files: seq<File>)
    ensures FirstMatch(role, files).None? <==> forall i | 0 <= i < |files| :: !HasHits(files[i])
    ensures FirstMatch(role, files).Some? ==>
              exists k: nat :: FirstWithHits(files, k)
                               && FirstMatch(role, files).value ==
                                  HitEvidence(role, files[k].path, files[k].hits.value[0])
  {
    if files != [] {
      var rest := files[1..];
      FirstMatchMeans(role, rest);
      assert forall i | 0 <= i < |rest| :: rest[i] == files[i + 1];
      if HasHits(files[0]) {
        assert FirstWithHits(files, 0);
      } else {
        assert (forall i | 0 <= i < |rest| :: !HasHits(rest[i])) ==>
               forall i | 0 < i < |files| :: !HasHits(files[i]) by {
          assert forall i | 0 < i < |files| :: files[i] == rest[i - 1];
        }
        if FirstMatch(role, rest).Some? {
          var k: nat :| FirstWithHits(rest, k)
                        && FirstMatch(role, rest).value == HitEvidence(role, rest[k].path, rest[k].hits.value[0]);
          assert HasHits(files[k + 1]);
          assert forall i | 0 < i < k + 1 :: files[i] == rest[i - 1];
          assert FirstWithHits(files, k + 1);
        }
      }
    }
  }

  /** Signals are tried in order: the declared exception is what the first of them that is found anywhere gives. */
  lemma {:induction false} ExceptionMeans(signals: seq<Signal>)
    ensures ExceptionOf(signals).None? <==>
            forall i | 0 <= i < |signals| :: FirstMatch(EXCEPTION, signals[i].files).None?
    ensures ExceptionOf(signals).Some? ==>
              exists k: nat :: FirstException(signals, k)
                               && ExceptionOf(signals) == FirstMatch(EXCEPTION, signals[k].files)
  {
    if signals != [] {
      var rest := signals[1..];
      ExceptionMeans(rest);
      assert forall i | 0 < i < |signals| :: signals[i] == rest[i - 1];
      if FirstMatch(EXCEPTION, signals[0].files).Some? {
        assert FirstException(signals, 0);
      } else if ExceptionOf(rest).Some? {
        var k: nat :| FirstException(rest, k) && ExceptionOf(rest) == FirstMatch(EXCEPTION, rest[k].files);
        assert signals[k + 1] == rest[k];
        assert FirstException(signals, k + 1);
      } else {
        forall i | 0 <= i < |signals| ensures FirstMatch(EXCEPTION, signals[i].files).None? {
          if i > 0 { assert signals[i] == rest[i - 1]; }
        }
      }
    }
  }

  ghost predicate FirstException(signals: seq<Signal>, k: nat) {
    && k < |signals| && FirstMatch(EXCEPTION, signals[k].files).Some?
    && forall i | 0 <= i < k :: FirstMatch(EXCEPTION, signals[i].files).None?
  }
}
