/** One run of an optimization detector over the files its globs select. */
module DetectorRun {
  import opened Options
  import opened BoundedSearch
  import opened Proximity
  import Sequences

  /** A selected file: unreadable, or its text, where the trigger matches, and whether its search ran out of time. */
  datatype FileScan = FileScan(path: string, text: Option<string>, matches: Pattern, timedOut: bool)

  /** The family's decision on a hit: the further evidence of a candidate, or no candidate. */
  type Judge = (string, int) -> Option<seq<Evidence>>

  datatype Detector = Detector(id: string, judge: Judge, makeId: (string, int) -> string)

  datatype State = Degraded | TimedOut | Run

  predicate StopsAt(f: FileScan) {
    f.text.Some? && f.timedOut
  }

  function HitsOf(f: FileScan): seq<Hit> {
    if f.text.Some? then Ahead(f.text.value, f.matches, 0) else []
  }

  function Emitted(d: Detector, path: string, line: int): seq<Candidate> {
    match d.judge(path, line)
    case None => []
    case Some(more) => [Candidate(d.makeId(path, line), d.id, [Evidence(TRIGGER, path, line)] + more)]
  }

  function FromHits(d: Detector, path: string, hits: seq<Hit>): seq<Candidate> {
    if hits == [] then [] else Emitted(d, path, hits[0].line) + FromHits(d, path, hits[1..])
  }

  function FromFile(d: Detector, f: FileScan): seq<Candidate> {
    FromHits(d, f.path, HitsOf(f))
  }

  /** Everything emitted before the first file that runs out of time. */
  function Collected(d: Detector, files: seq<FileScan>): seq<Candidate> {
    if files == [] || StopsAt(files[0]) then [] else FromFile(d, files[0]) + Collected(d, files[1..])
  }

  method EvaluateHits(d: Detector, path: string, hits: seq<Hit>) returns (r: seq<Candidate>)
    ensures r == FromHits(d, path, hits)
  {
    r := [];
    assert hits[0..] == hits;
    for i := 0 to |hits|
      invariant FromHits(d, path, hits) == r + FromHits(d, path, hits[i..])
    {
      assert hits[i..][1..] == hits[i + 1..];
      var one := Emitted(d, path, hits[i].line);
      assert r + (one + FromHits(d, path, hits[i + 1..])) == r + one + FromHits(d, path, hits[i + 1..]);
      r := r + one;
    }
  }

  /** One file: unreadable, out of time, or its candidates. */
  method EvaluateFile(d: Detector, f: FileScan) returns (found: seq<Candidate>, stop: bool)
    ensures stop == StopsAt(f)
    ensures found == if stop then [] else FromFile(d, f)
  {
    if f.text.None? { return [], false; }
    if f.timedOut { return [], true; }
    found := EvaluateHits(d, f.path, HitsOf(f));
    stop := false;
  }

  lemma {:induction false} CollectedFrom(d: Detector, files: seq<FileScan>, i: nat)
    requires i < |files|
    ensures Collected(d, files[i..]) ==
            if StopsAt(files[i]) then [] else FromFile(d, files[i]) + Collected(d, files[i + 1..])
  {
    assert files[i..][1..] == files[i + 1..];
  }

  lemma {:induction false} CollectedStep(d: Detector, files: seq<FileScan>, i: nat, before: seq<Candidate>,
                                         found: seq<Candidate>)
    requires i < |files| && found == if StopsAt(files[i]) then [] else FromFile(d, files[i])
    ensures before + Collected(d, files[i..]) ==
            if StopsAt(files[i]) then before else before + found + Collected(d, files[i + 1..])
  {
    CollectedFrom(d, files, i);
    Sequences.Assoc(before, found, Collected(d, files[i + 1..]));
  }

  method CollectCandidates(d: Detector, files: seq<FileScan>) returns (candidates: seq<Candidate>, timedOut: bool)
    ensures candidates == Collected(d, files)
    ensures timedOut <==> exists k | 0 <= k < |files| :: StopsAt(files[k])
  {
    candidates := [];
    assert files[0..] == files;
    for i := 0 to |files|
      invariant Collected(d, files) == candidates + Collected(d, files[i..])
      invariant forall k | 0 <= k < i :: !StopsAt(files[k])
    {
      var found, stop := EvaluateFile(d, files[i]);
      CollectedStep(d, files, i, candidates, found);
      if stop { return candidates, true; }
      candidates := candidates + found;
    }
    assert files[|files|..] == [] && candidates + [] == candidates;
    return candidates, false;
  }

  method EvaluateDetector(d: Detector, truncated: bool, files: seq<FileScan>)
    returns (candidates: seq<Candidate>, state: State)
    ensures truncated ==> candidates == [] && state == Degraded
    ensures !truncated ==> candidates == Filter(Collected(d, files))
    ensures !truncated ==> state == if exists k | 0 <= k < |files| :: StopsAt(files[k]) then TimedOut else Run
  {
    if truncated { return [], Degraded; }
    var collected, timedOut := CollectCandidates(d, files);
    candidates := DeduplicateCandidates(collected);
    state := if timedOut then TimedOut else Run;
  }

  // ---------------------------------------------------------------- candidates come in source order

  ghost predicate LinesGrow(hits: seq<Hit>) {
    forall i, j | 0 <= i < j < |hits| :: hits[i].line <= hits[j].line
  }

  lemma {:induction false} EmittedSite(d: Detector, path: string, line: int)
    ensures |Emitted(d, path, line)| <= 1
    ensures forall c | c in Emitted(d, path, line) :: c.detectorId == d.id && FileOf(c) == path && LineOf(c) == line
  {
  }

  lemma {:induction false} SitesGrow(one: seq<Candidate>, rest: seq<Candidate>, line: int)
    requires |one| <= 1 && (forall c | c in one :: LineOf(c) == line)
    requires InOrder(Sites(rest)) && forall i | 0 <= i < |rest| :: line <= LineOf(rest[i])
    requires forall c, e | c in one + rest && e in one + rest :: FileOf(c) == FileOf(e)
    ensures InOrder(Sites(one + rest))
  {
    var cs := one + rest;
    forall i, j | 0 <= i < j < |cs| ensures LineOf(cs[i]) <= LineOf(cs[j]) {
      assert cs[j] == rest[j - |one|] && rest[j - |one|] in cs;
      if i >= |one| {
        assert cs[i] == rest[i - |one|] && cs[i] in cs;
        SiteAt(rest, i - |one|);
        SiteAt(rest, j - |one|);
      } else {
        assert one[i] in one;
      }
    }
  }

  lemma {:induction false} FromHitsInOrder(d: Detector, path: string, hits: seq<Hit>)
    requires LinesGrow(hits)
    ensures var cs := FromHits(d, path, hits);
            && (forall i | 0 <= i < |cs| :: cs[i].detectorId == d.id && FileOf(cs[i]) == path
                                            && (hits != [] && hits[0].line <= LineOf(cs[i])))
            && InOrder(Sites(cs))
    decreases |hits|
  {
    if hits != [] {
      var one, rest := Emitted(d, path, hits[0].line), FromHits(d, path, hits[1..]);
      assert LinesGrow(hits[1..]);
      FromHitsInOrder(d, path, hits[1..]);
      EmittedSite(d, path, hits[0].line);
      assert hits[1..] != [] ==> hits[0].line <= hits[1..][0].line;
      SitesGrow(one, rest, hits[0].line);
    }
  }

  lemma {:induction false} SiteAt(cs: seq<Candidate>, i: nat)
    requires i < |cs|
    ensures Sites(cs)[i] == Site(FileOf(cs[i]), LineOf(cs[i]))
  {
  }

  ghost predicate DistinctPaths(files: seq<FileScan>) {
    forall i, j | 0 <= i < j < |files| :: files[i].path != files[j].path
  }

  ghost predicate FilesFit(files: seq<FileScan>) {
    forall f | f in files && f.text.Some? :: Fits(f.matches, |f.text.value|)
  }

  lemma {:induction false} HitLinesGrow(f: FileScan)
    requires f.text.Some? ==> Fits(f.matches, |f.text.value|)
    ensures LinesGrow(HitsOf(f))
  {
    if f.text.Some? {
      var hits := HitsOf(f);
      forall i, j | 0 <= i < j < |hits| ensures hits[i].line <= hits[j].line {
        LinesDoNotGoBack(f.text.value, f.matches, i, j);
      }
    }
  }

  lemma {:induction false} JoinInOrder(a: seq<Candidate>, b: seq<Candidate>)
    requires InOrder(Sites(a)) && InOrder(Sites(b))
    requires forall i, j | 0 <= i < |a| && 0 <= j < |b| :: FileOf(a[i]) != FileOf(b[j])
    ensures InOrder(Sites(a + b))
  {
    var s := Sites(a + b);
    forall i, j | 0 <= i < j < |s| && s[i].file == s[j].file ensures s[i].line <= s[j].line {
      if j < |a| {
        assert s[i] == Sites(a)[i] && s[j] == Sites(a)[j];
      } else {
        assert s[j] == Sites(b)[j - |a|];
        assert i >= |a|;
        assert s[i] == Sites(b)[i - |a|];
      }
    }
  }

  lemma {:induction false} FromFileOrigin(d: Detector, f: FileScan)
    requires f.text.Some? ==> Fits(f.matches, |f.text.value|)
    ensures forall c | c in FromFile(d, f) :: FileOf(c) == f.path && c.detectorId == d.id
  {
    HitLinesGrow(f);
    FromHitsInOrder(d, f.path, HitsOf(f));
  }

  /** A candidate carries the detector's id and the path of one of the files. */
  lemma {:induction false} CandidateOrigin(d: Detector, files: seq<FileScan>, i: nat) returns (k: nat)
    requires FilesFit(files) && i < |Collected(d, files)|
    ensures k < |files| && FileOf(Collected(d, files)[i]) == files[k].path && Collected(d, files)[i].detectorId == d.id
    decreases |files|
  {
    var a, rest := FromFile(d, files[0]), Collected(d, files[1..]);
    if i < |a| {
      FromFileOrigin(d, files[0]);
      assert Collected(d, files)[i] == a[i] && a[i] in a;
      k := 0;
    } else {
      assert Collected(d, files)[i] == rest[i - |a|];
      k := CandidateOrigin(d, files[1..], i - |a|);
      k := k + 1;
    }
  }

  /** The run emits in source order: files one after another, lines going forward in each. */
  lemma {:induction false} RunIsInOrder(d: Detector, files: seq<FileScan>)
    requires DistinctPaths(files) && FilesFit(files)
    ensures InOrder(Sites(Collected(d, files)))
    decreases |files|
  {
    if files != [] && !StopsAt(files[0]) {
      var a, b := FromFile(d, files[0]), Collected(d, files[1..]);
      HitLinesGrow(files[0]);
      FromHitsInOrder(d, files[0].path, HitsOf(files[0]));
      RunIsInOrder(d, files[1..]);
      forall j | 0 <= j < |b| ensures FileOf(b[j]) != files[0].path {
        var k := CandidateOrigin(d, files[1..], j);
        assert files[1..][k] == files[k + 1];
      }
      JoinInOrder(a, b);
    }
  }

  /**
   * A detector with a window reports as many candidates as any choice of its emitted ones could hold
   * whose same-file lines are more than the window apart.
   */
  lemma {:induction false} DetectorReportIsOptimal(d: Detector, files: seq<FileScan>, w: nat, choice: set<nat>)
    requires DistinctPaths(files) && FilesFit(files) && Window(d.id) == Some(w)
    requires Spread(Sites(Collected(d, files)), w, choice)
    ensures |choice| <= |Filter(Collected(d, files))|
  {
    RunIsInOrder(d, files);
    forall i | 0 <= i < |Collected(d, files)| ensures Collected(d, files)[i].detectorId == d.id {
      var k := CandidateOrigin(d, files, i);
    }
    FilterIsOptimal(Collected(d, files), w, choice);
  }

  // ---------------------------------------------------------------- running out of time only cuts

  function Untimed(files: seq<FileScan>): (r: seq<FileScan>)
    ensures |r| == |files|
  {
    seq(|files|, i requires 0 <= i < |files| => files[i].(timedOut := false))
  }

  lemma {:induction false} TimeoutCutsCollection(d: Detector, files: seq<FileScan>)
    ensures Collected(d, files) <= Collected(d, Untimed(files))
    decreases |files|
  {
    if files != [] && !StopsAt(files[0]) {
      TimeoutCutsCollection(d, files[1..]);
      assert Untimed(files)[1..] == Untimed(files[1..]);
      assert HitsOf(Untimed(files)[0]) == HitsOf(files[0]);
    }
  }

  lemma {:induction false} FilterPrefix(a: seq<Candidate>, b: seq<Candidate>, last: map<string, int>)
    requires a <= b
    ensures FilterFrom(a, last) <= FilterFrom(b, last)
    decreases |a|
  {
    if a != [] {
      assert a[1..] <= b[1..] && a[0] == b[0];
      FilterPrefix(a[1..], b[1..], last);
      FilterPrefix(a[1..], b[1..], last[FileOf(a[0]) := LineOf(a[0])]);
    }
  }

  /** The report of a run that ran out of time is a beginning of the full report. */
  lemma {:induction false} TimeoutCutsReport(d: Detector, files: seq<FileScan>)
    ensures Filter(Collected(d, files)) <= Filter(Collected(d, Untimed(files)))
  {
    TimeoutCutsCollection(d, files);
    FilterPrefix(Collected(d, files), Collected(d, Untimed(files)), map[]);
  }

  // ---------------------------------------------------------------- every accepted hit is collected

  /** The candidate an accepted hit makes. */
  ghost predicate MadeBy(d: Detector, path: string, line: int, c: Candidate) {
    var more := d.judge(path, line);
    && more.Some? && c.id == d.makeId(path, line) && c.detectorId == d.id
    && c.evidence == [Evidence("trigger", path, line)] + more.value
  }

  ghost predicate FromHit(d: Detector, path: string, hits: seq<Hit>, c: Candidate) {
    exists j | 0 <= j < |hits| :: MadeBy(d, path, hits[j].line, c)
  }

  lemma {:induction false} FromHitsMeans(d: Detector, path: string, hits: seq<Hit>, c: Candidate)
    ensures c in FromHits(d, path, hits) <==> FromHit(d, path, hits, c)
  {
    if hits != [] {
      var rest := hits[1..];
      FromHitsMeans(d, path, rest, c);
      assert c in Emitted(d, path, hits[0].line) <==> MadeBy(d, path, hits[0].line, c);
      if j :| 0 <= j < |hits| && MadeBy(d, path, hits[j].line, c) {
        if j > 0 { assert hits[j] == rest[j - 1]; }
      }
      if j :| 0 <= j < |rest| && MadeBy(d, path, rest[j].line, c) { assert rest[j] == hits[j + 1]; }
    }
  }

  function Accepted(d: Detector, path: string, hits: seq<Hit>): nat {
    if hits == [] then 0 else (if d.judge(path, hits[0].line).Some? then 1 else 0) + Accepted(d, path, hits[1..])
  }

  lemma {:induction false} OneForEachAccepted(d: Detector, path: string, hits: seq<Hit>)
    ensures |FromHits(d, path, hits)| == Accepted(d, path, hits)
  {
    if hits != [] { OneForEachAccepted(d, path, hits[1..]); }
  }

  /** A hit of a readable file, none of the files up to it having run out of time. */
  ghost predicate Reached(d: Detector, files: seq<FileScan>, i: nat, c: Candidate) {
    && i < |files| && files[i].text.Some? && (forall k | 0 <= k <= i :: !(files[k].text.Some? && files[k].timedOut))
    && FromHit(d, files[i].path, Ahead(files[i].text.value, files[i].matches, 0), c)
  }

  lemma {:induction false} ReachedCons(d: Detector, f: FileScan, rest: seq<FileScan>, c: Candidate)
    requires !StopsAt(f)
    ensures (exists i: nat :: Reached(d, [f] + rest, i, c)) <==>
            (f.text.Some? && FromHit(d, f.path, HitsOf(f), c)) || exists i: nat :: Reached(d, rest, i, c)
  {
    var files := [f] + rest;
    if i: nat :| Reached(d, files, i, c) {
      if i > 0 {
        assert forall k | 0 <= k <= i - 1 :: rest[k] == files[k + 1];
        assert Reached(d, rest, i - 1, c);
      }
    }
    if f.text.Some? && FromHit(d, f.path, HitsOf(f), c) { assert Reached(d, files, 0, c); }
    if i: nat :| Reached(d, rest, i, c) {
      assert forall k | 0 < k <= i + 1 :: files[k] == rest[k - 1];
      assert Reached(d, files, i + 1, c);
    }
  }

  /**
   * Every hit the family accepts, in the files before one that runs out of time, becomes a candidate, and nothing
   * else does.
   */
  lemma {:induction false} CollectedMeans(d: Detector, files: seq<FileScan>, c: Candidate)
    ensures c in Collected(d, files) <==> exists i: nat :: Reached(d, files, i, c)
    decreases |files|
  {
    if files != [] {
      var f, rest := files[0], files[1..];
      assert files == [f] + rest;
      CollectedMeans(d, rest, c);
      FromHitsMeans(d, f.path, HitsOf(f), c);
      if StopsAt(f) {
        assert forall i: nat :: !Reached(d, files, i, c);
      } else {
        ReachedCons(d, f, rest, c);
      }
    }
  }
}
