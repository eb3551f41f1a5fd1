/** Candidates of one optimization detector, and the proximity filter over them. */
module Proximity {
  import opened Options

  datatype Evidence = Evidence(role: string, file: string, line: int)

  datatype Candidate = Candidate(id: string, detectorId: string, evidence: seq<Evidence>)

  const TRIGGER: string := "trigger"
  const COLLECTION_WORK: string := "avoidable_collection_work"
  const CACHE: string := "cache_opportunity"

  function Window(detectorId: string): Option<nat> {
    if detectorId == COLLECTION_WORK then Some(2) else if detectorId == CACHE then Some(8) else None
  }

  function TriggerOf(evidence: seq<Evidence>): Option<Evidence> {
    if evidence == [] then None
    else if evidence[0].role == TRIGGER then Some(evidence[0])
    else TriggerOf(evidence[1..])
  }

  function FileOf(c: Candidate): string {
    match TriggerOf(c.evidence) case Some(e) => e.file case None => ""
  }

  function LineOf(c: Candidate): int {
    match TriggerOf(c.evidence) case Some(e) => e.line case None => 0
  }

  // ---------------------------------------------------------------- the filter

  /** A file without an entry has had no hit; every line is far from it. */
  predicate Far(last: map<string, int>, file: string, line: int, window: nat) {
    file !in last || line - last[file] > window
  }

  method DeduplicateCandidates(candidates: seq<Candidate>) returns (kept: seq<Candidate>)
    ensures kept == Filter(candidates)
  {
    kept := [];
    var lastByFile: map<string, int> := map[];
    assert candidates[0..] == candidates;
    for i := 0 to |candidates|
      invariant Filter(candidates) == kept + FilterFrom(candidates[i..], lastByFile)
    {
      var candidate := candidates[i];
      assert candidates[i..][1..] == candidates[i + 1..];
      var window := Window(candidate.detectorId);
      ghost var rest := FilterFrom(candidates[i + 1..], lastByFile);
      if window.None? {
        assert kept + ([candidate] + rest) == kept + [candidate] + rest;
        kept := kept + [candidate];
        continue;
      }
      var file, line := FileOf(candidate), LineOf(candidate);
      if Far(lastByFile, file, line, window.value) {
        ghost var rest' := FilterFrom(candidates[i + 1..], lastByFile[file := line]);
        assert kept + ([candidate] + rest') == kept + [candidate] + rest';
        kept := kept + [candidate];
        lastByFile := lastByFile[file := line];
      }
    }
  }

  function FilterFrom(cs: seq<Candidate>, last: map<string, int>): seq<Candidate> {
    if cs == [] then []
    else
      var w := Window(cs[0].detectorId);
      if w.None? then [cs[0]] + FilterFrom(cs[1..], last)
      else if Far(last, FileOf(cs[0]), LineOf(cs[0]), w.value) then
        [cs[0]] + FilterFrom(cs[1..], last[FileOf(cs[0]) := LineOf(cs[0])])
      else FilterFrom(cs[1..], last)
  }

  function Filter(cs: seq<Candidate>): seq<Candidate> {
    FilterFrom(cs, map[])
  }

  // ---------------------------------------------------------------- which positions are kept

  /** Files and lines are all the filter looks at. */
  datatype Site = Site(file: string, line: int)

  function Sites(cs: seq<Candidate>): (r: seq<Site>)
    ensures |r| == |cs|
  {
    seq(|cs|, i requires 0 <= i < |cs| => Site(FileOf(cs[i]), LineOf(cs[i])))
  }

  /** The last kept line of each file before position `n`, and whether each position before it is kept. */
  function Last(sites: seq<Site>, w: nat, n: nat): map<string, int>
    requires n <= |sites|
    decreases n, 0
  {
    if n == 0 then map[]
    else if Keeps(sites, w, n - 1) then Last(sites, w, n - 1)[sites[n - 1].file := sites[n - 1].line]
    else Last(sites, w, n - 1)
  }

  predicate Keeps(sites: seq<Site>, w: nat, i: nat)
    requires i < |sites|
    decreases i, 1
  {
    Far(Last(sites, w, i), sites[i].file, sites[i].line, w)
  }

  /** The candidates at the kept positions, from position `i` on. */
  function KeptFrom(cs: seq<Candidate>, w: nat, i: nat): seq<Candidate>
    requires i <= |cs|
    decreases |cs| - i
  {
    if i == |cs| then []
    else if Keeps(Sites(cs), w, i) then [cs[i]] + KeptFrom(cs, w, i + 1)
    else KeptFrom(cs, w, i + 1)
  }

  ghost predicate OneDetector(cs: seq<Candidate>, w: nat) {
    forall i | 0 <= i < |cs| :: Window(cs[i].detectorId) == Some(w)
  }

  /** On one detector run the result is the subsequence of the kept positions. */
  lemma {:induction false} FilterKeepsPositions(cs: seq<Candidate>, w: nat, i: nat)
    requires OneDetector(cs, w) && i <= |cs|
    ensures FilterFrom(cs[i..], Last(Sites(cs), w, i)) == KeptFrom(cs, w, i)
    decreases |cs| - i
  {
    if i < |cs| {
      FilterKeepsPositions(cs, w, i + 1);
      assert cs[i..][1..] == cs[i + 1..];
    }
  }

  // ---------------------------------------------------------------- gaps and covers

  /** The last kept line of a file is the line of a kept position, the latest one there. */
  lemma {:induction false} LastIsKept(sites: seq<Site>, w: nat, n: nat, file: string) returns (k: nat)
    requires n <= |sites| && file in Last(sites, w, n)
    ensures k < n && Keeps(sites, w, k) && sites[k].file == file && sites[k].line == Last(sites, w, n)[file]
    ensures forall i | k < i < n && sites[i].file == file :: !Keeps(sites, w, i)
  {
    k := n - 1;
    if !(Keeps(sites, w, k) && sites[k].file == file) {
      k := LastIsKept(sites, w, n - 1, file);
    }
  }

  lemma {:induction false} KeptIsRecorded(sites: seq<Site>, w: nat, k: nat, n: nat)
    requires k < n <= |sites| && Keeps(sites, w, k)
    ensures sites[k].file in Last(sites, w, n) && Last(sites, w, n)[sites[k].file] >= sites[k].line
    decreases n
  {
    if k < n - 1 { KeptIsRecorded(sites, w, k, n - 1); }
  }

  /** Kept positions of one file are more than the window apart. */
  lemma {:induction false} KeptAreApart(sites: seq<Site>, w: nat, i: nat, j: nat)
    requires i < j < |sites| && sites[i].file == sites[j].file && Keeps(sites, w, i) && Keeps(sites, w, j)
    ensures sites[j].line - sites[i].line > w
  {
    KeptIsRecorded(sites, w, i, j);
  }

  /** Hits of one file come in line order. */
  ghost predicate InOrder(sites: seq<Site>) {
    forall i, j | 0 <= i < j < |sites| && sites[i].file == sites[j].file :: sites[i].line <= sites[j].line
  }

  /** Every position has a kept one at or before it, in its file and within the window. */
  lemma {:induction false} CoverOf(sites: seq<Site>, w: nat, j: nat) returns (k: nat)
    requires j < |sites| && InOrder(sites)
    ensures k <= j && Keeps(sites, w, k) && sites[k].file == sites[j].file
    ensures 0 <= sites[j].line - sites[k].line <= w
    ensures Keeps(sites, w, j) ==> k == j
  {
    if Keeps(sites, w, j) { k := j; } else { k := LastIsKept(sites, w, j, sites[j].file); }
  }

  // ---------------------------------------------------------------- no larger choice exists

  function KeptAfter(sites: seq<Site>, w: nat, from: nat): set<nat> {
    set i: nat | from <= i < |sites| && Keeps(sites, w, i)
  }

  function KeptSet(sites: seq<Site>, w: nat): set<nat> {
    KeptAfter(sites, w, 0)
  }

  /** Any choice of positions whose same-file lines are more than the window apart. */
  ghost predicate Spread(sites: seq<Site>, w: nat, choice: set<nat>) {
    && (forall i | i in choice :: i < |sites|)
    && forall i, j | i in choice && j in choice && i < j && sites[i].file == sites[j].file ::
         sites[j].line - sites[i].line > w
  }

  ghost predicate CoverOn(sites: seq<Site>, w: nat, choice: set<nat>, cover: map<nat, nat>) {
    && (forall s | s in choice :: s < |sites| && s in cover && cover[s] <= s && cover[s] in KeptSet(sites, w))
    && forall s | s in choice ::
         sites[cover[s]].file == sites[s].file && 0 <= sites[s].line - sites[cover[s]].line <= w
  }

  lemma {:induction false} Covering(sites: seq<Site>, w: nat, choice: set<nat>) returns (cover: map<nat, nat>)
    requires InOrder(sites) && forall i | i in choice :: i < |sites|
    ensures CoverOn(sites, w, choice, cover)
  {
    cover := map[];
    if choice != {} {
      var s :| s in choice;
      cover := Covering(sites, w, choice - {s});
      var k := CoverOf(sites, w, s);
      cover := cover[s := k];
    }
  }

  lemma {:induction false} InjectionSize(choice: set<nat>, cover: map<nat, nat>, into: set<nat>)
    requires forall s | s in choice :: s in cover && cover[s] in into
    requires forall s, t | s in choice && t in choice && s < t :: cover[s] != cover[t]
    ensures |choice| <= |into|
  {
    if choice != {} {
      var s :| s in choice;
      InjectionSize(choice - {s}, cover, into - {cover[s]});
    }
  }

  /** The greedy choice is optimal: it is a spread choice, and no spread choice is larger. */
  lemma {:induction false} GreedyIsOptimal(sites: seq<Site>, w: nat, choice: set<nat>)
    requires InOrder(sites) && Spread(sites, w, choice)
    ensures Spread(sites, w, KeptSet(sites, w)) && |choice| <= |KeptSet(sites, w)|
  {
    var kept := KeptSet(sites, w);
    forall i, j | i in kept && j in kept && i < j && sites[i].file == sites[j].file
      ensures sites[j].line - sites[i].line > w
    {
      KeptAreApart(sites, w, i, j);
    }
    var cover := Covering(sites, w, choice);
    forall s, t | s in choice && t in choice && s < t ensures cover[s] != cover[t] {
      if sites[s].file == sites[t].file { assert sites[t].line - sites[s].line > w; }
    }
    InjectionSize(choice, cover, kept);
  }

  function KeptCount(sites: seq<Site>, w: nat, i: nat): nat
    requires i <= |sites|
    decreases |sites| - i
  {
    if i == |sites| then 0 else (if Keeps(sites, w, i) then 1 else 0) + KeptCount(sites, w, i + 1)
  }

  lemma {:induction false} KeptSize(sites: seq<Site>, w: nat, i: nat)
    requires i <= |sites|
    ensures |KeptAfter(sites, w, i)| == KeptCount(sites, w, i)
    decreases |sites| - i
  {
    var here := KeptAfter(sites, w, i);
    if i < |sites| {
      KeptSize(sites, w, i + 1);
      var rest := KeptAfter(sites, w, i + 1);
      if Keeps(sites, w, i) {
        assert here == {i} + rest;
      } else {
        assert here == rest;
      }
    } else {
      assert here == {};
    }
  }

  lemma {:induction false} KeptLength(cs: seq<Candidate>, w: nat, i: nat)
    requires i <= |cs|
    ensures |KeptFrom(cs, w, i)| == KeptCount(Sites(cs), w, i)
    decreases |cs| - i
  {
    if i < |cs| { KeptLength(cs, w, i + 1); }
  }

  /** The filter's own result is as long as any spread choice of the candidates can be. */
  lemma {:induction false} FilterIsOptimal(cs: seq<Candidate>, w: nat, choice: set<nat>)
    requires OneDetector(cs, w) && InOrder(Sites(cs)) && Spread(Sites(cs), w, choice)
    ensures |choice| <= |Filter(cs)|
  {
    FilterKeepsPositions(cs, w, 0);
    assert cs[0..] == cs;
    GreedyIsOptimal(Sites(cs), w, choice);
    KeptSize(Sites(cs), w, 0);
    KeptLength(cs, w, 0);
  }

  // ---------------------------------------------------------------- filtering twice

  /** Nothing is dropped from a list whose same-file lines are more than the window apart. */
  lemma {:induction false} SpreadIsKept(cs: seq<Candidate>, w: nat, last: map<string, int>)
    requires OneDetector(cs, w)
    requires forall i, j | 0 <= i < j < |cs| && FileOf(cs[i]) == FileOf(cs[j]) :: LineOf(cs[j]) - LineOf(cs[i]) > w
    requires forall i | 0 <= i < |cs| :: Far(last, FileOf(cs[i]), LineOf(cs[i]), w)
    ensures FilterFrom(cs, last) == cs
    decreases |cs|
  {
    if cs != [] {
      SpreadIsKept(cs[1..], w, last[FileOf(cs[0]) := LineOf(cs[0])]);
      assert cs == [cs[0]] + cs[1..];
    }
  }

  lemma {:induction false} ResultIsSpread(cs: seq<Candidate>, w: nat, last: map<string, int>)
    requires OneDetector(cs, w)
    ensures var r := FilterFrom(cs, last);
            && OneDetector(r, w)
            && (forall i | 0 <= i < |r| :: Far(last, FileOf(r[i]), LineOf(r[i]), w))
            && forall i, j | 0 <= i < j < |r| && FileOf(r[i]) == FileOf(r[j]) :: LineOf(r[j]) - LineOf(r[i]) > w
    decreases |cs|
  {
    if cs != [] {
      var file, line := FileOf(cs[0]), LineOf(cs[0]);
      if Far(last, file, line, w) {
        ResultIsSpread(cs[1..], w, last[file := line]);
        var rest := FilterFrom(cs[1..], last[file := line]);
        var r := [cs[0]] + rest;
        forall i | 0 <= i < |r| ensures Far(last, FileOf(r[i]), LineOf(r[i]), w) {
          if i > 0 { assert Far(last[file := line], FileOf(rest[i - 1]), LineOf(rest[i - 1]), w); }
        }
        forall i, j | 0 <= i < j < |r| && FileOf(r[i]) == FileOf(r[j]) ensures LineOf(r[j]) - LineOf(r[i]) > w {
          assert r[j] == rest[j - 1] && Far(last[file := line], FileOf(rest[j - 1]), LineOf(rest[j - 1]), w);
          if i > 0 { assert r[i] == rest[i - 1]; }
        }
      } else {
        ResultIsSpread(cs[1..], w, last);
      }
    }
  }

  /** Filtering twice changes nothing, in any order of hits. */
  lemma {:induction false} FilterTwice(cs: seq<Candidate>, w: nat)
    requires OneDetector(cs, w)
    ensures Filter(Filter(cs)) == Filter(cs)
  {
    ResultIsSpread(cs, w, map[]);
    SpreadIsKept(Filter(cs), w, map[]);
  }

  /** Detectors without a window keep everything. */
  lemma {:induction false} NoWindowKeepsAll(cs: seq<Candidate>, last: map<string, int>)
    requires forall i | 0 <= i < |cs| :: Window(cs[i].detectorId).None?
    ensures FilterFrom(cs, last) == cs
    decreases |cs|
  {
    if cs != [] {
      NoWindowKeepsAll(cs[1..], last);
      assert cs == [cs[0]] + cs[1..];
    }
  }
}
