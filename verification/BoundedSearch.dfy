/** The pattern search with a time budget, and its line and column lookup. */
module BoundedSearch {
  import opened Options
  import Sequences

  /** A pattern on a fixed text: the length of its match at each position, the end included, if it matches there. */
  type Pattern = seq<Option<nat>>

  datatype Span = Span(index: nat, length: nat)

  datatype Hit = Hit(index: nat, match': string, line: nat, column: nat)

  datatype SearchResult = SearchResult(hits: seq<Hit>, timedOut: bool)

  ghost predicate Fits(p: Pattern, size: nat) {
    |p| == size + 1 && forall i | 0 <= i <= size && p[i].Some? :: i + p[i].value <= size
  }

  function End(s: Span): nat {
    s.index + s.length
  }

  /** The length of a non-empty match at a position, or zero. */
  function Width(p: Pattern, i: nat): nat {
    if i < |p| && p[i].Some? then p[i].value else 0
  }

  // ---------------------------------------------------------------- lines

  function Newlines(s: string): nat {
    if s == [] then 0 else Newlines(s[..|s| - 1]) + (if s[|s| - 1] == '\n' then 1 else 0)
  }

  /** Where the line begins that a text ends in. */
  function LineStart(s: string): (r: nat)
    ensures r <= |s|
  {
    if s == [] then 0 else if s[|s| - 1] == '\n' then |s| else LineStart(s[..|s| - 1])
  }

  function Starts(s: string): (r: seq<nat>)
    ensures |r| == Newlines(s) + 1
    ensures r[|r| - 1] == LineStart(s)
  {
    if s == [] then [0]
    else if s[|s| - 1] == '\n' then Starts(s[..|s| - 1]) + [|s|]
    else Starts(s[..|s| - 1])
  }

  /** The starts up to a position are the starts of the text up to there; all others lie beyond it. */
  lemma {:induction false} StartsUpTo(text: string, index: nat)
    requires index <= |text|
    ensures Newlines(text[..index]) <= Newlines(text)
    ensures Starts(text[..index]) == Starts(text)[..Newlines(text[..index]) + 1]
    ensures forall k | Newlines(text[..index]) < k < |Starts(text)| :: Starts(text)[k] > index
    ensures forall k | 0 <= k <= Newlines(text[..index]) :: Starts(text)[k] <= index
    decreases |text|
  {
    if index < |text| {
      var shorter := text[..|text| - 1];
      StartsUpTo(shorter, index);
      assert shorter[..index] == text[..index];
    } else {
      assert text[..index] == text;
      StartsBounded(text);
    }
  }

  lemma {:induction false} StartsBounded(s: string)
    ensures forall k | 0 <= k < |Starts(s)| :: Starts(s)[k] <= |s|
  {
    if s != [] { StartsBounded(s[..|s| - 1]); }
  }

  method LineStarts(text: string) returns (starts: seq<nat>)
    ensures starts == Starts(text)
  {
    starts := [0];
    for i := 0 to |text|
      invariant starts == Starts(text[..i])
    {
      assert text[..i + 1][..i] == text[..i];
      if text[i] == '\n' { starts := starts + [i + 1]; }
    }
    assert text[..|text|] == text;
  }

  /** Binary search: the line is one plus the newlines before, the column counts from the last line start. */
  method Locate(text: string, starts: seq<nat>, index: nat) returns (line: nat, column: nat)
    requires starts == Starts(text) && index <= |text|
    ensures line == Newlines(text[..index]) + 1
    ensures column == index - LineStart(text[..index]) + 1
  {
    var lo, hi := 0, |starts| - 1;
    ghost var target := Newlines(text[..index]);
    StartsUpTo(text, index);
    while lo < hi
      invariant 0 <= lo <= target <= hi < |starts|
    {
      var mid := (lo + hi + 1) / 2;
      if starts[mid] <= index {
        lo := mid;
      } else {
        hi := mid - 1;
      }
    }
    assert starts[lo] == Starts(text[..index])[lo];
    line, column := lo + 1, index - starts[lo] + 1;
  }

  // ---------------------------------------------------------------- the naive scan

  /** One position at a time: take a non-empty match and jump behind it, or move on by one. */
  function Naive(p: Pattern, pos: nat): seq<Span>
    decreases |p| - pos
  {
    if pos >= |p| then []
    else if Width(p, pos) > 0 then [Span(pos, Width(p, pos))] + Naive(p, pos + Width(p, pos))
    else Naive(p, pos + 1)
  }

  /** The engine's search: the first position at or after `pos` where the pattern matches. */
  function Exec(p: Pattern, pos: nat): (r: Option<nat>)
    ensures r.Some? ==> pos <= r.value < |p| && p[r.value].Some?
    ensures forall i | pos <= i < |p| && (r.None? || i < r.value) :: p[i].None?
    decreases |p| - pos
  {
    if pos >= |p| then None else if p[pos].Some? then Some(pos) else Exec(p, pos + 1)
  }

  lemma {:induction false} SkipNoMatch(p: Pattern, pos: nat, next: nat)
    requires pos <= next <= |p|
    requires forall i: nat | pos <= i < next :: Width(p, i) == 0
    ensures Naive(p, pos) == Naive(p, next)
    decreases |p| - pos
  {
    if pos < next { SkipNoMatch(p, pos + 1, next); }
  }

  /** One round of the search: nothing ahead, a zero-width match to step over, or the next span. */
  lemma {:induction false} Round(p: Pattern, pos: nat)
    requires pos < |p|
    ensures match Exec(p, pos)
            case None => Naive(p, pos) == []
            case Some(i) =>
              var n := p[i].value;
              if n == 0 then Naive(p, pos) == Naive(p, pos + 1)
              else Naive(p, pos) == [Span(i, n)] + Naive(p, i + n)
  {
    match Exec(p, pos)
    case None => SkipNoMatch(p, pos, |p|);
    case Some(i) =>
      if p[i].value == 0 { SkipNoMatch(p, pos, pos + 1); } else { SkipNoMatch(p, pos, i); }
  }

  /** A span as it is reported: the matched text, its line and its column. */
  function Report(text: string, s: Span): Hit {
    var from := if s.index <= |text| then s.index else |text|;
    var end := if s.index + s.length <= |text| then s.index + s.length else |text|;
    Hit(s.index, text[from..end], Newlines(text[..from]) + 1, from - LineStart(text[..from]) + 1)
  }

  function Reports(text: string, spans: seq<Span>): (r: seq<Hit>)
    ensures |r| == |spans|
  {
    seq(|spans|, i requires 0 <= i < |spans| => Report(text, spans[i]))
  }

  function FirstLate(n: nat, late: nat -> bool, k: nat): (r: Option<nat>)
    ensures r.Some? ==> k <= r.value < n && late(r.value)
    ensures forall i: nat | k <= i < n && (r.None? || i < r.value) :: !late(i)
    decreases n - k
  {
    if k >= n then None else if late(k) then Some(k) else FirstLate(n, late, k + 1)
  }

  /** All hits, cut behind the first late one. */
  function Cut(all: seq<Hit>, late: nat -> bool): SearchResult {
    match FirstLate(|all|, late, 0)
    case None => SearchResult(all, false)
    case Some(k) => SearchResult(all[..k + 1], true)
  }

  /** Running out of time never hides that there is a hit, nor which one is first. */
  lemma {:induction false} FirstHitSurvives(all: seq<Hit>, late: nat -> bool)
    ensures Cut(all, late).hits <= all
    ensures Cut(all, late).hits == [] <==> all == []
    ensures all != [] ==> Cut(all, late).hits[0] == all[0]
    ensures !Cut(all, late).timedOut ==> Cut(all, late).hits == all
  {
  }

  lemma {:induction false} CutHere(all: seq<Hit>, late: nat -> bool, k: nat)
    requires k < |all| && late(k) && forall i: nat | i < k :: !late(i)
    ensures Cut(all, late) == SearchResult(all[..k + 1], true)
  {
  }

  method Found(text: string, lineStarts: seq<nat>, index: nat, length: nat) returns (hit: Hit)
    requires lineStarts == Starts(text) && index + length <= |text|
    ensures hit == Report(text, Span(index, length))
  {
    var line, column := Locate(text, lineStarts, index);
    hit := Hit(index, text[index..index + length], line, column);
  }

  /** The hits the naive scan reports from a position on. */
  function Ahead(text: string, p: Pattern, pos: nat): seq<Hit> {
    Reports(text, Naive(p, pos))
  }

  lemma {:induction false} ReportsNext(text: string, s: Span, rest: seq<Span>)
    ensures Reports(text, [s] + rest) == [Report(text, s)] + Reports(text, rest)
  {
  }

  lemma {:induction false} RoundAhead(text: string, p: Pattern, pos: nat)
    requires pos < |p|
    ensures match Exec(p, pos)
            case None => Ahead(text, p, pos) == []
            case Some(i) =>
              var n := p[i].value;
              if n == 0 then Ahead(text, p, pos) == Ahead(text, p, pos + 1)
              else Ahead(text, p, pos) == [Report(text, Span(i, n))] + Ahead(text, p, i + n)
  {
    Round(p, pos);
    match Exec(p, pos)
    case None =>
    case Some(i) =>
      if p[i].value > 0 { ReportsNext(text, Span(i, p[i].value), Naive(p, i + p[i].value)); }
  }

  /** What one round of the search does: stop, step over a zero-width match, or take a hit and jump behind it. */
  datatype Turn = Stop | Over | Take(hit: Hit, next: nat)

  method NextTurn(text: string, p: Pattern, lineStarts: seq<nat>, pos: nat) returns (t: Turn)
    requires Fits(p, |text|) && pos <= |text| && lineStarts == Starts(text)
    ensures t.Stop? ==> Ahead(text, p, pos) == []
    ensures t.Over? ==> Ahead(text, p, pos) == Ahead(text, p, pos + 1)
    ensures t.Take? ==> pos < t.next <= |text| && Ahead(text, p, pos) == [t.hit] + Ahead(text, p, t.next)
  {
    RoundAhead(text, p, pos);
    var m := Exec(p, pos);
    if m.None? { return Stop; }
    var index, length := m.value, p[m.value].value;
    if length == 0 { return Over; }
    var hit := Found(text, lineStarts, index, length);
    return Take(hit, index + length);
  }

  lemma {:induction false} CutBehind(all: seq<Hit>, hits: seq<Hit>, rest: seq<Hit>, late: nat -> bool)
    requires all == hits + rest && hits != [] && late(|hits| - 1) && forall k: nat | k < |hits| - 1 :: !late(k)
    ensures Cut(all, late) == SearchResult(hits, true)
  {
    CutHere(all, late, |hits| - 1);
    assert all[..|hits|] == hits;
  }

  /**
   * The bounded search. `late(k)` says whether the budget is used up after hit number `k`.
   * The hits are those of the naive scan, cut after the first late one.
   */
  method SearchBounded(text: string, p: Pattern, late: nat -> bool) returns (r: SearchResult)
    requires Fits(p, |text|)
    ensures r == Cut(Ahead(text, p, 0), late)
  {
    if |text| == 0 {
      SkipNoMatch(p, 0, 1);
      return SearchResult([], false);
    }
    var lineStarts := LineStarts(text);
    var hits: seq<Hit> := [];
    var pos := 0;
    ghost var all := Ahead(text, p, 0);
    while pos <= |text|
      invariant all == hits + Ahead(text, p, pos)
      invariant forall k: nat | k < |hits| :: !late(k)
      decreases |text| + 1 - pos
    {
      var turn := NextTurn(text, p, lineStarts, pos);
      match turn
      case Stop => break;
      case Over => pos := pos + 1;
      case Take(hit, next) =>
        Sequences.Assoc(hits, [hit], Ahead(text, p, next));
        hits := hits + [hit];
        pos := next;
        if late(|hits| - 1) {
          CutBehind(all, hits, Ahead(text, p, pos), late);
          return SearchResult(hits, true);
        }
    }
    NeverLate(hits, late);
    return SearchResult(hits, false);
  }

  lemma {:induction false} NeverLate(hits: seq<Hit>, late: nat -> bool)
    requires forall k: nat | k < |hits| :: !late(k)
    ensures Cut(hits, late) == SearchResult(hits, false)
  {
  }

  // ---------------------------------------------------------------- leftmost, non-empty, non-overlapping

  predicate Covers(s: Span, x: nat) {
    s.index <= x < End(s)
  }

  ghost predicate Real(p: Pattern, pos: nat, spans: seq<Span>) {
    forall i | 0 <= i < |spans| :: pos <= spans[i].index && 0 < spans[i].length == Width(p, spans[i].index)
  }

  ghost predicate Apart(spans: seq<Span>) {
    forall i, j | 0 <= i < j < |spans| :: End(spans[i]) <= spans[j].index
  }

  ghost predicate Covered(spans: seq<Span>, x: nat) {
    exists i | 0 <= i < |spans| :: Covers(spans[i], x)
  }

  ghost predicate CoversMatches(p: Pattern, pos: nat, spans: seq<Span>) {
    forall x: nat {:trigger Covered(spans, x)} | pos <= x && Width(p, x) > 0 :: Covered(spans, x)
  }

  /** Real matches in order, none overlapping, and no non-empty match starting outside all of them. */
  ghost predicate Greedy(p: Pattern, pos: nat, spans: seq<Span>) {
    && Real(p, pos, spans) && Apart(spans)
    && CoversMatches(p, pos, spans)
  }

  lemma {:induction false} CoveredTail(spans: seq<Span>, x: nat)
    requires spans != []
    ensures Covered(spans, x) <==> Covers(spans[0], x) || Covered(spans[1..], x)
  {
    if i :| 0 <= i < |spans| && Covers(spans[i], x) {
      if i > 0 { assert spans[1..][i - 1] == spans[i]; }
    }
    if i :| 0 <= i < |spans| - 1 && Covers(spans[1..][i], x) { assert spans[i + 1] == spans[1..][i]; }
  }

  lemma {:induction false} RealCons(p: Pattern, pos: nat, first: Span, rest: seq<Span>)
    requires pos <= first.index && 0 < first.length == Width(p, first.index) && Real(p, End(first), rest)
    ensures Real(p, pos, [first] + rest)
  {
    var spans := [first] + rest;
    forall i | 0 <= i < |spans| ensures pos <= spans[i].index && 0 < spans[i].length == Width(p, spans[i].index) {
      if i > 0 { assert spans[i] == rest[i - 1]; }
    }
  }

  lemma {:induction false} ApartCons(first: Span, rest: seq<Span>)
    requires Apart(rest) && forall i | 0 <= i < |rest| :: End(first) <= rest[i].index
    ensures Apart([first] + rest)
  {
    var spans := [first] + rest;
    forall i, j | 0 <= i < j < |spans| ensures End(spans[i]) <= spans[j].index {
      assert spans[j] == rest[j - 1];
      if i > 0 { assert spans[i] == rest[i - 1]; }
    }
  }

  lemma {:induction false} CoversCons(p: Pattern, pos: nat, first: Span, rest: seq<Span>)
    requires first.index == pos && CoversMatches(p, End(first), rest)
    ensures CoversMatches(p, pos, [first] + rest)
  {
    var spans := [first] + rest;
    assert spans[1..] == rest;
    forall x: nat | pos <= x && Width(p, x) > 0 ensures Covered(spans, x) {
      CoveredTail(spans, x);
      assert x >= End(first) ==> Covered(rest, x);
    }
  }

  /** The naive scan has the property. */
  lemma {:induction false} NaiveIsGreedy(p: Pattern, pos: nat)
    ensures Greedy(p, pos, Naive(p, pos))
    decreases |p| - pos
  {
    NaiveStep(p, pos);
    if pos < |p| && Width(p, pos) > 0 {
      var first := Span(pos, Width(p, pos));
      var rest := Naive(p, End(first));
      NaiveIsGreedy(p, End(first));
      RealCons(p, pos, first, rest);
      ApartCons(first, rest);
      CoversCons(p, pos, first, rest);
    } else if pos < |p| {
      NaiveIsGreedy(p, pos + 1);
    }
  }

  lemma {:induction false} GreedyHead(p: Pattern, pos: nat, spans: seq<Span>)
    requires Greedy(p, pos, spans) && Width(p, pos) > 0
    ensures spans != [] && spans[0] == Span(pos, Width(p, pos))
  {
    assert Covered(spans, pos);
    forall j | 0 < j < |spans| ensures !Covers(spans[j], pos) {
      assert pos < End(spans[0]) <= spans[j].index;
    }
  }

  lemma {:induction false} ApartTail(spans: seq<Span>)
    requires Apart(spans) && spans != []
    ensures Apart(spans[1..]) && forall k | 0 <= k < |spans| - 1 :: End(spans[0]) <= spans[1..][k].index
  {
    var rest := spans[1..];
    forall k | 0 <= k < |rest| ensures rest[k] == spans[k + 1] && End(spans[0]) <= rest[k].index { }
  }

  lemma {:induction false} RealTail(p: Pattern, pos: nat, spans: seq<Span>, next: nat)
    requires Real(p, pos, spans) && spans != []
    requires forall k | 0 <= k < |spans| - 1 :: next <= spans[1..][k].index
    ensures Real(p, next, spans[1..])
  {
    var rest := spans[1..];
    forall k | 0 <= k < |rest|
      ensures next <= rest[k].index && 0 < rest[k].length == Width(p, rest[k].index)
    {
      assert rest[k] == spans[k + 1];
    }
  }

  /** Behind its first match a greedy list is greedy again. */
  lemma {:induction false} GreedyTail(p: Pattern, pos: nat, spans: seq<Span>)
    requires Greedy(p, pos, spans) && Width(p, pos) > 0
    ensures spans != [] && spans[0] == Span(pos, Width(p, pos))
    ensures Greedy(p, pos + Width(p, pos), spans[1..])
  {
    var next := pos + Width(p, pos);
    GreedyHead(p, pos, spans);
    ApartTail(spans);
    RealTail(p, pos, spans, next);
    forall x: nat | next <= x && Width(p, x) > 0 ensures Covered(spans[1..], x) {
      assert Covered(spans, x);
      CoveredTail(spans, x);
    }
  }

  lemma {:induction false} GreedyPass(p: Pattern, pos: nat, spans: seq<Span>)
    requires Greedy(p, pos, spans) && Width(p, pos) == 0
    ensures Greedy(p, pos + 1, spans)
  {
    forall i | 0 <= i < |spans| ensures pos + 1 <= spans[i].index { assert spans[i].index != pos; }
  }

  lemma {:induction false} GreedyEnd(p: Pattern, pos: nat, spans: seq<Span>)
    requires pos >= |p|
    ensures spans == [] || !Real(p, pos, spans)
  {
    if |spans| > 0 {
      var first := spans[0];
      assert first.index < pos || Width(p, first.index) == 0;
    }
  }

  lemma {:induction false} NaiveStep(p: Pattern, pos: nat)
    ensures Naive(p, pos) ==
            if pos >= |p| then []
            else if Width(p, pos) > 0 then [Span(pos, Width(p, pos))] + Naive(p, pos + Width(p, pos))
            else Naive(p, pos + 1)
  {
  }

  /** The naive scan finds exactly the leftmost non-overlapping matches: nothing else has that property. */
  lemma {:induction false} OnlyNaiveIsGreedy(p: Pattern, pos: nat, spans: seq<Span>)
    requires Greedy(p, pos, spans)
    ensures spans == Naive(p, pos)
    decreases |p| - pos
  {
    NaiveStep(p, pos);
    if pos >= |p| {
      GreedyEnd(p, pos, spans);
    } else if Width(p, pos) > 0 {
      GreedyTail(p, pos, spans);
      OnlyNaiveIsGreedy(p, pos + Width(p, pos), spans[1..]);
      assert spans == [spans[0]] + spans[1..];
    } else {
      GreedyPass(p, pos, spans);
      OnlyNaiveIsGreedy(p, pos + 1, spans);
    }
  }

  lemma {:induction false} NewlinesGrow(text: string, i: nat, j: nat)
    requires i <= j <= |text|
    ensures Newlines(text[..i]) <= Newlines(text[..j])
  {
    StartsUpTo(text[..j], i);
    assert text[..j][..i] == text[..i];
  }

  /** Reported lines never go back, and reported positions go forward. */
  lemma {:induction false} LinesDoNotGoBack(text: string, p: Pattern, i: nat, j: nat)
    requires Fits(p, |text|) && i < j < |Naive(p, 0)|
    ensures var hits := Ahead(text, p, 0); hits[i].line <= hits[j].line && hits[i].index < hits[j].index
  {
    var spans := Naive(p, 0);
    NaiveIsGreedy(p, 0);
    assert End(spans[i]) <= spans[j].index < |p|;
    NewlinesGrow(text, spans[i].index, spans[j].index);
  }
}
