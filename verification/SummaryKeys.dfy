/** The changes a dashboard is built from: their keys are de-duplicated first and redacted afterwards. */
module SummaryKeys {
  import opened Options
  import opened Correlation
  import opened ChangeLanes
  import Lines
  import Sorting

  // ---------------------------------------------------------------- redaction

  const REDACTED: string := "[REDACTED]"
  const SECRET_WORDS: seq<string> := ["token", "authorization", "secret", "password"]
  const SECRET_PREFIXES: seq<string> := ["ghp_", "gho_", "ghu_", "ghs_", "ghr_", "github_pat_"]

  predicate IsWordChar(c: char) {
    'A' <= c <= 'Z' || 'a' <= c <= 'z' || '0' <= c <= '9' || c == '_'
  }

  function WordLength(s: string): (n: nat)
    ensures n <= |s| && (s != [] && IsWordChar(s[0]) ==> n > 0)
  {
    if s != [] && IsWordChar(s[0]) then 1 + WordLength(s[1..]) else 0
  }

  /** Both patterns match whole words only: a secret word in any case, or a prefix with more behind it. */
  predicate IsSecret(word: string) {
    Lines.Fold(word) in SECRET_WORDS || exists p | p in SECRET_PREFIXES :: p < word
  }

  function Redact(s: string): string
    decreases |s|
  {
    if s == [] then ""
    else if !IsWordChar(s[0]) then [s[0]] + Redact(s[1..])
    else
      var n := WordLength(s);
      (if IsSecret(s[..n]) then REDACTED else s[..n]) + Redact(s[n..])
  }

  function RedactAll(values: seq<string>): (r: seq<string>)
    ensures |r| == |values|
  {
    seq(|values|, i requires 0 <= i < |values| => Redact(values[i]))
  }

  // ---------------------------------------------------------------- the changes of a project

  /** One change of the project; its branches are trimmed and not blank. */
  datatype Summary = Summary(id: string, branches: seq<string>, card: Card)

  function ChangeOf(s: Summary): Change {
    Change(Redact(s.id), RedactAll(Sorting.Dedupe(s.branches)), [], None, s.card)
  }

  function ChangesOf(summaries: seq<Summary>): (r: seq<Change>)
    ensures |r| == |summaries|
  {
    seq(|summaries|, i requires 0 <= i < |summaries| => ChangeOf(summaries[i]))
  }

  /** Two different branches become the same text. */
  ghost predicate Merges(branches: seq<string>, v: string) {
    exists a, b :: a in branches && b in branches && a != b && Redact(a) == v && Redact(b) == v
  }

  lemma {:induction false} SeveralTimes(values: seq<string>, v: string)
    ensures Times(values, v) > 0 <==> v in values
    ensures Times(values, v) > 1 <==> exists i, j :: 0 <= i < j < |values| && values[i] == v && values[j] == v
    decreases |values|
  {
    if values != [] {
      var first, rest := values[0], values[1..];
      SeveralTimes(rest, v);
      assert values == [first] + rest;
      assert Times(values, v) == Times(rest, v) + if first == v then 1 else 0;
      if i, j :| 0 <= i < j < |rest| && rest[i] == v && rest[j] == v {
        assert values[i + 1] == v && values[j + 1] == v;
      }
      if first == v && v in rest {
        var j :| 0 <= j < |rest| && rest[j] == v;
        assert values[0] == v && values[j + 1] == v;
      }
      if i, j :| 0 <= i < j < |values| && values[i] == v && values[j] == v {
        assert rest[j - 1] == v && (i > 0 ==> rest[i - 1] == v);
      }
    }
  }

  lemma {:induction false} SeveralRedacted(branches: seq<string>, v: string)
    requires Sorting.Distinct(branches)
    ensures (exists i, j :: 0 <= i < j < |branches| && RedactAll(branches)[i] == v && RedactAll(branches)[j] == v) <==>
            Merges(branches, v)
  {
    var redacted := RedactAll(branches);
    if i, j :| 0 <= i < j < |redacted| && redacted[i] == v && redacted[j] == v {
      assert branches[i] in branches && branches[j] in branches;
    }
    if Merges(branches, v) {
      var a, b :| a in branches && b in branches && a != b && Redact(a) == v && Redact(b) == v;
      var i :| 0 <= i < |branches| && branches[i] == a;
      var j :| 0 <= j < |branches| && branches[j] == b;
      assert redacted[i] == v && redacted[j] == v;
    }
  }

  lemma {:induction false} OneSummary(s: Summary, v: string)
    ensures Times(Offers(ChangeOf(s), Branch), v) > 1 <==> Merges(s.branches, v)
  {
    var branches := Sorting.Dedupe(s.branches);
    Sorting.DedupeKeeps(s.branches);
    SeveralTimes(RedactAll(branches), v);
    SeveralRedacted(branches, v);
  }

  /** A branch clue is offered once by every change exactly when redaction merges no two branches of one into it. */
  lemma {:induction false} BranchesOfferedOnce(summaries: seq<Summary>, v: string)
    ensures OfferedOnce(ChangesOf(summaries), Evidence(Branch, v)) <==>
            forall i | 0 <= i < |summaries| :: !Merges(summaries[i].branches, v)
  {
    var changes, e := ChangesOf(summaries), Evidence(Branch, v);
    forall i | 0 <= i < |summaries|
      ensures Times(Offers(changes[i], e.key), e.value) <= 1 <==> !Merges(summaries[i].branches, v)
    {
      OneSummary(summaries[i], v);
    }
    if OfferedOnce(changes, e) {
      forall i | 0 <= i < |summaries| ensures !Merges(summaries[i].branches, v) {
        assert Times(Offers(changes[i], e.key), e.value) <= 1;
      }
    }
  }

  /** A project's changes offer branches only, so commits and operations keys are never listed. */
  lemma {:induction false} OnlyBranchesListed(summaries: seq<Summary>, e: Evidence)
    requires e.key != Branch
    ensures Listed(ChangesOf(summaries), e) == 0
  {
    NoIdMeansNoChange(ChangesOf(summaries), e);
  }

  /** The branch a read is known by, if any. */
  function BranchOf(t: Tagged): Option<string> {
    if t.kind == Ops then None else t.item.branch
  }

  lemma {:induction false} ReadListed(summaries: seq<Summary>, t: Tagged)
    ensures forall i | 0 <= i < |Clues(t)| && Clues(t)[i].key != Branch ::
            Listed(ChangesOf(summaries), Clues(t)[i]) == 0
    ensures forall i | 0 <= i < |Clues(t)| && Clues(t)[i].key == Branch :: BranchOf(t) == Some(Clues(t)[i].value)
    ensures BranchOf(t).Some? ==> Clues(t) != [] && Clues(t)[0] == Evidence(Branch, BranchOf(t).value)
  {
    forall i | 0 <= i < |Clues(t)| && Clues(t)[i].key != Branch ensures Listed(ChangesOf(summaries), Clues(t)[i]) == 0 {
      OnlyBranchesListed(summaries, Clues(t)[i]);
    }
  }

  /** How a read fares depends on its branch alone. */
  lemma {:induction false} BranchDecides(summaries: seq<Summary>, t: Tagged)
    ensures var n := if BranchOf(t).Some? then Listed(ChangesOf(summaries), Evidence(Branch, BranchOf(t).value)) else 0;
            var v := VerdictOf(ChangesOf(summaries), t);
            (v.Link? <==> n == 1) && (v.Miss? ==> (v.reason == AmbiguousMatch <==> n > 1))
  {
    var changes, clues := ChangesOf(summaries), Clues(t);
    ReadListed(summaries, t);
    MissMeans(changes, clues, false);
    if BranchOf(t).Some? { assert Listed(changes, clues[0]) == Listed(changes, Evidence(Branch, BranchOf(t).value)); }
  }

  /**
   * A read, whatever commit it carries, is linked if and only if it is known by a branch, exactly one change has a
   * branch of that redacted text, and no change has two. Otherwise it is ambiguous exactly when some change has one.
   */
  lemma {:induction false} ReadIsLinkedWhen(summaries: seq<Summary>, t: Tagged)
    ensures var verdict, v := VerdictOf(ChangesOf(summaries), t), BranchOf(t);
            && (verdict.Link? <==>
                  && v.Some? && Offering(ChangesOf(summaries), Evidence(Branch, v.value)) == 1
                  && forall i | 0 <= i < |summaries| :: !Merges(summaries[i].branches, v.value))
            && (verdict.Miss? ==>
                  (verdict.reason == AmbiguousMatch <==>
                     v.Some? && Offering(ChangesOf(summaries), Evidence(Branch, v.value)) > 0))
  {
    BranchDecides(summaries, t);
    if BranchOf(t).Some? {
      ListedCountsChanges(ChangesOf(summaries), Evidence(Branch, BranchOf(t).value));
      BranchesOfferedOnce(summaries, BranchOf(t).value);
    }
  }

  // ---------------------------------------------------------------- what redaction merges

  predicate IsWord(word: string) {
    word != [] && forall i | 0 <= i < |word| :: IsWordChar(word[i])
  }

  lemma {:induction false} AllWordChars(word: string)
    requires forall i | 0 <= i < |word| :: IsWordChar(word[i])
    ensures WordLength(word) == |word|
  {
    if word != [] { AllWordChars(word[1..]); }
  }

  lemma {:induction false} RedactWord(word: string)
    requires IsWord(word)
    ensures Redact(word) == if IsSecret(word) then REDACTED else word
  {
    AllWordChars(word);
    assert word[..|word|] == word && word[|word|..] == [];
  }

  lemma {:induction false} WordBefore(word: string, rest: string)
    requires forall i | 0 <= i < |word| :: IsWordChar(word[i])
    requires rest != [] && !IsWordChar(rest[0])
    ensures WordLength(word + rest) == |word|
  {
    if word == [] {
      assert word + rest == rest;
    } else {
      WordBefore(word[1..], rest);
      assert (word + rest)[1..] == word[1..] + rest;
    }
  }

  lemma {:induction false} RedactSeparator(c: char, rest: string)
    requires !IsWordChar(c)
    ensures Redact([c] + rest) == [c] + Redact(rest)
  {
    assert ([c] + rest)[1..] == rest;
  }

  /** A plain word, a separator and any rest. */
  lemma {:induction false} RedactAfterWord(first: string, c: char, rest: string)
    requires IsWord(first) && !IsSecret(first) && !IsWordChar(c)
    ensures Redact(first + [c] + rest) == first + [c] + Redact(rest)
  {
    var s, tail := first + [c] + rest, [c] + rest;
    assert s == first + tail;
    WordBefore(first, tail);
    assert s[..|first|] == first && s[|first|..] == tail;
    RedactSeparator(c, rest);
  }

  lemma {:induction false} RedactPair(first: string, word: string)
    requires IsWord(first) && !IsSecret(first) && IsWord(word) && IsSecret(word)
    ensures Redact(first + ['-'] + word) == first + ['-'] + REDACTED
  {
    RedactAfterWord(first, '-', word);
    RedactWord(word);
  }

  lemma {:induction false} TwoBranchesMerge(a: string, b: string)
    requires a != b && Redact(a) == Redact(b)
    ensures Merges([a, b], Redact(a))
  {
    var branches := [a, b];
    assert branches[0] in branches && branches[1] in branches;
  }

  lemma {:induction false} DifferBehind(first: string, word: string, other: string)
    requires word != other
    ensures first + ['-'] + word != first + ['-'] + other
  {
    assert (first + ['-'] + word)[|first| + 1..] == word && (first + ['-'] + other)[|first| + 1..] == other;
  }

  /** Names that differ in a secret word only become the same, so one change can hold branches that redaction merges. */
  lemma {:induction false} TwoRedactedAlike(first: string, word: string, other: string)
    requires IsWord(first) && !IsSecret(first)
    requires IsWord(word) && IsSecret(word) && IsWord(other) && IsSecret(other) && word != other
    ensures var a, b := first + ['-'] + word, first + ['-'] + other;
            a != b && Redact(a) == Redact(b) && Merges([a, b], Redact(a))
  {
    RedactPair(first, word);
    RedactPair(first, other);
    DifferBehind(first, word, other);
    TwoBranchesMerge(first + ['-'] + word, first + ['-'] + other);
  }

  /** There are such words. */
  lemma {:induction false} SecretWords() returns (first: string, word: string, other: string)
    ensures IsWord(first) && !IsSecret(first)
    ensures IsWord(word) && IsSecret(word) && IsWord(other) && IsSecret(other) && word != other
  {
    first, word, other := "fix", "token", "secret";
    assert Lines.Fold(word) == SECRET_WORDS[0];
    assert Lines.Fold(other) == SECRET_WORDS[2];
    assert |Lines.Fold(first)| == 3;
  }

  /** Then that change, even alone, is linked to no read of either branch. */
  lemma {:induction false} MergedBranchesHideTheChange(s: Summary, v: string, t: Tagged)
    requires Merges(s.branches, v) && BranchOf(t) == Some(v)
    ensures VerdictOf(ChangesOf([s]), t) == Miss(AmbiguousMatch)
  {
    var changes, e := ChangesOf([s]), Evidence(Branch, v);
    OneSummary(s, v);
    assert changes[..0] == [] && changes == [ChangeOf(s)];
    assert |IdsFor(changes, e)| == Times(Offers(changes[0], Branch), v);
    BranchDecides([s], t);
  }

  ghost predicate RedactedIdsDiffer(summaries: seq<Summary>) {
    forall i, j | 0 <= i < j < |summaries| :: Redact(summaries[i].id) != Redact(summaries[j].id)
  }

  /** Every change of a project has a card exactly when no two ids become the same by redaction. */
  lemma {:induction false} EverySummaryHasOneCard(summaries: seq<Summary>, linked: seq<Linked>)
    ensures |FillAll(Entries(ChangesOf(summaries)), linked)| == |summaries| <==> RedactedIdsDiffer(summaries)
  {
    var changes := ChangesOf(summaries);
    EveryChangeHasOneCard(changes, linked);
    if DistinctIds(changes) {
      forall i, j | 0 <= i < j < |summaries| ensures Redact(summaries[i].id) != Redact(summaries[j].id) {
        assert changes[i].id != changes[j].id;
      }
    }
  }

  /** Two changes with different ids can share one card. */
  lemma {:induction false} MergedIdsShareACard(a: Summary, b: Summary, linked: seq<Linked>)
    requires Redact(a.id) == Redact(b.id)
    ensures |FillAll(Entries(ChangesOf([a, b])), linked)| == 1
  {
    var changes := ChangesOf([a, b]);
    EverySummaryHasOneCard([a, b], linked);
    EntriesMean(changes);
    assert [a, b][0] == a && [a, b][1] == b;
    assert HasId(changes, changes[0].id);
  }
}
