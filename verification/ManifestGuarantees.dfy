/** What the manifest generator promises about every file and every run. */
module ManifestGuarantees {
  import opened Options
  import opened Lines
  import opened ManifestLines
  import opened ManifestMerge
  import opened ManifestNote
  import opened ManifestGenerator

  /** What a caller checks before a run: no note, or one with its anchor and no second one in the header. */
  predicate NoteCheck(content: string) {
    var ls := Split(content);
    var notes := Select(IsNote, ls);
    notes == [] || (IndexOf(notes[0], ANCHOR, 0) >= 0 && |Select(IsNote, Header(IsFence, ls))| <= 1)
  }

  lemma {:induction false} AnchorDecides(line: string)
    ensures FullNote(FullNote(line)) == FullNote(line) <==> IndexOf(line, ANCHOR, 0) >= 0
  {
    if IndexOf(line, ANCHOR, 0) >= 0 { AnchorStays(line); } else { NoAnchorGrows(line); }
  }

  lemma {:induction false} AnchorStays(line: string)
    requires IndexOf(line, ANCHOR, 0) >= 0
    ensures BaseNote(FullNote(line)) == BaseNote(line)
  {
    var n := IndexOf(line, ANCHOR, 0) + |ANCHOR|;
    assert FullNote(line)[..n] == line[..n];
    IndexOfKept(line, FullNote(line), ANCHOR, n);
  }

  lemma {:induction false} NoAnchorGrows(line: string)
    requires IndexOf(line, ANCHOR, 0) < 0
    ensures FullNote(FullNote(line)) != FullNote(line)
  {
    var full := FullNote(line);
    var j := IndexOf(full, ANCHOR, 0);
    IndexOfMeaning(line, ANCHOR, 0);
    IndexOfMeaning(full, ANCHOR, 0);
    assert full[..|line|] == line[..|line|];
    if j >= 0 && j + |ANCHOR| <= |line| {
      OccursInPrefix(full, line, ANCHOR, j, |line|);
    }
    assert |FullNote(full)| != |full|;
  }

  lemma {:induction false} NoteCheckIsStable(content: string)
    ensures NoteCheck(content) <==> NoteStable(IsFence, IsNote, FullNote, Split(content))
  {
    var notes := Select(IsNote, Split(content));
    if notes != [] { AnchorDecides(notes[0]); }
  }

  // ---------------------------------------------------------------- lines of the output

  lemma {:induction false} KindsOfSpecialLines()
    ensures forall l | IsFence(l) || IsNote(l) :: KindOf(l) == Plain
  {
    forall l | IsFence(l) || IsNote(l) ensures KindOf(l) == Plain {
      TrimInk(l);
      if IsNote(l) { NoteInk(l); }
      PlainByInk(l);
    }
  }

  lemma {:induction false} MergeOneLine(kind: Kinds, region: seq<string>, generated: seq<string>)
    requires AllOneLine(region) && AllOneLine(generated)
    ensures AllOneLine(Merge(kind, region, Singles(generated)))
    decreases |region|
  {
    if region == [] {
      FlattenSingles(generated);
    } else {
      assert OneLine(region[0]);
      assert forall l | l in region[1..] :: l in region;
      if kind(region[0]) == AdvEntry && generated != [] {
        assert OneLine(generated[0]);
        assert forall l | l in generated[1..] :: l in generated;
        MergeOneLine(kind, region[1..], generated[1..]);
        assert GroupLines(Singles(generated)[0]) == [generated[0]];
      } else {
        MergeOneLine(kind, region[1..], generated);
      }
    }
  }

  lemma {:induction false} ReplacedOneLine(kind: Kinds, ls: seq<string>, p: Pair, generated: seq<string>)
    requires AllOneLine(ls) && AllOneLine(generated) && AllEntries(kind, generated) && p.start < p.end < |ls|
    ensures AllOneLine(Replaced(kind, ls, p, generated))
  {
    var region := ls[p.start + 1..p.end];
    var merged := Merge(kind, region, Singles(generated));
    GroupsAreSingles(kind, generated);
    SliceOneLine(ls, p.start + 1, p.end);
    MergeOneLine(kind, region, generated);
    EndsOneLine(ls, p.start + 1);
    EndsOneLine(ls, p.end);
    ConcatOneLine(ls[..p.start + 1], merged);
    ConcatOneLine(ls[..p.start + 1] + merged, ls[p.end..]);
  }

  lemma {:induction false} WrappedOneLine(kind: Kinds, ls: seq<string>, first: nat, last: nat, generated: seq<string>)
    requires AllOneLine(ls) && AllOneLine(generated) && AllEntries(kind, generated) && first <= last < |ls|
    ensures AllOneLine(Wrapped(kind, ls, first, last, generated))
  {
    var region := ls[first..last + 1];
    var merged := Merge(kind, region, Singles(generated));
    GroupsAreSingles(kind, generated);
    SliceOneLine(ls, first, last + 1);
    MergeOneLine(kind, region, generated);
    MarkersOneLine();
    EndsOneLine(ls, first);
    EndsOneLine(ls, last + 1);
    ConcatOneLine(ls[..first], [BLOCK_START]);
    ConcatOneLine(ls[..first] + [BLOCK_START], merged);
    ConcatOneLine(ls[..first] + [BLOCK_START] + merged, [BLOCK_END]);
    ConcatOneLine(ls[..first] + [BLOCK_START] + merged + [BLOCK_END], ls[last + 1..]);
  }

  lemma {:induction false} EndsOneLine(ls: seq<string>, k: nat)
    requires AllOneLine(ls) && k <= |ls|
    ensures AllOneLine(ls[..k]) && AllOneLine(ls[k..])
  {
    SliceOneLine(ls, 0, k);
    SliceOneLine(ls, k, |ls|);
    assert ls[0..k] == ls[..k] && ls[k..|ls|] == ls[k..];
  }

  lemma {:induction false} RegenerateOneLine(kind: Kinds, ls: seq<string>, generated: seq<string>)
    requires AllOneLine(ls) && AllOneLine(generated) && AllEntries(kind, generated)
    ensures var r := Regenerate(kind, ls, Ok(generated));
            r.Ok? ==> AllOneLine(r.value)
  {
    PairInRange(kind, ls);
    match FindMarkers(kind, ls)
    case Err(_) =>
    case Ok(Some(p)) =>
      ReplacedOneLine(kind, ls, p, generated);
    case Ok(None) =>
      var first, last := FirstEntry(kind, ls), LastEntry(kind, ls);
      if first >= 0 && last >= 0 { WrappedOneLine(kind, ls, first, last, generated); }
  }

  lemma {:induction false} MarkersOneLine()
    ensures OneLine(BLOCK_START) && OneLine(BLOCK_END)
  {
    var a, b, c := "ADV-GENERATED adv_* tools ", "(source: AGENT_TOOL_POLICY)", "ADV-GENERATED adv_* tools";
    assert forall i | 0 <= i < |a| :: a[i] != '\n';
    assert forall i | 0 <= i < |b| :: b[i] != '\n';
    assert forall i | 0 <= i < |c| :: c[i] != '\n';
    assert START_TEXT == "# >>> " + a + b + " >>>" && END_TEXT == "# <<< " + c + " <<<";
  }

  lemma {:induction false} SuffixOneLine()
    ensures OneLine(NOTE_SUFFIX)
  {
    var a, b := " Tier-4 reads (the catalog ", "returned by `adv_tool_catalog`) ";
    var c, d, e := "also via tools.adv.* Code Mode; ", "invoke-only schemas are available ",
      "through the invoke facade.";
    assert forall i | 0 <= i < |a| :: a[i] != '\n';
    assert forall i | 0 <= i < |b| :: b[i] != '\n';
    assert forall i | 0 <= i < |c| :: c[i] != '\n';
    assert forall i | 0 <= i < |d| :: d[i] != '\n';
    assert forall i | 0 <= i < |e| :: e[i] != '\n';
    assert NOTE_SUFFIX == a + b + c + d + e;
  }

  lemma {:induction false} FullNoteOneLine(line: string)
    requires OneLine(line)
    ensures OneLine(FullNote(line))
  {
    SuffixOneLine();
    assert forall c | c in BaseNote(line) :: c in line;
  }

  lemma {:induction false} InjectOneLine(ls: seq<string>)
    requires AllOneLine(ls)
    ensures AllOneLine(Inject(IsFence, IsNote, FullNote, ls))
  {
    var at := FirstFrom(IsNote, ls, 0);
    if at >= 0 {
      FullNoteOneLine(ls[at]);
      InjectStaysOneLine(IsFence, IsNote, FullNote, ls);
    }
  }

  lemma {:induction false} InsertedOneLine(ls: seq<string>, k: nat, l: string)
    requires AllOneLine(ls) && k <= |ls| && OneLine(l)
    ensures AllOneLine(ls[..k] + [l] + ls[k..])
  {
    EndsOneLine(ls, k);
    ConcatOneLine(ls[..k], [l]);
    ConcatOneLine(ls[..k] + [l], ls[k..]);
  }

  lemma {:induction false} RemovedOneLine(ls: seq<string>, k: nat)
    requires AllOneLine(ls) && k < |ls|
    ensures AllOneLine(ls[..k] + ls[k + 1..])
  {
    EndsOneLine(ls, k);
    EndsOneLine(ls, k + 1);
    ConcatOneLine(ls[..k], ls[k + 1..]);
  }

  lemma {:induction false} UpdatedOneLine(ls: seq<string>, k: nat, l: string)
    requires AllOneLine(ls) && k < |ls| && OneLine(l)
    ensures AllOneLine(ls[k := l])
  {
  }

  lemma {:induction false} InjectStaysOneLine(fence: Test, note: Test, full: string -> string, ls: seq<string>)
    requires AllOneLine(ls) && FirstFrom(note, ls, 0) >= 0 && OneLine(full(ls[FirstFrom(note, ls, 0)]))
    ensures AllOneLine(Inject(fence, note, full, ls))
  {
    var e, at := HeaderEnd(fence, ls), FirstFrom(note, ls, 0);
    var l := full(ls[at]);
    if e >= 0 && at <= e {
      var without := ls[..at] + ls[at + 1..];
      RemovedOneLine(ls, at);
      var k := if at < e then e else e + 1;
      if k <= |without| { InsertedOneLine(without, k, l); } else { ConcatOneLine(without, [l]); }
    } else {
      UpdatedOneLine(ls, at, l);
    }
  }

  /** The lines of a run's output: the regenerated lines with the note in its place. */
  lemma {:induction false} OutputLines(policies: seq<Policy>, content: string, agent: string, p: Policy)
    returns (ls: seq<string>, middle: seq<string>)
    requires FindPolicy(policies, agent) == Some(p) && WellFormedPolicy(p)
    ensures ls == Split(content)
    ensures LinesOfBlock(Block(policies, agent)) == Ok(GeneratedLines(p))
    ensures var once := Generate(policies, content, agent);
            once.Ok? ==>
              && AllOneLine(middle) && middle != []
              && Regenerate(KindOf, ls, Ok(GeneratedLines(p))) == Ok(middle)
              && once.value == Join(Inject(IsFence, IsNote, FullNote, middle))
              && Split(once.value) == Inject(IsFence, IsNote, FullNote, middle)
  {
    ls, middle := Split(content), [];
    BlockRoundTrip(p);
    GeneratedLinesAreEntries(p);
    if Generate(policies, content, agent).Ok? {
      middle := Regenerate(KindOf, ls, Ok(GeneratedLines(p))).value;
      SplitIsOneLine(content);
      RegenerateOneLine(KindOf, ls, GeneratedLines(p));
      MarkerKinds();
      FirstLineKept(KindOf, ls, GeneratedLines(p));
      TextOfLines(middle);
    }
  }

  lemma {:induction false} TextOfLines(middle: seq<string>)
    requires AllOneLine(middle) && middle != []
    ensures var out := Inject(IsFence, IsNote, FullNote, middle);
            InjectText(Join(middle)) == Join(out) && Split(Join(out)) == out
  {
    SplitJoin(middle);
    InjectOneLine(middle);
    SplitJoin(Inject(IsFence, IsNote, FullNote, middle));
  }

  lemma {:induction false} NotesArePlain()
    ensures NoteLaws(IsFence, IsNote, FullNote)
    ensures forall l | IsNote(l) :: !IsOwned(KindOf)(l) && IsPlain(KindOf)(l)
    ensures forall l | IsFence(l) || IsNote(l) :: IsPlain(KindOf)(l)
  {
    ProgramNoteLaws();
    KindsOfSpecialLines();
  }

  // ---------------------------------------------------------------- idempotence

  /**
   * A second run changes nothing exactly when the text passed the note check before
   * the first one, whether or not the first run had to insert markers or move the note.
   */
  lemma {:induction false} GenerateTwice(policies: seq<Policy>, content: string, agent: string, p: Policy)
    requires FindPolicy(policies, agent) == Some(p) && WellFormedPolicy(p)
    ensures var once := Generate(policies, content, agent);
            once.Ok? ==>
              var twice := Generate(policies, once.value, agent);
              twice.Ok? && (twice.value == once.value <==> NoteCheck(content))
  {
    var ls, middle := OutputLines(policies, content, agent, p);
    if Generate(policies, content, agent).Ok? {
      TwiceFromLines(policies, content, agent, p, Generate(policies, content, agent).value, ls, middle);
    }
  }

  lemma {:induction false} TwiceFromLines(policies: seq<Policy>, content: string, agent: string, p: Policy,
                                          once: string, ls: seq<string>, middle: seq<string>)
    requires WellFormedPolicy(p) && ls == Split(content)
    requires Regenerate(KindOf, ls, Ok(GeneratedLines(p))) == Ok(middle)
    requires LinesOfBlock(Block(policies, agent)) == Ok(GeneratedLines(p))
    requires Split(once) == Inject(IsFence, IsNote, FullNote, middle)
    ensures var twice := Generate(policies, once, agent); twice.Ok? && (twice.value == once <==> NoteCheck(content))
  {
    var generated := GeneratedLines(p);
    var out := Inject(IsFence, IsNote, FullNote, middle);
    NotesArePlain();
    MarkerKinds();
    GeneratedLinesAreEntries(p);
    RegenerateSettles(KindOf, ls, generated);
    InjectKeepsOthers(IsFence, IsNote, FullNote, middle, IsOwned(KindOf));
    assert Settled(KindOf, out, generated);
    SettledIsFixed(KindOf, out, generated);
    assert Regenerate(KindOf, Split(once), LinesOfBlock(Block(policies, agent))) == Ok(out);
    SplitIsOneLine(once);
    TextOfLines(out);
    InjectOneLine(out);
    EqualTexts(once, out, Inject(IsFence, IsNote, FullNote, out));
    InjectTwice(IsFence, IsNote, FullNote, middle);
    FirstLineKept(KindOf, ls, generated);
    NoteStableByPlains(IsFence, IsNote, FullNote, IsPlain(KindOf), middle, ls);
    NoteCheckIsStable(content);
  }

  /** Two texts of lines are equal exactly when their lines are. */
  lemma {:induction false} EqualTexts(once: string, out: seq<string>, again: seq<string>)
    requires Split(once) == out && AllOneLine(again) && again != []
    ensures Join(again) == once <==> again == out
  {
    JoinSplit(once);
    SplitJoin(again);
  }

  // ---------------------------------------------------------------- what a run keeps and what it writes

  /** The lines `nonAdvLines` keeps. */
  function NonAdvLines(content: string): seq<string> {
    Select(IsPlain(KindOf), Split(content))
  }

  function HandOwnedBy(kind: Kinds, note: Test): string -> bool {
    (l: string) => kind(l) == Plain && !note(l)
  }

  /** Lines the generator neither generates nor rewrites. */
  function HandOwned(): string -> bool {
    HandOwnedBy(KindOf, IsNote)
  }

  /** Everything the generator does not own stays, in order. */
  lemma {:induction false} RunKeepsHandOwnedLines(policies: seq<Policy>, content: string, agent: string, p: Policy)
    requires FindPolicy(policies, agent) == Some(p) && WellFormedPolicy(p)
    ensures var once := Generate(policies, content, agent);
            once.Ok? ==> Select(HandOwned(), Split(once.value)) == Select(HandOwned(), Split(content))
  {
    var ls, middle := OutputLines(policies, content, agent, p);
    if Generate(policies, content, agent).Ok? {
      NotesArePlain();
      MarkerKinds();
      GeneratedLinesAreEntries(p);
      RegenerateSettles(KindOf, ls, GeneratedLines(p));
      HandOwnedKept(KindOf, IsFence, IsNote, FullNote, ls, middle);
    }
  }

  lemma {:induction false} HandOwnedKept(kind: Kinds, fence: Test, note: Test, full: string -> string, ls: seq<string>,
                                         middle: seq<string>)
    requires NoteLaws(fence, note, full)
    requires Select(IsPlain(kind), middle) == Select(IsPlain(kind), ls)
    ensures Select(HandOwnedBy(kind, note), Inject(fence, note, full, middle)) == Select(HandOwnedBy(kind, note), ls)
  {
    var own := HandOwnedBy(kind, note);
    InjectKeepsOthers(fence, note, full, middle, own);
    SelectTwice(own, IsPlain(kind), middle);
    SelectTwice(own, IsPlain(kind), ls);
  }

  /** Without a note, the non-ADV lines are the same sequence before and after. */
  lemma {:induction false} RunWithoutNoteKeepsNonAdvLines(policies: seq<Policy>, content: string, agent: string,
                                                          p: Policy)
    requires FindPolicy(policies, agent) == Some(p) && WellFormedPolicy(p)
    requires Select(IsNote, Split(content)) == []
    ensures var once := Generate(policies, content, agent); once.Ok? ==> NonAdvLines(once.value) == NonAdvLines(content)
  {
    var ls, middle := OutputLines(policies, content, agent, p);
    if Generate(policies, content, agent).Ok? {
      NotesArePlain();
      MarkerKinds();
      GeneratedLinesAreEntries(p);
      RegenerateSettles(KindOf, ls, GeneratedLines(p));
      SelectTwice(IsNote, IsPlain(KindOf), middle);
      SelectTwice(IsNote, IsPlain(KindOf), ls);
      FirstSelected(IsNote, middle, 0);
      assert middle[0..] == middle;
    }
  }

  /** The output has one marked region, and its ADV entries are the policy's, in order. */
  lemma {:induction false} RegionHoldsThePolicy(policies: seq<Policy>, content: string, agent: string, p: Policy)
    returns (at: Pair)
    requires FindPolicy(policies, agent) == Some(p) && WellFormedPolicy(p)
    ensures var once := Generate(policies, content, agent);
            once.Ok? ==>
              var out := Split(once.value);
              && MarkedAt(KindOf, out, at)
              && Select(IsOwned(KindOf), out[at.start + 1..at.end]) == GeneratedLines(p)
  {
    at := Pair(0, 0);
    var ls, middle := OutputLines(policies, content, agent, p);
    if Generate(policies, content, agent).Ok? {
      NotesArePlain();
      MarkerKinds();
      GeneratedLinesAreEntries(p);
      RegenerateSettles(KindOf, ls, GeneratedLines(p));
      InjectKeepsOthers(IsFence, IsNote, FullNote, middle, IsOwned(KindOf));
      at := SettledIsMarked(KindOf, Inject(IsFence, IsNote, FullNote, middle), GeneratedLines(p));
    }
  }

  // ---------------------------------------------------------------- the meaning of the entries

  /** The permission language: `*` matches any text. */
  predicate WildMatch(pattern: string, tool: string)
    decreases |pattern| + |tool|
  {
    if pattern == "" then tool == ""
    else if pattern[0] == '*' then
      WildMatch(pattern[1..], tool) || (tool != "" && WildMatch(pattern, tool[1..]))
    else tool != "" && tool[0] == pattern[0] && WildMatch(pattern[1..], tool[1..])
  }

  /** The last matching entry decides; no matching entry leaves the default. */
  function Verdict(lines: seq<string>, tool: string): Option<bool> {
    if lines == [] then None
    else
      match ParseEntry(lines[|lines| - 1])
      case Some(e) =>
        if WildMatch(e.pattern, tool) then Some(e.allow) else Verdict(lines[..|lines| - 1], tool)
      case None => Verdict(lines[..|lines| - 1], tool)
  }

  /** What the policy row says about a tool. */
  function PolicyVerdict(p: Policy, tool: string): Option<bool> {
    if tool in p.explicitBlocked then Some(false)
    else if tool in p.allowed then Some(true)
    else if p.denyWildcard && "adv_" <= tool then Some(false)
    else None
  }

  ghost predicate LiteralNames(names: seq<string>) {
    forall n | n in names :: '*' !in n
  }

  lemma {:induction false} LiteralMatch(pattern: string, tool: string)
    requires '*' !in pattern
    ensures WildMatch(pattern, tool) <==> pattern == tool
    decreases |pattern|
  {
    if pattern != "" {
      assert pattern[0] != '*';
      if tool != "" {
        LiteralMatch(pattern[1..], tool[1..]);
        assert pattern == [pattern[0]] + pattern[1..] && tool == [tool[0]] + tool[1..];
      }
    }
  }

  lemma {:induction false} StarMatchesAll(tool: string)
    ensures WildMatch("*", tool)
  {
    assert "*"[1..] == "";
    if tool != "" { StarMatchesAll(tool[1..]); }
  }

  lemma {:induction false} WildStep(c: char, pattern: string, tool: string)
    requires c != '*'
    ensures WildMatch([c] + pattern, tool) <==> tool != "" && tool[0] == c && WildMatch(pattern, tool[1..])
  {
    assert ([c] + pattern)[1..] == pattern;
  }

  lemma {:induction false} WildcardMatchesPrefix(tool: string)
    ensures WildMatch("adv_*", tool) <==> "adv_" <= tool
  {
    assert "adv_*" == ['a'] + "dv_*" && "dv_*" == ['d'] + "v_*" && "v_*" == ['v'] + "_*" && "_*" == ['_'] + "*";
    WildStep('a', "dv_*", tool);
    if |tool| > 0 { WildStep('d', "v_*", tool[1..]); }
    if |tool| > 1 { WildStep('v', "_*", tool[1..][1..]); }
    if |tool| > 2 { WildStep('_', "*", tool[1..][1..][1..]); }
    if |tool| > 3 { StarMatchesAll(tool[1..][1..][1..][1..]); }
  }

  lemma {:induction false} VerdictConcat(a: seq<string>, b: seq<string>, tool: string)
    ensures Verdict(a + b, tool) == if Verdict(b, tool).Some? then Verdict(b, tool) else Verdict(a, tool)
    decreases |b|
  {
    if b == [] {
      assert a + b == a;
    } else {
      assert (a + b)[..|a + b| - 1] == a + b[..|b| - 1];
      VerdictConcat(a, b[..|b| - 1], tool);
    }
  }

  lemma {:induction false} VerdictOfNames(names: seq<string>, allow: bool, tool: string)
    requires LiteralNames(names) && forall n | n in names :: WellFormedName(n)
    ensures Verdict(EntryLines(names, allow), tool) == if tool in names then Some(allow) else None
    decreases |names|
  {
    if names != [] {
      var front, last := names[..|names| - 1], names[|names| - 1];
      assert EntryLines(names, allow)[..|names| - 1] == EntryLines(front, allow);
      VerdictOfNames(front, allow, tool);
      EntryLineParses(last, allow);
      LiteralMatch(last, tool);
      assert names == front + [last];
    }
  }

  /** Last-match-wins over the generated entries gives exactly what the policy says. */
  lemma {:induction false} GeneratedEntriesMeanThePolicy(p: Policy, tool: string)
    requires WellFormedPolicy(p) && LiteralNames(p.allowed) && LiteralNames(p.explicitBlocked)
    ensures Verdict(GeneratedLines(p), tool) == PolicyVerdict(p, tool)
  {
    var allowed, blocked := SortedUnique(p.allowed), SortedUnique(p.explicitBlocked);
    SortedUniqueKeeps(p.allowed);
    SortedUniqueKeeps(p.explicitBlocked);
    VerdictOfNames(allowed, true, tool);
    VerdictOfNames(blocked, false, tool);
    var deny := if p.denyWildcard then [EntryLine("adv_*", false)] else [];
    VerdictConcat(deny + EntryLines(allowed, true), EntryLines(blocked, false), tool);
    VerdictConcat(deny, EntryLines(allowed, true), tool);
    WildcardIsName();
    EntryLineParses("adv_*", false);
    WildcardMatchesPrefix(tool);
    assert deny != [] ==> deny[..0] == [];
    assert tool in allowed <==> tool in p.allowed;
    assert tool in blocked <==> tool in p.explicitBlocked;
  }

  /** No ADV entry lies outside the region the next run rewrites; always so on a first run. */
  ghost predicate EntriesInRegion(kind: Kinds, ls: seq<string>) {
    forall at: Pair | FindMarkers(kind, ls) == Ok(Some(at)) && at.start < at.end < |ls| ::
      && (forall l | l in ls[..at.start] :: kind(l) != AdvEntry)
      && (forall l | l in ls[at.end + 1..] :: kind(l) != AdvEntry)
  }

  lemma {:induction false} EntriesOfMergedFile(kind: Kinds, entry: string -> bool, a: seq<string>, start: string,
                                               region: seq<string>, end: string, c: seq<string>, generated: seq<string>)
    requires forall l :: entry(l) <==> kind(l) == AdvEntry
    requires kind(start) == StartMarker && kind(end) == EndMarker
    requires NoMarkers(kind, region) && AllEntries(kind, generated)
    requires (forall l | l in a :: kind(l) != AdvEntry) && (forall l | l in c :: kind(l) != AdvEntry)
    ensures Select(entry, a + [start] + Merge(kind, region, Singles(generated)) + [end] + c) == generated
  {
    var merged := Merge(kind, region, Singles(generated));
    SelectDropTwo(entry, a, start, merged, end, c);
    SelectNone(entry, a);
    SelectNone(entry, c);
    MergeKeeps(kind, region, generated);
    SelectTwice(entry, IsOwned(kind), merged);
    SelectAll(entry, generated);
  }

  lemma {:induction false} EntriesOfMarked(kind: Kinds, entry: string -> bool, ls: seq<string>, p: Pair,
                                           generated: seq<string>)
    requires forall l :: entry(l) <==> kind(l) == AdvEntry
    requires AllEntries(kind, generated) && MarkedAt(kind, ls, p)
    requires forall l | l in ls[..p.start] :: kind(l) != AdvEntry
    requires forall l | l in ls[p.end + 1..] :: kind(l) != AdvEntry
    ensures Select(entry, Replaced(kind, ls, p, generated)) == generated
  {
    GroupsAreSingles(kind, generated);
    var a, b, c := ls[..p.start], ls[p.start + 1..p.end], ls[p.end + 1..];
    SplitAtPair(ls, p, Merge(kind, b, Singles(generated)));
    EntriesOfMergedFile(kind, entry, a, ls[p.start], b, ls[p.end], c, generated);
  }

  lemma {:induction false} EntriesOfFirstRun(kind: Kinds, entry: string -> bool, ls: seq<string>, first: nat, last: nat,
                          generated: seq<string>)
    requires forall l :: entry(l) <==> kind(l) == AdvEntry
    requires kind(BLOCK_START) == StartMarker && kind(BLOCK_END) == EndMarker
    requires AllEntries(kind, generated) && NoMarkers(kind, ls) && first <= last < |ls|
    requires forall i | 0 <= i < first || last < i < |ls| :: kind(ls[i]) != AdvEntry
    ensures Select(entry, Wrapped(kind, ls, first, last, generated)) == generated
  {
    GroupsAreSingles(kind, generated);
    EntriesOfMergedFile(kind, entry, ls[..first], BLOCK_START, ls[first..last + 1], BLOCK_END, ls[last + 1..],
                        generated);
  }

  lemma {:induction false} EntriesOfRegenerated(kind: Kinds, entry: string -> bool, ls: seq<string>,
                                                generated: seq<string>)
    requires forall l :: entry(l) <==> kind(l) == AdvEntry
    requires kind(BLOCK_START) == StartMarker && kind(BLOCK_END) == EndMarker
    requires AllEntries(kind, generated) && EntriesInRegion(kind, ls)
    requires Regenerate(kind, ls, Ok(generated)).Ok?
    ensures Select(entry, Regenerate(kind, ls, Ok(generated)).value) == generated
  {
    FindMarkersMeaning(kind, ls);
    match FindMarkers(kind, ls)
    case Ok(Some(p)) =>
      EntriesOfMarked(kind, entry, ls, p, generated);
    case Ok(None) =>
      EntriesOfFirstRun(kind, entry, ls, FirstEntry(kind, ls), LastEntry(kind, ls), generated);
  }

  /** When all ADV entries lie in the region, the written file grants exactly what the policy says. */
  lemma {:induction false} WrittenFileMeansThePolicy(policies: seq<Policy>, content: string, agent: string, p: Policy,
                                                     tool: string)
    requires FindPolicy(policies, agent) == Some(p) && WellFormedPolicy(p)
    requires LiteralNames(p.allowed) && LiteralNames(p.explicitBlocked)
    requires EntriesInRegion(KindOf, Split(content))
    ensures var once := Generate(policies, content, agent);
            once.Ok? ==>
              var out := Split(once.value);
              && Select(IsAdvEntry, out) == GeneratedLines(p)
              && Verdict(Select(IsAdvEntry, out), tool) == PolicyVerdict(p, tool)
  {
    var ls, middle := OutputLines(policies, content, agent, p);
    if Generate(policies, content, agent).Ok? {
      NotesArePlain();
      GeneratedLinesAreEntries(p);
      MarkerKinds();
      forall l ensures IsAdvEntry(l) <==> KindOf(l) == AdvEntry { KindFacts(l); }
      EntriesOfRegenerated(KindOf, IsAdvEntry, ls, GeneratedLines(p));
      InjectKeepsOthers(IsFence, IsNote, FullNote, middle, IsAdvEntry);
      GeneratedEntriesMeanThePolicy(p, tool);
    }
  }

  /** On a first run the condition on entries holds by itself. */
  lemma {:induction false} FirstRunEntriesInRegion(ls: seq<string>)
    requires NoMarkers(KindOf, ls)
    ensures EntriesInRegion(KindOf, ls)
  {
    FindMarkersMeaning(KindOf, ls);
  }

  // ---------------------------------------------------------------- the failing side occurs

  /** One entry and a note that lost its anchor. */
  function DriftingFile(): string {
    Join([EntryLine("adv_*", true), NOTE_PREFIX])
  }

  lemma {:induction false} NotePrefixIsNote()
    ensures IsNote(NOTE_PREFIX) && OneLine(NOTE_PREFIX) && 'f' !in NOTE_PREFIX && KindOf(NOTE_PREFIX) == Plain
  {
    KindsOfSpecialLines();
    assert forall i | 0 <= i < |NOTE_PREFIX| :: NOTE_PREFIX[i] != '\n' && NOTE_PREFIX[i] != 'f';
  }

  lemma {:induction false} WildcardLine(entry: string)
    requires entry == EntryLine("adv_*", true)
    ensures KindOf(entry) == AdvEntry && OneLine(entry) && entry[0] == ' '
  {
    WildcardIsName();
    EntryLinesAreEntries(["adv_*"], true);
    assert EntryLines(["adv_*"], true) == [entry];
    assert entry in [entry];
  }

  lemma {:induction false} DriftingLines() returns (entry: string, note: string)
    ensures Split(DriftingFile()) == [entry, note]
    ensures KindOf(entry) == AdvEntry && KindOf(note) == Plain
    ensures !IsNote(entry) && IsNote(note) && 'f' !in note
  {
    entry, note := EntryLine("adv_*", true), NOTE_PREFIX;
    WildcardLine(entry);
    NotePrefixIsNote();
    SplitJoin([entry, note]);
    KindsOfSpecialLines();
  }

  lemma {:induction false} SecondLineIsNote(first: string, second: string)
    requires !IsNote(first) && IsNote(second)
    ensures Select(IsNote, [first, second]) == [second]
  {
    SelectCons(IsNote, first, [second]);
    SelectAll(IsNote, [second]);
    assert [first] + [second] == [first, second];
  }

  lemma {:induction false} NoAnchorWithout(line: string)
    requires 'f' !in line
    ensures IndexOf(line, ANCHOR, 0) < 0
  {
    IndexOfMeaning(line, ANCHOR, 0);
    assert ANCHOR[0] == 'f';
    if IndexOf(line, ANCHOR, 0) >= 0 { assert false; }
  }

  lemma {:induction false} DriftingFileFailsTheCheck()
    ensures !NoteCheck(DriftingFile())
  {
    var entry, note := DriftingLines();
    SecondLineIsNote(entry, note);
    NoAnchorWithout(note);
  }

  lemma {:induction false} OneEntryIsEnough(kind: Kinds, ls: seq<string>, generated: seq<string>)
    requires NoMarkers(kind, ls) && ls != [] && kind(ls[0]) == AdvEntry
    ensures Regenerate(kind, ls, Ok(generated)).Ok?
  {
    FindMarkersMeaning(kind, ls);
  }

  lemma {:induction false} DriftingFileIsRewritten(policies: seq<Policy>, agent: string, p: Policy)
    requires FindPolicy(policies, agent) == Some(p) && WellFormedPolicy(p)
    ensures Generate(policies, DriftingFile(), agent).Ok?
  {
    var _, _ := DriftingLines();
    BlockRoundTrip(p);
    OneEntryIsEnough(KindOf, Split(DriftingFile()), GeneratedLines(p));
  }

  /** A run over that file succeeds, and the next run changes what it wrote. */
  lemma {:induction false} DriftOccurs(policies: seq<Policy>, agent: string, p: Policy)
    requires FindPolicy(policies, agent) == Some(p) && WellFormedPolicy(p)
    ensures var once := Generate(policies, DriftingFile(), agent);
            once.Ok? && Generate(policies, once.value, agent).Ok?
              && Generate(policies, once.value, agent).value != once.value
  {
    DriftingFileIsRewritten(policies, agent, p);
    DriftingFileFailsTheCheck();
    GenerateTwice(policies, DriftingFile(), agent, p);
  }
}
