/** The manifest generator: blocks from the policy, files from blocks, runs over all agents. */
module ManifestGenerator {
  import opened Options
  import opened Lines
  import opened ManifestLines
  import opened ManifestMerge
  import opened ManifestNote
  import Sequences
  import Sorting

  datatype Policy = Policy(agent: string, allowed: seq<string>, explicitBlocked: seq<string>, denyWildcard: bool)

  ghost predicate WellFormedPolicy(p: Policy) {
    && (forall t | t in p.allowed :: WellFormedName(t))
    && (forall t | t in p.explicitBlocked :: WellFormedName(t))
  }

  // ---------------------------------------------------------------- the generated block

  function SortedUnique(values: seq<string>): seq<string> {
    Sorting.SortBy(Sorting.StringLe, Sorting.Dedupe(values))
  }

  lemma {:induction false} SortedUniqueKeeps(values: seq<string>)
    ensures forall v :: v in SortedUnique(values) <==> v in values
    ensures Sorting.Distinct(SortedUnique(values)) && Sorting.SortedBy(Sorting.StringLe, SortedUnique(values))
  {
    Sorting.DedupeKeeps(values);
    Sorting.StringLeIsTotalOrder();
    Sorting.SortByIsSortedPermutation(Sorting.StringLe, Sorting.Dedupe(values));
    Sorting.DistinctOfPermutation(Sorting.Dedupe(values), SortedUnique(values));
  }

  function EntryLines(names: seq<string>, allow: bool): seq<string> {
    seq(|names|, i requires 0 <= i < |names| => EntryLine(names[i], allow))
  }

  function GeneratedLines(p: Policy): seq<string> {
    (if p.denyWildcard then [EntryLine("adv_*", false)] else [])
    + EntryLines(SortedUnique(p.allowed), true)
    + EntryLines(SortedUnique(p.explicitBlocked), false)
  }

  function BlockText(lines: seq<string>): string {
    if lines == [] then "" else Join(lines) + NEWLINE
  }

  function FindPolicy(policies: seq<Policy>, agent: string): Option<Policy> {
    if policies == [] then None
    else if policies[0].agent == agent then Some(policies[0])
    else FindPolicy(policies[1..], agent)
  }

  function Block(policies: seq<Policy>, agent: string): Result<string> {
    match FindPolicy(policies, agent)
    case None => Err(NoPolicy)
    case Some(p) => Ok(BlockText(GeneratedLines(p)))
  }

  method GenerateAdvToolsBlock(policies: seq<Policy>, agent: string) returns (r: Result<string>)
    ensures r == Block(policies, agent)
  {
    var policy := FindPolicy(policies, agent);
    if policy.None? { return Err(NoPolicy); }
    var p := policy.value;
    var lines: seq<string> := [];
    if p.denyWildcard {
      lines := lines + [EntryLine("adv_*", false)];
    }
    ghost var head := lines;
    var allowed := SortedUnique(p.allowed);
    for i := 0 to |allowed|
      invariant lines == head + EntryLines(allowed[..i], true)
    {
      lines := lines + [EntryLine(allowed[i], true)];
    }
    assert allowed[..|allowed|] == allowed;
    var blocked := SortedUnique(p.explicitBlocked);
    ghost var granted := lines;
    for i := 0 to |blocked|
      invariant lines == granted + EntryLines(blocked[..i], false)
    {
      lines := lines + [EntryLine(blocked[i], false)];
    }
    assert blocked[..|blocked|] == blocked;
    assert lines == GeneratedLines(p);
    if |lines| == 0 { return Ok(""); }
    return Ok(Join(lines) + NEWLINE);
  }

  /** Splitting a block and dropping the empty rest after its last newline. */
  function BlockLines(block: string): seq<string> {
    var ls := Split(block);
    if ls[|ls| - 1] == "" then ls[..|ls| - 1] else ls
  }

  lemma {:induction false} GeneratedLinesAreEntries(p: Policy)
    requires WellFormedPolicy(p)
    ensures AllEntries(KindOf, GeneratedLines(p)) && AllOneLine(GeneratedLines(p))
  {
    WildcardIsName();
    SortedUniqueKeeps(p.allowed);
    SortedUniqueKeeps(p.explicitBlocked);
    EntryLinesAreEntries(["adv_*"], false);
    EntryLinesAreEntries(SortedUnique(p.allowed), true);
    EntryLinesAreEntries(SortedUnique(p.explicitBlocked), false);
    assert EntryLines(["adv_*"], false) == [EntryLine("adv_*", false)];
  }

  lemma {:induction false} EntryLinesAreEntries(names: seq<string>, allow: bool)
    requires forall n | n in names :: WellFormedName(n)
    ensures AllEntries(KindOf, EntryLines(names, allow)) && AllOneLine(EntryLines(names, allow))
  {
    forall i | 0 <= i < |names|
      ensures KindOf(EntryLine(names[i], allow)) == AdvEntry && OneLine(EntryLine(names[i], allow))
    {
      EntryLineParses(names[i], allow);
      AdvEntryKind(EntryLine(names[i], allow));
      NameIsOneLine(names[i]);
    }
  }

  lemma {:induction false} WildcardIsName()
    ensures WellFormedName("adv_*")
  {
    assert "adv_*"[4..] == "*";
    assert IsNameChar('*');
  }

  lemma {:induction false} NameIsOneLine(name: string)
    requires WellFormedName(name)
    ensures OneLine(name)
  {
    forall i | 0 <= i < |name| ensures name[i] != '\n' {
      if i >= 4 {
        assert IsNameChar(name[4..][i - 4]);
      } else {
        assert name[i] == "adv_"[i];
      }
    }
  }

  lemma {:induction false} BlockRoundTrip(p: Policy)
    requires WellFormedPolicy(p)
    ensures BlockLines(BlockText(GeneratedLines(p))) == GeneratedLines(p)
  {
    var ls := GeneratedLines(p);
    GeneratedLinesAreEntries(p);
    if ls != [] { SplitTerminated(ls); }
  }

  // ---------------------------------------------------------------- loops over lines

  method FindMarkerLines(lines: seq<string>) returns (r: Result<Option<Pair>>)
    ensures r == FindMarkers(KindOf, lines)
  {
    var starts: seq<nat>, ends: seq<nat> := [], [];
    MarkerKinds();
    for i := 0 to |lines|
      invariant starts == Positions(KindOf, StartMarker, lines[..i], 0)
      invariant ends == Positions(KindOf, EndMarker, lines[..i], 0)
    {
      PositionsStep(KindOf, StartMarker, lines, i);
      PositionsStep(KindOf, EndMarker, lines, i);
      var trimmed := Trim(lines[i]);
      if trimmed == Trim(BLOCK_START) {
        starts := starts + [i];
      } else if trimmed == Trim(BLOCK_END) {
        ends := ends + [i];
      }
    }
    assert lines[..|lines|] == lines;
    if |starts| == 0 && |ends| == 0 { return Ok(None); }
    if |starts| != 1 || |ends| != 1 { return Err(IncompleteMarkers(|starts|, |ends|)); }
    if starts[0] >= ends[0] { return Err(MalformedMarkers(starts[0], ends[0])); }
    return Ok(Some(Pair(starts[0], ends[0])));
  }

  method FindFirstAdvEntryLine(lines: seq<string>) returns (r: int)
    ensures r == FirstEntry(KindOf, lines)
  {
    for i := 0 to |lines|
      invariant forall j | 0 <= j < i :: KindOf(lines[j]) != AdvEntry
    {
      KindFacts(lines[i]);
      if IsAdvEntry(lines[i]) { return i; }
    }
    return -1;
  }

  method FindLastAdvEntryLine(lines: seq<string>) returns (r: int)
    ensures r == LastEntry(KindOf, lines)
  {
    r := -1;
    for i := 0 to |lines|
      invariant -1 <= r < i
      invariant r >= 0 ==> KindOf(lines[r]) == AdvEntry
      invariant forall j | r < j < i :: KindOf(lines[j]) != AdvEntry
    {
      KindFacts(lines[i]);
      if IsAdvEntry(lines[i]) { r := i; }
    }
  }

  method GroupGeneratedBlock(generatedLines: seq<string>) returns (groups: seq<Group>)
    ensures groups == GroupsFrom(KindOf, generatedLines, [])
  {
    groups := [];
    var currentComments: seq<string> := [];
    for i := 0 to |generatedLines|
      invariant GroupsFrom(KindOf, generatedLines, []) ==
                groups + GroupsFrom(KindOf, generatedLines[i..], currentComments)
    {
      var line := generatedLines[i];
      KindFacts(line);
      GroupsStep(KindOf, generatedLines, i, currentComments);
      if IsAdvEntry(line) {
        Sequences.Assoc(groups, [Group(currentComments, line)], GroupsFrom(KindOf, generatedLines[i + 1..], []));
        groups := groups + [Group(currentComments, line)];
        currentComments := [];
      } else {
        currentComments := currentComments + [line];
      }
    }
  }

  method MergeRegionWithGenerated(originalRegion: seq<string>, generatedBlock: string) returns (merged: seq<string>)
    ensures merged == Merge(KindOf, originalRegion, GroupsFrom(KindOf, BlockLines(generatedBlock), []))
  {
    var generatedLines := Split(generatedBlock);
    if |generatedLines| > 0 && generatedLines[|generatedLines| - 1] == "" {
      generatedLines := generatedLines[..|generatedLines| - 1];
    }
    var groups := GroupGeneratedBlock(generatedLines);
    var groupIndex := 0;
    merged := [];
    ghost var whole := Merge(KindOf, originalRegion, groups);
    for i := 0 to |originalRegion|
      invariant groupIndex <= |groups|
      invariant whole == merged + Merge(KindOf, originalRegion[i..], groups[groupIndex..])
    {
      var line := originalRegion[i];
      KindFacts(line);
      MergeStep(KindOf, originalRegion, i, groups, groupIndex);
      if IsAdvEntry(line) {
        if groupIndex < |groups| {
          var group := groups[groupIndex];
          Sequences.Assoc(merged, GroupLines(group), Merge(KindOf, originalRegion[i + 1..], groups[groupIndex + 1..]));
          merged := merged + (group.comments + [group.entry]);
          groupIndex := groupIndex + 1;
        }
      } else if line !in MANAGED_COMMENTS {
        Sequences.Assoc(merged, [line], Merge(KindOf, originalRegion[i + 1..], groups[groupIndex..]));
        merged := merged + [line];
      }
    }
    while groupIndex < |groups|
      invariant groupIndex <= |groups|
      invariant whole == merged + Flatten(groups[groupIndex..])
    {
      var group := groups[groupIndex];
      FlattenStep(groups, groupIndex);
      Sequences.Assoc(merged, GroupLines(group), Flatten(groups[groupIndex + 1..]));
      merged := merged + (group.comments + [group.entry]);
      groupIndex := groupIndex + 1;
    }
  }

  // ---------------------------------------------------------------- the note

  function InjectText(content: string): string {
    var ls := Split(content);
    if FirstFrom(IsNote, ls, 0) < 0 then content else Join(Inject(IsFence, IsNote, FullNote, ls))
  }

  method FindHeaderEnd(lines: seq<string>) returns (fmEnd: int)
    ensures fmEnd == HeaderEnd(IsFence, lines)
  {
    fmEnd := -1;
    if |lines| > 0 && IsFence(lines[0]) {
      for i := 1 to |lines|
        invariant fmEnd == -1
        invariant FirstFrom(IsFence, lines, 1) == FirstFrom(IsFence, lines, i)
      {
        if IsFence(lines[i]) { return i; }
      }
    }
  }

  method FindNote(lines: seq<string>) returns (noteIdx: int)
    ensures noteIdx == FirstFrom(IsNote, lines, 0)
  {
    for i := 0 to |lines|
      invariant FirstFrom(IsNote, lines, 0) == FirstFrom(IsNote, lines, i)
    {
      if IsNote(lines[i]) { return i; }
    }
    return -1;
  }

  /** Moves a note out of the header to behind it, or rewrites it where it stands. */
  method PlaceNote(ghost fence: Test, ghost note: Test, ghost full: string -> string, lines: seq<string>, noteIdx: nat,
                   fmEnd: int, fullNote: string) returns (r: seq<string>)
    requires noteIdx == FirstFrom(note, lines, 0) && fmEnd == HeaderEnd(fence, lines) && noteIdx != fmEnd
    requires noteIdx < |lines| && fullNote == full(lines[noteIdx])
    ensures r == Inject(fence, note, full, lines)
  {
    if fmEnd >= 0 && noteIdx <= fmEnd {
      var withoutNote := lines[..noteIdx] + lines[noteIdx + 1..];
      var adjustedFmEnd := if noteIdx < fmEnd then fmEnd - 1 else fmEnd;
      InjectInHeader(fence, note, full, lines);
      return withoutNote[..adjustedFmEnd + 1] + [fullNote] + withoutNote[adjustedFmEnd + 1..];
    }
    InjectInBody(fence, note, full, lines);
    return lines[noteIdx := fullNote];
  }

  method InjectTier4InvokeRoutingNote(content: string) returns (r: string)
    ensures r == InjectText(content)
  {
    var lines := Split(content);
    var fmEnd := FindHeaderEnd(lines);
    var noteIdx := FindNote(lines);
    if noteIdx < 0 { return content; }
    if fmEnd >= 0 { NoteIsNoFence(lines, noteIdx, fmEnd); }
    lines := PlaceNote(IsFence, IsNote, FullNote, lines, noteIdx, fmEnd, FullNote(lines[noteIdx]));
    return Join(lines);
  }

  lemma {:induction false} NoteIsNoFence(lines: seq<string>, i: nat, j: nat)
    requires i < |lines| && j < |lines| && IsNote(lines[i]) && IsFence(lines[j])
    ensures i != j
  {
    ProgramNoteLaws();
  }

  // ---------------------------------------------------------------- one file

  function LinesOfBlock(block: Result<string>): Result<seq<string>> {
    match block
    case Err(e) => Err(e)
    case Ok(text) => Ok(BlockLines(text))
  }

  function Generate(policies: seq<Policy>, content: string, agent: string): Result<string> {
    match Regenerate(KindOf, Split(content), LinesOfBlock(Block(policies, agent)))
    case Err(e) => Err(e)
    case Ok(ls) => Ok(InjectText(Join(ls)))
  }

  method GenerateManifestContent(policies: seq<Policy>, content: string, agent: string) returns (r: Result<string>)
    ensures r == Generate(policies, content, agent)
  {
    var lines := Split(content);
    var markers := FindMarkerLines(lines);
    PairInRange(KindOf, lines);
    if markers.Err? { return Err(markers.error); }
    if markers.value.Some? {
      r := RewriteMarked(policies, lines, markers.value.value, agent);
      return;
    }
    var first := FindFirstAdvEntryLine(lines);
    var last := FindLastAdvEntryLine(lines);
    if first == -1 || last == -1 { return Err(NoEntryRegion); }
    r := WrapEntries(policies, lines, first, last, agent);
  }

  lemma {:induction false} RewrittenIs(lines: seq<string>, p: Pair, generated: seq<string>, merged: seq<string>,
                                       rewritten: seq<string>)
    requires p.start < p.end < |lines|
    requires merged == Merge(KindOf, lines[p.start + 1..p.end], GroupsFrom(KindOf, generated, []))
    requires rewritten == lines[..p.start + 1] + merged + lines[p.end..]
    ensures rewritten == Replaced(KindOf, lines, p, generated)
  {
  }

  method RewriteMarked(policies: seq<Policy>, lines: seq<string>, p: Pair, agent: string) returns (r: Result<string>)
    requires p.start < p.end < |lines|
    ensures var block := Block(policies, agent);
            r == if block.Err? then Err(block.error)
                 else Ok(InjectText(Join(Replaced(KindOf, lines, p, BlockLines(block.value)))))
  {
    var originalRegion := lines[p.start + 1..p.end];
    var generated := GenerateAdvToolsBlock(policies, agent);
    if generated.Err? { return Err(generated.error); }
    var merged := MergeRegionWithGenerated(originalRegion, generated.value);
    var rewritten := lines[..p.start + 1] + merged + lines[p.end..];
    RewrittenIs(lines, p, BlockLines(generated.value), merged, rewritten);
    var text := InjectTier4InvokeRoutingNote(Join(rewritten));
    return Ok(text);
  }

  method WrapEntries(policies: seq<Policy>, lines: seq<string>, first: nat, last: nat, agent: string)
    returns (r: Result<string>)
    requires first <= last < |lines|
    ensures var block := Block(policies, agent);
            r == if block.Err? then Err(block.error)
                 else Ok(InjectText(Join(Wrapped(KindOf, lines, first, last, BlockLines(block.value)))))
  {
    var originalRegion := lines[first..last + 1];
    var generated := GenerateAdvToolsBlock(policies, agent);
    if generated.Err? { return Err(generated.error); }
    var merged := MergeRegionWithGenerated(originalRegion, generated.value);
    var before, after := lines[..first], lines[last + 1..];
    assert before + [BLOCK_START] + merged + [BLOCK_END] + after ==
           Wrapped(KindOf, lines, first, last, BlockLines(generated.value));
    var text := InjectTier4InvokeRoutingNote(Join(before + [BLOCK_START] + merged + [BLOCK_END] + after));
    return Ok(text);
  }
}
