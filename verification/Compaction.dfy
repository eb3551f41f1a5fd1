/** Compaction of a prompt's messages: blank drafts dropped, recent messages kept, old oversized texts replaced. */
module Compaction {
  import opened Options
  import Lines
  import Sequences

  const MAX_TEXT := 24000
  const EXCERPT := 2000
  const FALLBACK_EXCERPT := 500
  const RECENCY_PROTECTED := 6

  // ---------------------------------------------------------------- messages

  /** A part that is no tool call is never touched. */
  datatype Part =
    | OtherPart(body: int)
    | Tool(tool: Option<string>, callId: Option<string>, stateOutput: Option<string>, output: Option<string>)

  datatype Diff = OtherDiff(body: int) | Diff(file: Option<string>, patch: string)

  datatype Info = NoInfo | Info(role: string, finished: bool, diffs: Option<seq<Diff>>)

  /** A place of the array: a hole, or a message. */
  datatype Entry = Hole | Message(info: Info, parts: Option<seq<Part>>)

  const ASSISTANT: string := "assistant"

  predicate IsBlank(e: Entry) {
    && e.Message? && e.info.Info? && e.info.role == ASSISTANT
    && !(e.parts.Some? && |e.parts.value| > 0) && !e.info.finished
  }

  // ---------------------------------------------------------------- replacement texts

  function Digit(n: nat): char
    requires n < 10
  {
    (48 + n) as char
  }

  function Decimal(n: nat): (r: string)
    ensures r != []
  {
    if n < 10 then [Digit(n)] else Decimal(n / 10) + [Digit(n % 10)]
  }

  function First(text: string, n: nat): string {
    if |text| <= n then text else text[..n]
  }

  function Last(text: string, n: nat): string {
    if |text| <= n then text else text[|text| - n..]
  }

  const DIFF_HEAD: string := "[ADV:DIFF_TRUNCATED] "
  const PRODUCED: string := " produced "
  const OMITTED: string := " chars. Full content omitted from model prompt to keep the session resumable."
  const FIRST_LINE: string := "--- first 2000 chars ---"
  const LAST_LINE: string := "--- last 2000 chars ---"

  /** A patch keeps its two ends. */
  function CompactLargeText(source: string, text: string): string {
    DIFF_HEAD + source + PRODUCED + Decimal(|text|) + OMITTED + Lines.NEWLINE + FIRST_LINE + Lines.NEWLINE
    + First(text, EXCERPT) + Lines.NEWLINE + LAST_LINE + Lines.NEWLINE + Last(text, EXCERPT)
  }

  const DROP_HEAD: string := "[ADV:OUTPUT_DROPPED] "
  const REMOVED: string := " chars. Full content removed from model prompt to keep the session resumable."

  function DropToolOutput(source: string, text: string): string {
    DROP_HEAD + source + PRODUCED + Decimal(|text|) + REMOVED
  }

  const PERSISTED_HEAD: string := "[ADV:FALLBACK_RESULT_PERSISTED] "
  const RETURNED: string := " returned "
  const CHARS: string := " chars ("
  const ELIDED: string := " elided). Full content at "
  const FIRST: string := ". First "
  const CHARS_COLON: string := " chars: "

  function FallbackMarker(source: string, text: string, path: string): string {
    var shown := if |text| < FALLBACK_EXCERPT then |text| else FALLBACK_EXCERPT;
    PERSISTED_HEAD + source + RETURNED + Decimal(|text|) + CHARS + Decimal(|text| - shown) + ELIDED + path
    + FIRST + Decimal(shown) + CHARS_COLON + First(text, FALLBACK_EXCERPT)
  }

  /** Where the durable sink put a text, or nothing when it could not. */
  type Sink = string -> Option<string>

  const TASK: string := "task"
  const SKILL: string := "skill"
  const TOOL_OUTPUT: string := "tool output"
  const SUMMARY_DIFF: string := "summary diff"

  predicate IsProtectedTool(name: string) {
    Lines.Lower(name) == TASK || Lines.Lower(name) == SKILL
  }

  function ReplaceOversized(sink: Sink, name: string, output: string): string {
    if IsProtectedTool(name) && sink(output).Some? then FallbackMarker(name, output, sink(output).value)
    else DropToolOutput(name, output)
  }

  predicate Oversized(text: Option<string>) {
    text.Some? && |text.value| > MAX_TEXT
  }

  function NewText(sink: Sink, name: string, text: Option<string>): Option<string> {
    if Oversized(text) then Some(ReplaceOversized(sink, name, text.value)) else text
  }

  function ToolName(p: Part): string
    requires p.Tool?
  {
    if p.tool.Some? then p.tool.value else if p.callId.Some? then p.callId.value else TOOL_OUTPUT
  }

  // ---------------------------------------------------------------- one message

  function NewPart(sink: Sink, p: Part): Part {
    if p.Tool? then
      p.(stateOutput := NewText(sink, ToolName(p), p.stateOutput), output := NewText(sink, ToolName(p), p.output))
    else p
  }

  predicate OversizedPart(p: Part) {
    p.Tool? && (Oversized(p.stateOutput) || Oversized(p.output))
  }

  method CompactToolPart(sink: Sink, part: Part) returns (r: Part, compacted: bool)
    ensures r == NewPart(sink, part) && compacted == OversizedPart(part)
  {
    r, compacted := part, false;
    if part.OtherPart? { return; }
    var name := ToolName(part);
    if part.stateOutput.Some? && |part.stateOutput.value| > MAX_TEXT {
      r := r.(stateOutput := Some(ReplaceOversized(sink, name, part.stateOutput.value)));
      compacted := true;
    }
    if part.output.Some? && |part.output.value| > MAX_TEXT {
      r := r.(output := Some(ReplaceOversized(sink, name, part.output.value)));
      compacted := true;
    }
  }

  predicate OversizedDiff(d: Diff) {
    d.Diff? && |d.patch| > MAX_TEXT
  }

  function FileName(d: Diff): string
    requires d.Diff?
  {
    if d.file.Some? then d.file.value else SUMMARY_DIFF
  }

  function NewDiff(d: Diff): Diff {
    if OversizedDiff(d) then d.(patch := CompactLargeText(FileName(d), d.patch)) else d
  }

  function NewParts(sink: Sink, parts: seq<Part>): (r: seq<Part>)
    ensures |r| == |parts|
  {
    seq(|parts|, i requires 0 <= i < |parts| => NewPart(sink, parts[i]))
  }

  function NewDiffs(diffs: seq<Diff>): (r: seq<Diff>)
    ensures |r| == |diffs|
  {
    seq(|diffs|, i requires 0 <= i < |diffs| => NewDiff(diffs[i]))
  }

  function CountParts(parts: seq<Part>): nat {
    if parts == [] then 0 else CountParts(parts[..|parts| - 1]) + if OversizedPart(parts[|parts| - 1]) then 1 else 0
  }

  function CountDiffs(diffs: seq<Diff>): nat {
    if diffs == [] then 0 else CountDiffs(diffs[..|diffs| - 1]) + if OversizedDiff(diffs[|diffs| - 1]) then 1 else 0
  }

  function DiffsOf(e: Entry): seq<Diff> {
    if e.Message? && e.info.Info? && e.info.diffs.Some? then e.info.diffs.value else []
  }

  function PartsOf(e: Entry): seq<Part> {
    if e.Message? && e.parts.Some? then e.parts.value else []
  }

  /** A message with every oversized text replaced. */
  function Compacted(sink: Sink, e: Entry): Entry {
    match e
    case Hole => Hole
    case Message(info, parts) =>
      Message(if info.Info? && info.diffs.Some? then info.(diffs := Some(NewDiffs(info.diffs.value))) else info,
              if parts.Some? then Some(NewParts(sink, parts.value)) else None)
  }

  method CompactDiff(d: Diff) returns (r: Diff, compacted: bool)
    ensures r == NewDiff(d) && compacted == OversizedDiff(d)
  {
    r, compacted := d, false;
    if d.Diff? && |d.patch| > MAX_TEXT { return d.(patch := CompactLargeText(FileName(d), d.patch)), true; }
  }

  lemma {:induction false} NextDiff(diffs: seq<Diff>, i: nat)
    requires i < |diffs|
    ensures (NewDiffs(diffs[..i]) + diffs[i..])[i := NewDiff(diffs[i])] == NewDiffs(diffs[..i + 1]) + diffs[i + 1..]
    ensures (NewDiffs(diffs[..i]) + diffs[i..])[i] == diffs[i]
    ensures CountDiffs(diffs[..i + 1]) == CountDiffs(diffs[..i]) + if OversizedDiff(diffs[i]) then 1 else 0
  {
    assert diffs[..i + 1][..i] == diffs[..i];
  }

  method CompactSummaryDiffs(diffs: seq<Diff>) returns (r: seq<Diff>, compacted: nat)
    ensures r == NewDiffs(diffs) && compacted == CountDiffs(diffs)
  {
    r, compacted := diffs, 0;
    assert NewDiffs(diffs[..0]) + diffs[0..] == diffs;
    for i := 0 to |diffs|
      invariant r == NewDiffs(diffs[..i]) + diffs[i..]
      invariant compacted == CountDiffs(diffs[..i])
    {
      NextDiff(diffs, i);
      var diff, changed := CompactDiff(r[i]);
      r := r[i := diff];
      if changed { compacted := compacted + 1; }
    }
    assert diffs[..|diffs|] == diffs && diffs[|diffs|..] == [] && NewDiffs(diffs) + [] == NewDiffs(diffs);
  }

  method CompactParts(sink: Sink, parts: seq<Part>) returns (r: seq<Part>, compacted: nat)
    ensures r == NewParts(sink, parts) && compacted == CountParts(parts)
  {
    r, compacted := [], 0;
    for i := 0 to |parts|
      invariant r == NewParts(sink, parts)[..i]
      invariant compacted == CountParts(parts[..i])
    {
      assert parts[..i + 1][..i] == parts[..i];
      var part, changed := CompactToolPart(sink, parts[i]);
      r := r + [part];
      if changed { compacted := compacted + 1; }
    }
    assert parts[..|parts|] == parts;
  }

  // ---------------------------------------------------------------- the backward pass

  datatype Outcome = Outcome(messages: seq<Entry>, droppedBlank: nat, compactedToolOutputs: nat, compactedDiffs: nat)

  /** The pass over the first messages, `recent` messages behind them having been protected. */
  function Pass(sink: Sink, entries: seq<Entry>, recent: nat): Outcome {
    if entries == [] then Outcome([], 0, 0, 0)
    else
      var init, last := entries[..|entries| - 1], entries[|entries| - 1];
      if last == Hole then
        var o := Pass(sink, init, recent); o.(messages := o.messages + [Hole])
      else if IsBlank(last) then
        var o := Pass(sink, init, recent); o.(droppedBlank := o.droppedBlank + 1)
      else if recent < RECENCY_PROTECTED then
        var o := Pass(sink, init, recent + 1); o.(messages := o.messages + [last])
      else
        var o := Pass(sink, init, recent);
        o.(messages := o.messages + [Compacted(sink, last)],
           compactedToolOutputs := o.compactedToolOutputs + CountParts(PartsOf(last)),
           compactedDiffs := o.compactedDiffs + CountDiffs(DiffsOf(last)))
  }

  method CompactMessage(sink: Sink, e: Entry) returns (r: Entry, tools: nat, diffs: nat)
    requires e.Message?
    ensures r == Compacted(sink, e) && tools == CountParts(PartsOf(e)) && diffs == CountDiffs(DiffsOf(e))
  {
    r, tools, diffs := e, 0, 0;
    if e.info.Info? && e.info.diffs.Some? {
      var newDiffs;
      newDiffs, diffs := CompactSummaryDiffs(e.info.diffs.value);
      r := r.(info := e.info.(diffs := Some(newDiffs)));
    }
    if e.parts.Some? {
      var newParts;
      newParts, tools := CompactParts(sink, e.parts.value);
      r := r.(parts := Some(newParts));
    }
  }

  /** What one message adds: what stays of it, and the counters. */
  datatype Turn = Turn(stays: seq<Entry>, recent: nat, dropped: nat, tools: nat, diffs: nat)

  function TurnOf(sink: Sink, e: Entry, recent: nat): Turn {
    if e.Hole? then Turn([e], recent, 0, 0, 0)
    else if IsBlank(e) then Turn([], recent, 1, 0, 0)
    else if recent < RECENCY_PROTECTED then Turn([e], recent + 1, 0, 0, 0)
    else Turn([Compacted(sink, e)], recent, 0, CountParts(PartsOf(e)), CountDiffs(DiffsOf(e)))
  }

  class Prompt {
    var messages: seq<Entry>

    constructor (messages: seq<Entry>)
      ensures this.messages == messages
    {
      this.messages := messages;
    }

    /** One backward walk: blank drafts are spliced out, older messages overwritten where they stand. */
    method CompactPromptMessages(sink: Sink) returns (droppedBlank: nat, compactedToolOutputs: nat, compactedDiffs: nat)
      modifies this
      ensures Outcome(messages, droppedBlank, compactedToolOutputs, compactedDiffs) == Pass(sink, old(messages), 0)
    {
      droppedBlank, compactedToolOutputs, compactedDiffs := 0, 0, 0;
      var recentProtected := 0;
      var index := |messages| - 1;
      ghost var all := messages;
      ghost var done: seq<Entry> := [];
      assert all[..index + 1] == all;
      while index >= 0
        invariant -1 <= index < |all|
        invariant messages == all[..index + 1] + done
        invariant Pass(sink, all, 0) ==
                  Behind(Pass(sink, all[..index + 1], recentProtected), done, droppedBlank,
                         compactedToolOutputs, compactedDiffs)
      {
        ghost var init, e := all[..index], all[index];
        assert all[..index + 1] == init + [e];
        StepBack(sink, init, e, recentProtected, done, droppedBlank, compactedToolOutputs, compactedDiffs);
        ghost var stays := TurnOf(sink, e, recentProtected).stays;
        var dropped, tools, diffs;
        recentProtected, dropped, tools, diffs := VisitMessage(sink, index, recentProtected, init, e, done);
        done := stays + done;
        droppedBlank := droppedBlank + dropped;
        compactedToolOutputs := compactedToolOutputs + tools;
        compactedDiffs := compactedDiffs + diffs;
        index := index - 1;
      }
    }

    /** One place of the array. */
    method VisitMessage(sink: Sink, index: nat, recent: nat, ghost init: seq<Entry>, ghost e: Entry,
                        ghost done: seq<Entry>)
      returns (stillRecent: nat, dropped: nat, tools: nat, diffs: nat)
      requires messages == init + [e] + done && |init| == index
      modifies this
      ensures var t := TurnOf(sink, e, recent);
              && messages == init + (t.stays + done)
              && stillRecent == t.recent && dropped == t.dropped && tools == t.tools && diffs == t.diffs
    {
      stillRecent, dropped, tools, diffs := recent, 0, 0, 0;
      var message := messages[index];
      PlaceInArray(init, message, done);
      if message.Hole? { return; }
      if IsBlank(message) {
        messages := messages[..index] + messages[index + 1..];
        dropped := 1;
        assert [] + done == done;
        return;
      }
      if recent < RECENCY_PROTECTED {
        stillRecent := recent + 1;
        return;
      }
      var replaced;
      replaced, tools, diffs := CompactMessage(sink, message);
      Overwrite(init, message, done, replaced);
      messages := messages[index := replaced];
    }
  }

  /** Splicing one place out of an array. */
  lemma {:induction false} PlaceInArray(init: seq<Entry>, e: Entry, done: seq<Entry>)
    ensures var a := init + [e] + done; var at := |init|;
            a[..at] + a[at + 1..] == init + done && a == init + ([e] + done)
  {
  }

  lemma {:induction false} Overwrite(init: seq<Entry>, e: Entry, done: seq<Entry>, x: Entry)
    ensures (init + [e] + done)[|init| := x] == init + ([x] + done)
  {
  }

  /** An outcome with what the walk has already done behind it. */
  function Behind(o: Outcome, done: seq<Entry>, dropped: nat, tools: nat, diffs: nat): Outcome {
    Outcome(o.messages + done, o.droppedBlank + dropped, o.compactedToolOutputs + tools, o.compactedDiffs + diffs)
  }

  lemma {:induction false} StepBack(sink: Sink, init: seq<Entry>, e: Entry, recent: nat, done: seq<Entry>, dropped: nat,
                                    tools: nat, diffs: nat)
    ensures var t := TurnOf(sink, e, recent);
            Behind(Pass(sink, init + [e], recent), done, dropped, tools, diffs) ==
            Behind(Pass(sink, init, t.recent), t.stays + done, dropped + t.dropped, tools + t.tools, diffs + t.diffs)
  {
    assert (init + [e])[..|init|] == init;
    var t := TurnOf(sink, e, recent);
    var o := Pass(sink, init, t.recent);
    assert o.messages + t.stays + done == o.messages + (t.stays + done);
    if t.stays == [] { assert [] + done == done; }
  }

  // ---------------------------------------------------------------- what the pass does

  function Kept(entries: seq<Entry>): seq<Entry> {
    if entries == [] then []
    else Kept(entries[..|entries| - 1]) + if IsBlank(entries[|entries| - 1]) then [] else [entries[|entries| - 1]]
  }

  /** How many messages, holes aside. */
  function Messages(entries: seq<Entry>): nat {
    if entries == [] then 0 else Messages(entries[..|entries| - 1]) + if entries[|entries| - 1].Hole? then 0 else 1
  }

  /** How many messages come after a position. */
  function After(kept: seq<Entry>, i: nat): nat
    requires i < |kept|
  {
    Messages(kept[i + 1..])
  }

  /** A message is recent when fewer than six messages come after it. */
  predicate Recent(kept: seq<Entry>, i: nat, recent: nat)
    requires i < |kept|
  {
    recent + After(kept, i) < RECENCY_PROTECTED
  }

  function Expected(sink: Sink, kept: seq<Entry>, recent: nat): (r: seq<Entry>)
    ensures |r| == |kept|
  {
    seq(|kept|, i requires 0 <= i < |kept| =>
      if kept[i].Hole? || Recent(kept, i, recent) then kept[i] else Compacted(sink, kept[i]))
  }

  lemma {:induction false} MessagesAppend(a: seq<Entry>, e: Entry)
    ensures Messages(a + [e]) == Messages(a) + if e.Hole? then 0 else 1
  {
    assert (a + [e])[..|a|] == a;
  }

  lemma {:induction false} ExpectedNext(sink: Sink, kept: seq<Entry>, e: Entry, recent: nat)
    ensures Expected(sink, kept + [e], recent) ==
            Expected(sink, kept, recent + if e.Hole? then 0 else 1)
            + [if e.Hole? || recent < RECENCY_PROTECTED then e else Compacted(sink, e)]
  {
    var all := kept + [e];
    forall i | 0 <= i < |kept| ensures After(all, i) == After(kept, i) + if e.Hole? then 0 else 1 {
      assert all[i + 1..] == kept[i + 1..] + [e];
      MessagesAppend(kept[i + 1..], e);
    }
    assert all[|kept| + 1..] == [];
  }

  /** Once six are protected, one more message behind changes nothing. */
  lemma {:induction false} ExpectedSaturates(sink: Sink, kept: seq<Entry>, recent: nat)
    requires recent >= RECENCY_PROTECTED
    ensures Expected(sink, kept, recent) == Expected(sink, kept, recent + 1)
  {
  }

  lemma {:induction false} PassNext(sink: Sink, init: seq<Entry>, last: Entry, recent: nat)
    ensures var t, o := TurnOf(sink, last, recent), Pass(sink, init + [last], recent);
            && o.messages == Pass(sink, init, t.recent).messages + t.stays
            && o.droppedBlank == Pass(sink, init, t.recent).droppedBlank + t.dropped
  {
    assert (init + [last])[..|init|] == init;
    var before := Pass(sink, init, recent).messages;
    assert before + [] == before;
  }

  lemma {:induction false} KeptNext(sink: Sink, init: seq<Entry>, last: Entry, recent: nat)
    ensures var t := TurnOf(sink, last, recent);
            Expected(sink, Kept(init + [last]), recent) == Expected(sink, Kept(init), t.recent) + t.stays
  {
    assert (init + [last])[..|init|] == init;
    var kept := Kept(init);
    if IsBlank(last) {
      assert Kept(init + [last]) == kept;
      assert Expected(sink, kept, recent) + [] == Expected(sink, kept, recent);
    } else {
      ExpectedNext(sink, kept, last, recent);
      if recent >= RECENCY_PROTECTED { ExpectedSaturates(sink, kept, recent); }
    }
  }

  /**
   * The array ends as the old non-blank entries in order, the last six messages untouched and each earlier one
   * compacted; what was dropped and what remains add up.
   */
  lemma {:induction false} PassMeans(sink: Sink, entries: seq<Entry>, recent: nat)
    ensures Pass(sink, entries, recent).messages == Expected(sink, Kept(entries), recent)
    ensures Pass(sink, entries, recent).droppedBlank + |Pass(sink, entries, recent).messages| == |entries|
    decreases |entries|
  {
    if entries != [] {
      var init, last := entries[..|entries| - 1], entries[|entries| - 1];
      assert entries == init + [last];
      PassMeans(sink, init, TurnOf(sink, last, recent).recent);
      PassNext(sink, init, last, recent);
      KeptNext(sink, init, last, recent);
    }
  }

  // ---------------------------------------------------------------- the second pass

  lemma {:induction false} CompactedStaysVisible(sink: Sink, e: Entry)
    ensures IsBlank(Compacted(sink, e)) == IsBlank(e) && Compacted(sink, e).Hole? == e.Hole?
  {
  }

  lemma {:induction false} KeptHasNoBlank(entries: seq<Entry>)
    ensures forall i | 0 <= i < |Kept(entries)| :: !IsBlank(Kept(entries)[i])
  {
    if entries != [] { KeptHasNoBlank(entries[..|entries| - 1]); }
  }

  lemma {:induction false} NoBlankIsKept(entries: seq<Entry>)
    requires forall i | 0 <= i < |entries| :: !IsBlank(entries[i])
    ensures Kept(entries) == entries
    decreases |entries|
  {
    if entries != [] {
      NoBlankIsKept(entries[..|entries| - 1]);
      assert entries == entries[..|entries| - 1] + [entries[|entries| - 1]];
    }
  }

  lemma {:induction false} SameHolesSameCount(a: seq<Entry>, b: seq<Entry>)
    requires |a| == |b| && forall i | 0 <= i < |a| :: a[i].Hole? == b[i].Hole?
    ensures Messages(a) == Messages(b)
    decreases |a|
  {
    if a != [] { SameHolesSameCount(a[..|a| - 1], b[..|b| - 1]); }
  }

  ghost predicate PartsFit(parts: seq<Part>) {
    forall i | 0 <= i < |parts| :: !OversizedPart(parts[i])
  }

  ghost predicate DiffsFit(diffs: seq<Diff>) {
    forall i | 0 <= i < |diffs| :: !OversizedDiff(diffs[i])
  }

  /** Every text of a message is within the limit. */
  ghost predicate Settled(e: Entry) {
    PartsFit(PartsOf(e)) && DiffsFit(DiffsOf(e))
  }

  lemma {:induction false} CountsWhenSettled(e: Entry)
    ensures Settled(e) <==> CountParts(PartsOf(e)) == 0 && CountDiffs(DiffsOf(e)) == 0
  {
    NoOversizedParts(PartsOf(e));
    NoOversizedDiffs(DiffsOf(e));
  }

  lemma {:induction false} NoOversizedParts(parts: seq<Part>)
    ensures CountParts(parts) == 0 <==> PartsFit(parts)
    decreases |parts|
  {
    if parts != [] {
      var n := |parts| - 1;
      NoOversizedParts(parts[..n]);
      assert forall i | 0 <= i < n :: parts[..n][i] == parts[i];
    }
  }

  lemma {:induction false} NoOversizedDiffs(diffs: seq<Diff>)
    ensures CountDiffs(diffs) == 0 <==> DiffsFit(diffs)
    decreases |diffs|
  {
    if diffs != [] {
      var n := |diffs| - 1;
      NoOversizedDiffs(diffs[..n]);
      assert forall i | 0 <= i < n :: diffs[..n][i] == diffs[i];
    }
  }

  lemma {:induction false} SettledParts(sink: Sink, parts: seq<Part>)
    requires PartsFit(parts)
    ensures NewParts(sink, parts) == parts
  {
    forall i | 0 <= i < |parts| ensures NewPart(sink, parts[i]) == parts[i] {
      var p := parts[i];
      assert !OversizedPart(p);
    }
  }

  lemma {:induction false} SettledDiffs(diffs: seq<Diff>)
    requires DiffsFit(diffs)
    ensures NewDiffs(diffs) == diffs
  {
  }

  lemma {:induction false} SettledStays(sink: Sink, e: Entry)
    requires Settled(e)
    ensures Compacted(sink, e) == e
  {
    if e.Message? {
      if e.parts.Some? { SettledParts(sink, e.parts.value); }
      if e.info.Info? && e.info.diffs.Some? { SettledDiffs(e.info.diffs.value); }
    }
  }

  /** The messages a pass would compact, walked backward, are all settled. */
  ghost predicate Quiet(kept: seq<Entry>, recent: nat) {
    kept == []
    || (var init, last := kept[..|kept| - 1], kept[|kept| - 1];
        if last.Hole? then Quiet(init, recent)
        else if recent < RECENCY_PROTECTED then Quiet(init, recent + 1)
        else Settled(last) && Quiet(init, recent))
  }

  lemma {:induction false} QuietCounts(sink: Sink, kept: seq<Entry>, recent: nat)
    requires forall i | 0 <= i < |kept| :: !IsBlank(kept[i])
    ensures var o := Pass(sink, kept, recent); o.compactedToolOutputs == 0 && o.compactedDiffs == 0 <==>
            Quiet(kept, recent)
    decreases |kept|
  {
    if kept != [] {
      var init, last := kept[..|kept| - 1], kept[|kept| - 1];
      QuietCounts(sink, init, recent);
      QuietCounts(sink, init, recent + 1);
      CountsWhenSettled(last);
    }
  }

  ghost predicate AllOlderSettled(kept: seq<Entry>, recent: nat) {
    forall i | 0 <= i < |kept| && !kept[i].Hole? && !Recent(kept, i, recent) :: Settled(kept[i])
  }

  lemma {:induction false} OlderNext(init: seq<Entry>, last: Entry, recent: nat)
    ensures AllOlderSettled(init + [last], recent) <==>
            AllOlderSettled(init, recent + if last.Hole? then 0 else 1)
            && (last.Hole? || recent < RECENCY_PROTECTED || Settled(last))
  {
    var kept, n := init + [last], |init|;
    forall i | 0 <= i < n ensures After(kept, i) == After(init, i) + if last.Hole? then 0 else 1 {
      assert kept[i + 1..] == init[i + 1..] + [last];
      MessagesAppend(init[i + 1..], last);
    }
    assert kept[n + 1..] == [] && kept[n] == last && forall i | 0 <= i < n :: kept[i] == init[i];
  }

  lemma {:induction false} OlderSaturates(kept: seq<Entry>, recent: nat)
    requires recent >= RECENCY_PROTECTED
    ensures AllOlderSettled(kept, recent) <==> AllOlderSettled(kept, recent + 1)
  {
    assert forall i | 0 <= i < |kept| :: !Recent(kept, i, recent) && !Recent(kept, i, recent + 1);
  }

  lemma {:induction false} QuietNext(init: seq<Entry>, last: Entry, recent: nat)
    ensures Quiet(init + [last], recent) <==>
            if last.Hole? then Quiet(init, recent)
            else if recent < RECENCY_PROTECTED then Quiet(init, recent + 1)
            else Settled(last) && Quiet(init, recent)
  {
    assert (init + [last])[..|init|] == init;
  }

  lemma {:induction false} QuietMeans(kept: seq<Entry>, recent: nat)
    ensures Quiet(kept, recent) <==> AllOlderSettled(kept, recent)
    decreases |kept|
  {
    if kept != [] {
      var init, last := kept[..|kept| - 1], kept[|kept| - 1];
      assert kept == init + [last];
      QuietNext(init, last, recent);
      OlderNext(init, last, recent);
      if last.Hole? || recent >= RECENCY_PROTECTED { QuietMeans(init, recent); }
      if !last.Hole? { QuietMeans(init, recent + 1); }
      if recent >= RECENCY_PROTECTED { OlderSaturates(init, recent); }
    }
  }

  lemma {:induction false} ExpectedStaysVisible(sink: Sink, kept: seq<Entry>)
    ensures var r := Expected(sink, kept, 0);
            forall i | 0 <= i < |r| :: IsBlank(r[i]) == IsBlank(kept[i]) && r[i].Hole? == kept[i].Hole?
  {
    forall i | 0 <= i < |kept|
      ensures IsBlank(Expected(sink, kept, 0)[i]) == IsBlank(kept[i])
      ensures Expected(sink, kept, 0)[i].Hole? == kept[i].Hole?
    {
      CompactedStaysVisible(sink, kept[i]);
    }
  }

  lemma {:induction false} SameRecent(a: seq<Entry>, b: seq<Entry>)
    requires |a| == |b| && forall i | 0 <= i < |a| :: a[i].Hole? == b[i].Hole?
    ensures forall i | 0 <= i < |a| :: Recent(a, i, 0) <==> Recent(b, i, 0)
  {
    forall i | 0 <= i < |a| ensures Recent(a, i, 0) <==> Recent(b, i, 0) {
      SameHolesSameCount(a[i + 1..], b[i + 1..]);
    }
  }

  /** After a pass the same messages are recent, and nothing is blank. */
  lemma {:induction false} ResultShape(sink: Sink, entries: seq<Entry>)
    ensures var kept, r := Kept(entries), Pass(sink, entries, 0).messages;
            && r == Expected(sink, kept, 0) && Kept(r) == r
            && (forall i | 0 <= i < |r| :: !IsBlank(r[i]) && r[i].Hole? == kept[i].Hole?)
            && (forall i | 0 <= i < |r| :: Recent(r, i, 0) <==> Recent(kept, i, 0))
  {
    var kept, r := Kept(entries), Pass(sink, entries, 0).messages;
    PassMeans(sink, entries, 0);
    KeptHasNoBlank(entries);
    ExpectedStaysVisible(sink, kept);
    NoBlankIsKept(r);
    SameRecent(r, kept);
  }

  // ---------------------------------------------------------------- when replacements fit

  /** Whether the replacement of a tool output fits, told from the lengths of name, path and output. */
  predicate ShortOutput(sink: Sink, name: string, output: string)
    requires |output| > MAX_TEXT
  {
    if IsProtectedTool(name) && sink(output).Some? then
      |name| + |sink(output).value| + |Decimal(|output|)| + |Decimal(|output| - FALLBACK_EXCERPT)| + 595 <= MAX_TEXT
    else |name| + |Decimal(|output|)| + 108 <= MAX_TEXT
  }

  /** The same for a patch. */
  predicate ShortPatch(file: string, patch: string) {
    |file| + |Decimal(|patch|)| + 4159 <= MAX_TEXT
  }

  lemma {:induction false} ReplacementFits(sink: Sink, name: string, output: string)
    requires |output| > MAX_TEXT
    ensures |ReplaceOversized(sink, name, output)| <= MAX_TEXT <==> ShortOutput(sink, name, output)
  {
    ThreeDigits();
  }

  lemma {:induction false} ThreeDigits()
    ensures |Decimal(FALLBACK_EXCERPT)| == 3
  {
    assert Decimal(50) == Decimal(5) + [Digit(0)];
    assert Decimal(500) == Decimal(50) + [Digit(0)];
  }

  lemma {:induction false} PatchFits(file: string, patch: string)
    requires |patch| > MAX_TEXT
    ensures |CompactLargeText(file, patch)| <= MAX_TEXT <==> ShortPatch(file, patch)
  {
  }

  /** A tool with a name longer than the limit is replaced by something longer than the limit, whatever its output. */
  lemma {:induction false} LongNamesNeverFit(sink: Sink, name: string, output: string)
    requires |name| > MAX_TEXT
    ensures |ReplaceOversized(sink, name, output)| > MAX_TEXT
  {
  }

  predicate ShortWhenOversized(sink: Sink, name: string, text: Option<string>) {
    Oversized(text) ==> ShortOutput(sink, name, text.value)
  }

  /** Names, paths and file names of a message are short enough for its replacements to fit. */
  predicate ShortNames(sink: Sink, e: Entry) {
    && (forall p | p in PartsOf(e) && p.Tool? ::
          ShortWhenOversized(sink, ToolName(p), p.stateOutput) && ShortWhenOversized(sink, ToolName(p), p.output))
    && (forall d | d in DiffsOf(e) && OversizedDiff(d) :: ShortPatch(FileName(d), d.patch))
  }

  lemma {:induction false} NewTextFits(sink: Sink, name: string, text: Option<string>)
    ensures !Oversized(NewText(sink, name, text)) <==> ShortWhenOversized(sink, name, text)
  {
    if Oversized(text) { ReplacementFits(sink, name, text.value); }
  }

  lemma {:induction false} NewPartFits(sink: Sink, p: Part)
    ensures !OversizedPart(NewPart(sink, p)) <==>
            (p.Tool? ==>
               ShortWhenOversized(sink, ToolName(p), p.stateOutput) && ShortWhenOversized(sink, ToolName(p), p.output))
  {
    if p.Tool? {
      NewTextFits(sink, ToolName(p), p.stateOutput);
      NewTextFits(sink, ToolName(p), p.output);
    }
  }

  lemma {:induction false} NewPartsFit(sink: Sink, parts: seq<Part>)
    ensures PartsFit(NewParts(sink, parts)) <==>
            forall p | p in parts && p.Tool? ::
              ShortWhenOversized(sink, ToolName(p), p.stateOutput) && ShortWhenOversized(sink, ToolName(p), p.output)
  {
    forall i | 0 <= i < |parts|
      ensures !OversizedPart(NewParts(sink, parts)[i]) <==>
              parts[i].Tool? ==> ShortWhenOversized(sink, ToolName(parts[i]), parts[i].stateOutput)
                                 && ShortWhenOversized(sink, ToolName(parts[i]), parts[i].output)
    {
      NewPartFits(sink, parts[i]);
    }
    if PartsFit(NewParts(sink, parts)) {
      forall p | p in parts && p.Tool?
        ensures ShortWhenOversized(sink, ToolName(p), p.stateOutput) && ShortWhenOversized(sink, ToolName(p), p.output)
      {
        var i :| 0 <= i < |parts| && parts[i] == p;
        assert !OversizedPart(NewParts(sink, parts)[i]);
      }
    }
  }

  lemma {:induction false} NewDiffsFit(diffs: seq<Diff>)
    ensures DiffsFit(NewDiffs(diffs)) <==> forall d | d in diffs && OversizedDiff(d) :: ShortPatch(FileName(d), d.patch)
  {
    forall i | 0 <= i < |diffs|
      ensures !OversizedDiff(NewDiffs(diffs)[i]) <==>
              OversizedDiff(diffs[i]) ==> ShortPatch(FileName(diffs[i]), diffs[i].patch)
    {
      if OversizedDiff(diffs[i]) { PatchFits(FileName(diffs[i]), diffs[i].patch); }
    }
    if DiffsFit(NewDiffs(diffs)) {
      forall d | d in diffs && OversizedDiff(d) ensures ShortPatch(FileName(d), d.patch) {
        var i :| 0 <= i < |diffs| && diffs[i] == d;
        assert !OversizedDiff(NewDiffs(diffs)[i]);
      }
    }
  }

  /** A compacted message is within the limit exactly when its names are short enough. */
  lemma {:induction false} CompactedFits(sink: Sink, e: Entry)
    ensures Settled(Compacted(sink, e)) <==> ShortNames(sink, e)
  {
    NewPartsFit(sink, PartsOf(e));
    NewDiffsFit(DiffsOf(e));
    assert PartsOf(Compacted(sink, e)) == NewParts(sink, PartsOf(e));
    assert DiffsOf(Compacted(sink, e)) == NewDiffs(DiffsOf(e));
  }

  /** Every older message has names, paths and file names short enough for its replacements to fit. */
  ghost predicate ReplacementsFit(sink: Sink, kept: seq<Entry>) {
    forall i | 0 <= i < |kept| && !kept[i].Hole? && !Recent(kept, i, 0) :: ShortNames(sink, kept[i])
  }

  lemma {:induction false} SettledThen(sink: Sink, kept: seq<Entry>, r: seq<Entry>)
    requires r == Expected(sink, kept, 0)
    requires forall i | 0 <= i < |r| :: r[i].Hole? == kept[i].Hole?
    requires forall i | 0 <= i < |r| :: Recent(r, i, 0) <==> Recent(kept, i, 0)
    ensures AllOlderSettled(r, 0) <==> ReplacementsFit(sink, kept)
  {
    forall i | 0 <= i < |r|
      ensures (!r[i].Hole? && !Recent(r, i, 0) ==> Settled(r[i])) <==>
              (!kept[i].Hole? && !Recent(kept, i, 0) ==> ShortNames(sink, kept[i]))
    {
      if !kept[i].Hole? && !Recent(kept, i, 0) {
        assert r[i] == Compacted(sink, kept[i]);
        CompactedFits(sink, kept[i]);
      }
    }
    if AllOlderSettled(r, 0) {
      forall i | 0 <= i < |kept| && !kept[i].Hole? && !Recent(kept, i, 0) ensures ShortNames(sink, kept[i]) {
        assert !r[i].Hole? && !Recent(r, i, 0);
      }
    }
  }

  lemma {:induction false} SettledNow(sink: Sink, entries: seq<Entry>)
    ensures AllOlderSettled(Pass(sink, entries, 0).messages, 0) <==> ReplacementsFit(sink, Kept(entries))
  {
    ResultShape(sink, entries);
    SettledThen(sink, Kept(entries), Pass(sink, entries, 0).messages);
  }

  lemma {:induction false} SettledIsUnchanged(sink: Sink, kept: seq<Entry>)
    requires AllOlderSettled(kept, 0)
    ensures Expected(sink, kept, 0) == kept
  {
    forall i | 0 <= i < |kept| && !kept[i].Hole? && !Recent(kept, i, 0) ensures Compacted(sink, kept[i]) == kept[i] {
      SettledStays(sink, kept[i]);
    }
  }

  /**
   * A second pass, even with another sink, drops nothing, and compacts nothing exactly when the older messages had
   * names, paths and file names short enough before the first pass; then it changes nothing at all.
   */
  lemma {:induction false} SecondPass(sink: Sink, sink': Sink, entries: seq<Entry>)
    ensures var first := Pass(sink, entries, 0).messages;
            var again := Pass(sink', first, 0);
            && again.droppedBlank == 0
            && (again.compactedToolOutputs == 0 && again.compactedDiffs == 0 <==> ReplacementsFit(sink, Kept(entries)))
            && (ReplacementsFit(sink, Kept(entries)) ==> again.messages == first)
  {
    var first := Pass(sink, entries, 0).messages;
    ResultShape(sink, entries);
    SettledNow(sink, entries);
    PassMeans(sink', first, 0);
    QuietCounts(sink', first, 0);
    QuietMeans(first, 0);
    if AllOlderSettled(first, 0) { SettledIsUnchanged(sink', first); }
  }

  // ---------------------------------------------------------------- which messages are dropped

  /** An assistant message without parts that is not finished. */
  ghost predicate EmptyDraft(e: Entry) {
    && e.Message? && e.info.Info? && e.info.role == "assistant" && !e.info.finished
    && (e.parts.None? || e.parts == Some([]))
  }

  lemma {:induction false} BlankIsEmptyDraft(e: Entry)
    ensures IsBlank(e) <==> EmptyDraft(e)
  {
  }

  lemma {:induction false} KeptCounts(init: seq<Entry>, last: Entry, e: Entry)
    ensures multiset(Kept(init + [last]))[e] == multiset(Kept(init))[e] + if last == e && !IsBlank(e) then 1 else 0
  {
    assert (init + [last])[..|init|] == init;
  }

  lemma {:induction false} EntryCounts(init: seq<Entry>, last: Entry, e: Entry)
    ensures multiset(init + [last])[e] == multiset(init)[e] + if last == e then 1 else 0
  {
  }

  lemma {:induction false} KeptTimes(entries: seq<Entry>, e: Entry)
    ensures multiset(Kept(entries))[e] == if IsBlank(e) then 0 else multiset(entries)[e]
    decreases |entries|
  {
    if entries != [] {
      var init, last := entries[..|entries| - 1], entries[|entries| - 1];
      assert entries == init + [last];
      KeptTimes(init, e);
      KeptCounts(init, last, e);
      EntryCounts(init, last, e);
    }
  }

  /**
   * A pass drops the empty drafts and no other entry: a message with a part, a finished one and any other role
   * stay.
   */
  lemma {:induction false} OnlyEmptyDraftsGo(entries: seq<Entry>, e: Entry)
    ensures multiset(Kept(entries))[e] == if EmptyDraft(e) then 0 else multiset(entries)[e]
  {
    BlankIsEmptyDraft(e);
    KeptTimes(entries, e);
  }

  // ---------------------------------------------------------------- what a replacement still tells

  /** A patch keeps its first and its last two thousand characters, behind a line that names its file. */
  lemma {:induction false} PatchKeepsItsEnds(file: string, patch: string) returns (head: string, middle: string)
    requires |patch| > MAX_TEXT
    ensures CompactLargeText(file, patch) == head + patch[..2000] + middle + patch[|patch| - 2000..]
    ensures "[ADV:DIFF_TRUNCATED] " + file + " produced " <= head
  {
    head := DIFF_HEAD + file + PRODUCED + Decimal(|patch|) + OMITTED + Lines.NEWLINE + FIRST_LINE + Lines.NEWLINE;
    middle := Lines.NEWLINE + LAST_LINE + Lines.NEWLINE;
    Sequences.Assoc(DIFF_HEAD + file + PRODUCED, Decimal(|patch|), OMITTED);
    assert DIFF_HEAD + file + PRODUCED <= head;
  }

  lemma {:induction false} MarkerParts(name: string, output: string, path: string)
    returns (head: string, middle: string)
    requires |output| > MAX_TEXT
    ensures FallbackMarker(name, output, path) == head + path + middle + First(output, FALLBACK_EXCERPT)
    ensures PERSISTED_HEAD + name + RETURNED <= head
  {
    var start := PERSISTED_HEAD + name + RETURNED;
    var counts := Decimal(|output|) + CHARS + Decimal(|output| - FALLBACK_EXCERPT) + ELIDED;
    head := start + counts;
    middle := FIRST + Decimal(FALLBACK_EXCERPT) + CHARS_COLON;
    SevenParts(start, Decimal(|output|), CHARS, Decimal(|output| - FALLBACK_EXCERPT), ELIDED);
    SevenParts(head + path, FIRST, Decimal(FALLBACK_EXCERPT), CHARS_COLON, First(output, FALLBACK_EXCERPT));
    Sequences.Assoc(head + path, middle, First(output, FALLBACK_EXCERPT));
  }

  lemma {:induction false} SevenParts(a: string, b: string, c: string, d: string, e: string)
    ensures a + b + c + d + e == a + (b + c + d + e)
    ensures a + (b + c + d) + e == a + b + c + d + e
  {
  }

  /**
   * A persisted output is replaced by a text that names the tool and the path and shows the first five hundred
   * characters.
   */
  lemma {:induction false} PersistedIsNamed(sink: Sink, name: string, output: string)
    returns (head: string, middle: string)
    requires |output| > MAX_TEXT && IsProtectedTool(name) && sink(output).Some?
    ensures ReplaceOversized(sink, name, output) == head + sink(output).value + middle + output[..500]
    ensures "[ADV:FALLBACK_RESULT_PERSISTED] " + name + " returned " <= head
  {
    head, middle := MarkerParts(name, output, sink(output).value);
  }

  /** Any other oversized output is replaced by a text that names the tool and the length only. */
  lemma {:induction false} OtherIsNamed(sink: Sink, name: string, output: string)
    requires |output| > MAX_TEXT && (!IsProtectedTool(name) || sink(output).None?)
    ensures "[ADV:OUTPUT_DROPPED] " + name + " produced " + Decimal(|output|) <= ReplaceOversized(sink, name, output)
  {
    var head := DROP_HEAD + name + PRODUCED + Decimal(|output|);
    assert ReplaceOversized(sink, name, output) == head + REMOVED;
  }
}
