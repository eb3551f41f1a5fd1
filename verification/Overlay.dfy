/** Splicing an overlay into an agent prompt. */
module Overlay {
  import opened Lines
  import Sequences

  function StartMarker(name: string): string {
    "<!-- ADV_SYNC:START " + name + " -->"
  }

  function EndMarker(name: string): string {
    "<!-- ADV_SYNC:END " + name + " -->"
  }

  const FENCE: string := "---\n"
  const CLOSING: string := "\n---\n"

  /** First position at or after `i` that holds no newline. */
  function SkipNewlines(s: string, i: nat): (r: nat)
    requires i <= |s|
    ensures i <= r <= |s|
    ensures forall j | i <= j < r :: s[j] == '\n'
    ensures r < |s| ==> s[r] != '\n'
    decreases |s| - i
  {
    if i < |s| && s[i] == '\n' then SkipNewlines(s, i + 1) else i
  }

  function ReplaceBlock(agent: string, overlay: string, start: nat, afterEnd: nat): string
    requires start <= |agent| && afterEnd <= |agent|
  {
    agent[..start] + overlay + agent[SkipNewlines(agent, afterEnd)..]
  }

  /** Where a first overlay goes: after the frontmatter, or at the beginning. */
  function InsertionPoint(agent: string): (r: nat)
    ensures r <= |agent|
    ensures r > 0 ==> r >= |CLOSING| && agent[r - |CLOSING|..r] == CLOSING
  {
    if FENCE <= agent then
      var second := IndexOf(agent, CLOSING, 4);
      IndexOfMeaning(agent, CLOSING, 4);
      if second < 0 then 0 else second + |CLOSING|
    else 0
  }

  /** A closing line of the frontmatter: a fence of its own, behind the opening one. */
  ghost predicate ClosesFrontmatter(agent: string, at: int) {
    4 <= at && at + 5 <= |agent| && agent[at..at + 5] == "\n---\n"
  }

  /** The insertion point is behind the first closing line of a frontmatter, and the beginning without one. */
  lemma {:induction false} InsertionPointMeans(agent: string)
    ensures var at := InsertionPoint(agent);
            if "---\n" <= agent && exists i :: ClosesFrontmatter(agent, i) then
              ClosesFrontmatter(agent, at - 5) && forall i | i < at - 5 :: !ClosesFrontmatter(agent, i)
            else at == 0
  {
    if FENCE <= agent {
      var second := IndexOf(agent, CLOSING, 4);
      IndexOfMeaning(agent, CLOSING, 4);
      forall i ensures ClosesFrontmatter(agent, i) <==> 4 <= i && OccursAt(agent, CLOSING, i) { }
    }
  }

  function InsertBlock(agent: string, overlay: string): string {
    var at := InsertionPoint(agent);
    var block := if at > 0 && at < |agent| && agent[at] != '\n' then NEWLINE + overlay else overlay;
    var doubled := |block| >= 2 && block[|block| - 2..] == "\n\n";
    agent[..at] + block + (if at > 0 && !doubled then NEWLINE else "") + agent[at..]
  }

  /** The whole operation, for any two markers and an overlay without its final newline. */
  function Splice(agent: string, body: string, startMarker: string, endMarker: string): string {
    var start, end := IndexOf(agent, startMarker, 0), IndexOf(agent, endMarker, 0);
    if start != -1 && end != -1 then ReplaceBlock(agent, body + NEWLINE, start, end + |endMarker|)
    else InsertBlock(agent, body + NEWLINE)
  }

  function Apply(agent: string, overlayText: string, name: string): string {
    Splice(agent, TrimEnd(overlayText), StartMarker(name), EndMarker(name))
  }

  method ApplyOverlay(agentText: string, overlayText: string, overlayName: string) returns (r: string)
    ensures r == Apply(agentText, overlayText, overlayName)
  {
    var startMarker, endMarker := StartMarker(overlayName), EndMarker(overlayName);
    var overlay := TrimEnd(overlayText) + NEWLINE;
    ghost var normalized := overlay;
    var start, end := IndexOf(agentText, startMarker, 0), IndexOf(agentText, endMarker, 0);
    if start != -1 && end != -1 {
      var regionEnd := end + |endMarker|;
      while regionEnd < |agentText| && agentText[regionEnd] == '\n'
        invariant end + |endMarker| <= regionEnd <= |agentText|
        invariant SkipNewlines(agentText, end + |endMarker|) == SkipNewlines(agentText, regionEnd)
      {
        regionEnd := regionEnd + 1;
      }
      assert regionEnd == SkipNewlines(agentText, end + |endMarker|);
      return agentText[..start] + overlay + agentText[regionEnd..];
    }
    var insertAt := 0;
    if FENCE <= agentText {
      var second := IndexOf(agentText, CLOSING, 4);
      if second != -1 {
        insertAt := second + |CLOSING|;
        if insertAt < |agentText| && agentText[insertAt] != '\n' {
          overlay := NEWLINE + overlay;
        }
      }
    }
    assert insertAt == InsertionPoint(agentText);
    r := Inserted(agentText, normalized, insertAt, overlay);
  }

  /** The last step of an insertion: the block, and a blank line after frontmatter unless it ends with one. */
  method Inserted(agentText: string, ghost normalized: string, insertAt: nat, overlay: string) returns (r: string)
    requires insertAt == InsertionPoint(agentText)
    requires overlay == if insertAt > 0 && insertAt < |agentText| && agentText[insertAt] != '\n'
                        then NEWLINE + normalized else normalized
    ensures r == InsertBlock(agentText, normalized)
  {
    var endsDouble := |overlay| >= 2 && overlay[|overlay| - 2..] == "\n\n";
    var spacer := if insertAt > 0 && !endsDouble then NEWLINE else "";
    return agentText[..insertAt] + overlay + spacer + agentText[insertAt..];
  }

  // ---------------------------------------------------------------- a well-formed overlay

  /** The overlay begins with its start marker and its first end marker closes it. */
  ghost predicate Carries(body: string, startMarker: string, endMarker: string) {
    && |startMarker| + |endMarker| <= |body|
    && startMarker <= body
    && IndexOf(body, endMarker, 0) == |body| - |endMarker|
  }

  lemma {:induction false} OccursInMiddle(a: string, b: string, c: string, part: string, i: nat)
    requires |a| <= i && i + |part| <= |a| + |b|
    ensures OccursAt(a + b + c, part, i) <==> OccursAt(b, part, i - |a|)
  {
    assert (a + b + c)[i..i + |part|] == b[i - |a|..i - |a| + |part|];
  }

  ghost predicate AbsentBefore(s: string, part: string, n: nat) {
    forall i: nat | i < n :: !OccursAt(s, part, i)
  }

  /** Where a marker is found in a text whose block has just been written. */
  lemma {:induction false} EndAfterSplice(head: string, body: string, tail: string, sm: string, em: string)
    requires Carries(body, sm, em) && AbsentBefore(head + body + tail, em, |head|)
    ensures IndexOf(head + body + tail, em, 0) == |head| + |body| - |em|
  {
    var text := head + body + tail;
    IndexOfMeaning(body, em, 0);
    var e := |body| - |em|;
    forall j: int | 0 <= j < |head| + e ensures !OccursAt(text, em, j) {
      if |head| <= j { OccursInMiddle(head, body, tail, em, j); } else { var i: nat := j; }
    }
    OccursInMiddle(head, body, tail, em, |head| + e);
    IndexOfIs(text, em, 0, |head| + e);
  }

  lemma {:induction false} StartAfterSplice(head: string, body: string, tail: string, sm: string, em: string)
    requires Carries(body, sm, em) && AbsentBefore(head + body + tail, sm, |head|)
    ensures IndexOf(head + body + tail, sm, 0) == |head|
  {
    var text := head + body + tail;
    OccursInMiddle(head, body, tail, sm, |head|);
    assert OccursAt(body, sm, 0);
    forall j: int | 0 <= j < |head| ensures !OccursAt(text, sm, j) {
      var i: nat := j;
    }
    IndexOfIs(text, sm, 0, |head|);
  }

  lemma {:induction false} SkipOne(a: string, c: string)
    requires c == [] || c[0] != '\n'
    ensures SkipNewlines(a + NEWLINE + c, |a|) == |a| + 1
  {
    var s := a + NEWLINE + c;
    assert s[|a|] == '\n';
    assert c != [] ==> s[|a| + 1] == c[0];
  }

  /** A block that has just been written is found and written again, unchanged. */
  lemma {:induction false} RewriteIsStable(head: string, body: string, tail: string, sm: string, em: string)
    requires Carries(body, sm, em)
    requires tail == [] || tail[0] != '\n'
    requires var text := head + body + (NEWLINE + tail);
             AbsentBefore(text, sm, |head|) && AbsentBefore(text, em, |head|)
    ensures var text := head + (body + NEWLINE) + tail;
            Splice(text, body, sm, em) == text
  {
    var text := head + (body + NEWLINE) + tail;
    assert text == head + body + (NEWLINE + tail);
    StartAfterSplice(head, body, NEWLINE + tail, sm, em);
    EndAfterSplice(head, body, NEWLINE + tail, sm, em);
    assert text == (head + body) + NEWLINE + tail;
    SkipOne(head + body, tail);
    assert text[..|head|] == head;
    assert text[|head + body| + 1..] == tail;
  }

  // ---------------------------------------------------------------- replacing keeps the rest

  /** The text before the block stays; the text after it stays up to its leading newlines. */
  lemma {:induction false} ReplaceKeepsSurroundings(agent: string, body: string, sm: string, em: string)
    returns (newlines: nat, rest: string)
    requires IndexOf(agent, sm, 0) >= 0 && IndexOf(agent, em, 0) >= 0
    ensures agent[IndexOf(agent, em, 0) + |em|..] == Newlines(newlines) + rest
    ensures rest == "" || rest[0] != '\n'
    ensures Splice(agent, body, sm, em) ==
            agent[..IndexOf(agent, sm, 0)] + (body + NEWLINE) + rest
  {
    var end := IndexOf(agent, em, 0) + |em|;
    var next := SkipNewlines(agent, end);
    newlines, rest := next - end, agent[next..];
    SplitAtNewlines(agent, end, next);
  }

  lemma {:induction false} SplitAtNewlines(s: string, i: nat, j: nat)
    requires i <= j <= |s| && forall k | i <= k < j :: s[k] == '\n'
    ensures s[i..] == Newlines(j - i) + s[j..]
  {
    assert s[i..] == s[i..j] + s[j..];
    assert s[i..j] == Newlines(j - i);
  }

  function Newlines(n: nat): string {
    seq(n, _ => '\n')
  }

  /** Nothing is lost when the overlay is inserted for the first time. */
  lemma {:induction false} InsertKeepsEverything(agent: string, body: string, sm: string, em: string)
    returns (before: string, after: string)
    requires IndexOf(agent, sm, 0) < 0 || IndexOf(agent, em, 0) < 0
    ensures before == if InsertionPoint(agent) > 0 && InsertionPoint(agent) < |agent|
                         && agent[InsertionPoint(agent)] != '\n' then NEWLINE else ""
    ensures var block := before + (body + NEWLINE);
            after == if InsertionPoint(agent) > 0 && !(|block| >= 2 && block[|block| - 2..] == "\n\n")
                     then NEWLINE else ""
    ensures Splice(agent, body, sm, em) ==
            agent[..InsertionPoint(agent)] + before + (body + NEWLINE) + after + agent[InsertionPoint(agent)..]
  {
    before, after := InsertShape(agent, body + NEWLINE);
  }

  lemma {:induction false} InsertShape(agent: string, overlay: string) returns (before: string, after: string)
    ensures before == if InsertionPoint(agent) > 0 && InsertionPoint(agent) < |agent|
                         && agent[InsertionPoint(agent)] != '\n' then NEWLINE else ""
    ensures var block := before + overlay;
            after == if InsertionPoint(agent) > 0 && !(|block| >= 2 && block[|block| - 2..] == "\n\n")
                     then NEWLINE else ""
    ensures InsertBlock(agent, overlay) ==
            agent[..InsertionPoint(agent)] + before + overlay + after + agent[InsertionPoint(agent)..]
  {
    var at := InsertionPoint(agent);
    before := if at > 0 && at < |agent| && agent[at] != '\n' then NEWLINE else "";
    var block := before + overlay;
    after := if at > 0 && !(|block| >= 2 && block[|block| - 2..] == "\n\n") then NEWLINE else "";
    assert "" + overlay == overlay;
    Sequences.Assoc(agent[..at], before, overlay);
  }

  // ---------------------------------------------------------------- applying twice

  /** Both markers are absent before the first start marker, and stay so after the block changes. */
  lemma {:induction false} AbsentBeforeBlock(agent: string, head: string, body: string, rest: string, part: string,
                                             sm: string)
    requires IndexOf(agent, sm, 0) == |head| && head == agent[..|head|]
    requires sm <= body && |part| <= |sm|
    requires AbsentBefore(agent, part, |head|)
    ensures AbsentBefore(head + body + rest, part, |head|)
  {
    var text := head + body + rest;
    var n := |head| + |sm|;
    IndexOfMeaning(agent, sm, 0);
    assert agent[..n] == head + agent[|head|..n] == head + sm;
    assert text[..n] == head + sm;
    forall i: nat | i < |head| ensures !OccursAt(text, part, i) {
      OccursInPrefix(text, agent, part, i, n);
    }
  }

  /** On a text with both markers in order, a second application changes nothing. */
  lemma {:induction false} InOrderTwice(agent: string, body: string, sm: string, em: string)
    requires Carries(body, sm, em) && |em| <= |sm|
    requires 0 <= IndexOf(agent, sm, 0) <= IndexOf(agent, em, 0)
    ensures var once := Splice(agent, body, sm, em);
            Splice(once, body, sm, em) == once
  {
    var head := agent[..IndexOf(agent, sm, 0)];
    var _, tail := ReplaceKeepsSurroundings(agent, body, sm, em);
    IndexOfMeaning(agent, sm, 0);
    IndexOfMeaning(agent, em, 0);
    AbsentBeforeBlock(agent, head, body, NEWLINE + tail, sm, sm);
    AbsentBeforeBlock(agent, head, body, NEWLINE + tail, em, sm);
    RewriteIsStable(head, body, tail, sm, em);
  }

  /** The end marker comes first. */
  predicate OutOfOrder(text: string, sm: string, em: string) {
    0 <= IndexOf(text, em, 0) < IndexOf(text, sm, 0)
  }

  lemma {:induction false} OutOfOrderStays(agent: string, body: string, sm: string, em: string)
    requires Carries(body, sm, em) && |em| <= |sm| && OutOfOrder(agent, sm, em)
    ensures OutOfOrder(Splice(agent, body, sm, em), sm, em)
  {
    var start := IndexOf(agent, sm, 0);
    IndexOfMeaning(agent, sm, 0);
    var _, tail := ReplaceKeepsSurroundings(agent, body, sm, em);
    SamePrefix(agent, start, body + NEWLINE, tail, sm);
    KeptBothMarkers(agent, agent[..start] + (body + NEWLINE) + tail, sm, em, start + |sm|);
  }

  lemma {:induction false} KeptBothMarkers(s: string, t: string, sm: string, em: string, n: nat)
    requires n <= |s| && n <= |t| && s[..n] == t[..n]
    requires 0 <= IndexOf(s, sm, 0) && IndexOf(s, sm, 0) + |sm| <= n
    requires 0 <= IndexOf(s, em, 0) && IndexOf(s, em, 0) + |em| <= n
    ensures IndexOf(t, sm, 0) == IndexOf(s, sm, 0) && IndexOf(t, em, 0) == IndexOf(s, em, 0)
  {
    IndexOfKept(s, t, sm, n);
    IndexOfKept(s, t, em, n);
  }

  lemma {:induction false} SamePrefix(agent: string, start: nat, body: string, tail: string, sm: string)
    requires start + |sm| <= |agent| && agent[start..start + |sm|] == sm && sm <= body
    ensures var once := agent[..start] + body + tail;
            start + |sm| <= |once| && once[..start + |sm|] == agent[..start + |sm|]
  {
    var once := agent[..start] + body + tail;
    assert once[start..start + |sm|] == body[..|sm|];
    assert once[..start + |sm|] == agent[..start] + once[start..start + |sm|];
    assert agent[..start + |sm|] == agent[..start] + agent[start..start + |sm|];
  }

  /** With the end marker first, every application leaves a longer text: part of it is doubled. */
  lemma {:induction false} OutOfOrderGrows(text: string, body: string, sm: string, em: string)
    requires Carries(body, sm, em) && em != "" && |em| <= |sm| && OneLine(sm) && OutOfOrder(text, sm, em)
    ensures |Splice(text, body, sm, em)| > |text|
  {
    var start, afterEnd := IndexOf(text, sm, 0), IndexOf(text, em, 0) + |em|;
    IndexOfMeaning(text, sm, 0);
    var p := if afterEnd < start then start else afterEnd;
    assert start <= p < start + |sm|;
    assert text[p] == text[start..start + |sm|][p - start] == sm[p - start];
    assert text[p] in sm;
    assert SkipNewlines(text, afterEnd) <= p;
  }

  /** A marker that does not come before the insertion point does not come before the block either. */
  lemma {:induction false} AbsentInHead(agent: string, at: nat, before: string, rest: string, part: string)
    requires at == InsertionPoint(agent) && before in {"", NEWLINE} && (at == 0 ==> before == "")
    requires AbsentBefore(agent, part, at) && part != "" && OneLine(part)
    ensures AbsentBefore(agent[..at] + before + rest, part, |agent[..at] + before|)
  {
    var text := agent[..at] + before + rest;
    assert text[..at] == agent[..at];
    if at > 0 { assert agent[at - |CLOSING|..at][|CLOSING| - 1] == agent[at - 1] == text[at - 1]; }
    forall i: nat | i < |agent[..at] + before| ensures !OccursAt(text, part, i) {
      if i + |part| <= at {
        OccursInPrefix(text, agent, part, i, at);
      } else {
        NewlineBlocks(text, part, i, if i < at then at - 1 else i);
      }
    }
  }

  lemma {:induction false} SpliceFound(text: string, body: string, sm: string, em: string, start: nat, end: nat)
    requires IndexOf(text, sm, 0) == start && IndexOf(text, em, 0) == end
    ensures Splice(text, body, sm, em) == ReplaceBlock(text, body + NEWLINE, start, end + |em|)
  {
  }

  lemma {:induction false} TailAfterBlock(text: string, block: string, tail: string)
    requires text == block + NEWLINE + tail
    ensures var next := SkipNewlines(text, |block|);
            if tail == "" || tail[0] != '\n' then next == |block| + 1 && text[next..] == tail
            else next > |block| + 1
  {
    assert text[|block|] == '\n' && text[|block| + 1..] == tail;
    assert tail != "" ==> text[|block| + 1] == tail[0];
  }

  lemma {:induction false} ReplacedInPlace(text: string, head: string, body: string, tail: string)
    requires text == (head + body) + NEWLINE + tail
    ensures ReplaceBlock(text, body + NEWLINE, |head|, |head + body|) == text <==> tail == "" || tail[0] != '\n'
  {
    TailAfterBlock(text, head + body, tail);
    var next := SkipNewlines(text, |head + body|);
    var out := ReplaceBlock(text, body + NEWLINE, |head|, |head + body|);
    assert text[..|head|] == head;
    assert |out| == |head| + |body| + 1 + |text| - next;
    assert head + (body + NEWLINE) + tail == text;
  }

  /** Rewriting a block found in place drops the newlines after it, and nothing else. */
  lemma {:induction false} SecondDropsBlankLines(text: string, head: string, body: string, tail: string, sm: string,
                                                 em: string)
    requires text == (head + body) + NEWLINE + tail
    requires |em| <= |body|
    requires IndexOf(text, sm, 0) == |head| && IndexOf(text, em, 0) == |head| + |body| - |em|
    ensures Splice(text, body, sm, em) == text <==> tail == "" || tail[0] != '\n'
  {
    SpliceFound(text, body, sm, em, |head|, IndexOf(text, em, 0));
    ReplacedInPlace(text, head, body, tail);
  }

  lemma {:induction false} TrimEndLast(s: string)
    ensures TrimEnd(s) == [] || !IsSpace(TrimEnd(s)[|TrimEnd(s)| - 1])
  {
    if s != [] && IsSpace(s[|s| - 1]) { TrimEndLast(s[..|s| - 1]); }
  }

  lemma {:induction false} TailAfterInsertion(agent: string, before: string, after: string, body: string)
    requires body != "" && !IsSpace(body[|body| - 1])
    requires before == if InsertionPoint(agent) > 0 && InsertionPoint(agent) < |agent|
                          && agent[InsertionPoint(agent)] != '\n' then NEWLINE else ""
    requires var block := before + (body + NEWLINE);
             after == if InsertionPoint(agent) > 0 && !(|block| >= 2 && block[|block| - 2..] == "\n\n")
                      then NEWLINE else ""
    ensures var tail := after + agent[InsertionPoint(agent)..];
            (tail == "" || tail[0] != '\n') <==> (InsertionPoint(agent) == 0 && (agent == "" || agent[0] != '\n'))
  {
    var block := before + (body + NEWLINE);
    assert block[|block| - 2..][0] == block[|block| - 2] == body[|body| - 1];
  }

  /** The shape of a text after its first insertion. */
  lemma {:induction false} FirstInsertion(agent: string, body: string, sm: string, em: string)
    returns (once: string, head: string, tail: string)
    requires Carries(body, sm, em) && em != "" && sm != "" && OneLine(sm) && OneLine(em)
    requires !IsSpace(body[|body| - 1])
    requires IndexOf(agent, sm, 0) < 0 || IndexOf(agent, em, 0) < 0
    requires AbsentBefore(agent, sm, InsertionPoint(agent)) && AbsentBefore(agent, em, InsertionPoint(agent))
    ensures once == Splice(agent, body, sm, em)
    ensures once == (head + body) + NEWLINE + tail
    ensures IndexOf(once, sm, 0) == |head| && IndexOf(once, em, 0) == |head| + |body| - |em|
    ensures (tail == "" || tail[0] != '\n') <==> (InsertionPoint(agent) == 0 && (agent == "" || agent[0] != '\n'))
  {
    var at := InsertionPoint(agent);
    var before, after := InsertKeepsEverything(agent, body, sm, em);
    head, tail := agent[..at] + before, after + agent[at..];
    once := Splice(agent, body, sm, em);
    Regroup(head, body, after, agent[at..]);
    MarkersAfterInsertion(agent, at, before, body, tail, sm, em);
    TailAfterInsertion(agent, before, after, body);
  }

  lemma {:induction false} Regroup(head: string, body: string, after: string, rest: string)
    ensures head + (body + NEWLINE) + after + rest == (head + body) + NEWLINE + (after + rest)
  {
  }

  lemma {:induction false} MarkersAfterInsertion(agent: string, at: nat, before: string, body: string, tail: string,
                              sm: string, em: string)
    requires at == InsertionPoint(agent) && before in {"", NEWLINE} && (at == 0 ==> before == "")
    requires Carries(body, sm, em) && em != "" && sm != "" && OneLine(sm) && OneLine(em)
    requires AbsentBefore(agent, sm, at) && AbsentBefore(agent, em, at)
    ensures var head := agent[..at] + before; var text := (head + body) + NEWLINE + tail;
            IndexOf(text, sm, 0) == |head| && IndexOf(text, em, 0) == |head| + |body| - |em|
  {
    var head := agent[..at] + before;
    var text := (head + body) + NEWLINE + tail;
    AbsentInHead(agent, at, before, body + (NEWLINE + tail), sm);
    AbsentInHead(agent, at, before, body + (NEWLINE + tail), em);
    assert head + (body + (NEWLINE + tail)) == text;
    assert head + body + (NEWLINE + tail) == text;
    StartAfterSplice(head, body, NEWLINE + tail, sm, em);
    EndAfterSplice(head, body, NEWLINE + tail, sm, em);
  }

  // ---------------------------------------------------------------- one marker alone, before the insertion point

  /** A marker is one line, so it cannot reach across the newline in front of the insertion point. */
  lemma {:induction false} MarkerStaysInHead(agent: string, before: string, rest: string, part: string)
    requires part != "" && OneLine(part) && 0 <= IndexOf(agent, part, 0) < InsertionPoint(agent)
    ensures IndexOf(agent[..InsertionPoint(agent)] + before + rest, part, 0) == IndexOf(agent, part, 0)
  {
    var at, i := InsertionPoint(agent), IndexOf(agent, part, 0);
    IndexOfMeaning(agent, part, 0);
    if i + |part| > at {
      assert agent[at - |CLOSING|..at][|CLOSING| - 1] == agent[at - 1];
      NewlineBlocks(agent, part, i, at - 1);
    }
    var text := agent[..at] + before + rest;
    assert text[..at] == agent[..at];
    IndexOfKept(agent, text, part, at);
  }

  lemma {:induction false} NotBefore(agent: string, part: string, at: nat)
    ensures AbsentBefore(agent, part, at) <==> IndexOf(agent, part, 0) < 0 || at <= IndexOf(agent, part, 0)
  {
    IndexOfMeaning(agent, part, 0);
    if 0 <= IndexOf(agent, part, 0) < at {
      var i: nat := IndexOf(agent, part, 0);
      assert OccursAt(agent, part, i);
    }
  }

  /** A lone end marker in front: the first application leaves the markers out of order. */
  lemma {:induction false} LoneEndMarker(agent: string, body: string, sm: string, em: string)
    requires Carries(body, sm, em) && em != "" && sm != "" && OneLine(sm) && OneLine(em)
    requires IndexOf(agent, sm, 0) < 0 && 0 <= IndexOf(agent, em, 0) < InsertionPoint(agent)
    ensures var once := Splice(agent, body, sm, em);
            0 <= IndexOf(once, em, 0) < IndexOf(once, sm, 0)
  {
    var at := InsertionPoint(agent);
    var before, after := InsertKeepsEverything(agent, body, sm, em);
    var head, tail := agent[..at] + before, after + agent[at..];
    Regroup(head, body, after, agent[at..]);
    Regroup2(head, body, tail);
    MarkerStaysInHead(agent, before, body + (NEWLINE + tail), em);
    NotBefore(agent, sm, at);
    AbsentInHead(agent, at, before, body + (NEWLINE + tail), sm);
    StartAfterSplice(head, body, NEWLINE + tail, sm, em);
  }

  lemma {:induction false} Regroup2(head: string, body: string, tail: string)
    ensures (head + body) + NEWLINE + tail == head + body + (NEWLINE + tail) == head + (body + (NEWLINE + tail))
  {
  }

  /** Where both markers are after the first application to a text with a lone start marker in front. */
  lemma {:induction false} LoneStartMarkerOnce(agent: string, body: string, sm: string, em: string)
    returns (head: string, after: string)
    requires Carries(body, sm, em) && em != "" && sm != "" && OneLine(sm) && OneLine(em)
    requires 0 <= IndexOf(agent, sm, 0) < InsertionPoint(agent) && IndexOf(agent, em, 0) < 0
    ensures var at := InsertionPoint(agent); var once := Splice(agent, body, sm, em);
            && at <= |head| && head[..at] == agent[..at] && after in {"", NEWLINE}
            && once == (head + body) + NEWLINE + (after + agent[at..])
            && IndexOf(once, sm, 0) == IndexOf(agent, sm, 0) && IndexOf(once, em, 0) == |head + body| - |em|
  {
    var at := InsertionPoint(agent);
    var before: string;
    before, after := InsertKeepsEverything(agent, body, sm, em);
    head := agent[..at] + before;
    var tail := after + agent[at..];
    Regroup(head, body, after, agent[at..]);
    Regroup2(head, body, tail);
    MarkerStaysInHead(agent, before, body + (NEWLINE + tail), sm);
    NotBefore(agent, em, at);
    AbsentInHead(agent, at, before, body + (NEWLINE + tail), em);
    EndAfterSplice(head, body, NEWLINE + tail, sm, em);
  }

  /**
   * A lone start marker in front: the second application takes everything from it to the new block for the old
   * block, so the text between the two is lost.
   */
  lemma {:induction false} LoneStartMarker(agent: string, body: string, sm: string, em: string)
    returns (newlines: nat, rest: string)
    requires Carries(body, sm, em) && em != "" && sm != "" && OneLine(sm) && OneLine(em)
    requires 0 <= IndexOf(agent, sm, 0) < InsertionPoint(agent) && IndexOf(agent, em, 0) < 0
    ensures var start, at := IndexOf(agent, sm, 0), InsertionPoint(agent);
            var once := Splice(agent, body, sm, em); var twice := Splice(once, body, sm, em);
            && 0 <= IndexOf(once, sm, 0) <= IndexOf(once, em, 0)
            && (agent[at..] == Newlines(newlines) + rest && (rest == "" || rest[0] != '\n'))
            && twice == agent[..start] + (body + NEWLINE) + rest
            && |twice| < |once|
  {
    var start, at := IndexOf(agent, sm, 0), InsertionPoint(agent);
    var once := Splice(agent, body, sm, em);
    var head, after := LoneStartMarkerOnce(agent, body, sm, em);
    newlines, rest := SkippedAfter(head + body, after, agent[at..]);
    ReplacedFrom(once, body, sm, em, start, |head + body|, rest);
    SameStart(once, agent, head, at, start);
  }

  lemma {:induction false} ReplacedFrom(once: string, body: string, sm: string, em: string, start: nat, afterEnd: nat,
                                        rest: string)
    requires IndexOf(once, sm, 0) == start && IndexOf(once, em, 0) == afterEnd - |em|
    requires |em| <= afterEnd <= |once| && once[SkipNewlines(once, afterEnd)..] == rest
    ensures Splice(once, body, sm, em) == once[..start] + (body + NEWLINE) + rest
  {
    SpliceFound(once, body, sm, em, start, afterEnd - |em|);
  }

  lemma {:induction false} SameStart(once: string, agent: string, head: string, at: nat, start: nat)
    requires start <= at <= |head| && at <= |agent| && head <= once && head[..at] == agent[..at]
    ensures once[..start] == agent[..start]
  {
    assert once[..start] == head[..at][..start];
  }

  lemma {:induction false} SkipWithin(s: string, i: nat, j: nat)
    requires i <= j <= |s| && forall k | i <= k < j :: s[k] == '\n'
    ensures SkipNewlines(s, i) == SkipNewlines(s, j)
    decreases j - i
  {
    if i < j { SkipWithin(s, i + 1, j); }
  }

  lemma {:induction false} BehindBlock(block: string, after: string, tail: string)
    requires after in {"", NEWLINE}
    ensures var text := block + NEWLINE + (after + tail); var from := |block| + 1 + |after|;
            text[from..] == tail && forall k | |block| <= k < from :: text[k] == '\n'
  {
  }

  lemma {:induction false} SkippedFrom(text: string, from: nat) returns (newlines: nat, rest: string)
    requires from <= |text|
    ensures text[from..] == Newlines(newlines) + rest && (rest == "" || rest[0] != '\n')
    ensures text[SkipNewlines(text, from)..] == rest
  {
    var next := SkipNewlines(text, from);
    newlines, rest := next - from, text[next..];
    SplitAtNewlines(text, from, next);
  }

  /** What the newline loop leaves of a text behind a block. */
  lemma {:induction false} SkippedAfter(block: string, after: string, tail: string)
    returns (newlines: nat, rest: string)
    requires after in {"", NEWLINE}
    ensures tail == Newlines(newlines) + rest && (rest == "" || rest[0] != '\n')
    ensures var text := block + NEWLINE + (after + tail);
            SkipNewlines(text, |block|) > |block| && text[SkipNewlines(text, |block|)..] == rest
  {
    var text := block + NEWLINE + (after + tail);
    var from := |block| + 1 + |after|;
    BehindBlock(block, after, tail);
    SkipWithin(text, |block|, from);
    newlines, rest := SkippedFrom(text, from);
  }

  /** The text after so many applications. */
  function Applied(agent: string, body: string, sm: string, em: string, times: nat): string {
    if times == 0 then agent else Splice(Applied(agent, body, sm, em, times - 1), body, sm, em)
  }

  lemma {:induction false} OutOfOrderStep(text: string, body: string, sm: string, em: string, next: string)
    requires Carries(body, sm, em) && em != "" && |em| <= |sm| && OneLine(sm) && OutOfOrder(text, sm, em)
    requires next == Splice(text, body, sm, em)
    ensures OutOfOrder(next, sm, em) && |next| > |text|
  {
    OutOfOrderStays(text, body, sm, em);
    OutOfOrderGrows(text, body, sm, em);
  }

  /** Markers out of order stay out of order, and each application grows the text. */
  lemma {:induction false} OutOfOrderNeverSettles(agent: string, body: string, sm: string, em: string, times: nat)
    requires Carries(body, sm, em) && em != "" && |em| <= |sm| && OneLine(sm) && OutOfOrder(agent, sm, em)
    ensures OutOfOrder(Applied(agent, body, sm, em, times), sm, em)
            && OutOfOrder(Applied(agent, body, sm, em, times + 1), sm, em)
    ensures |Applied(agent, body, sm, em, times + 1)| > |Applied(agent, body, sm, em, times)|
  {
    var text, next := Applied(agent, body, sm, em, times), Applied(agent, body, sm, em, times + 1);
    if times > 0 { OutOfOrderNeverSettles(agent, body, sm, em, times - 1); }
    OutOfOrderStep(text, body, sm, em, next);
  }

  // ---------------------------------------------------------------- the guarantees, on whole files

  /** The overlay file begins and ends with its own markers and its end marker occurs only there. */
  ghost predicate GoodOverlay(overlayText: string, name: string) {
    OneLine(name) && Carries(TrimEnd(overlayText), StartMarker(name), EndMarker(name))
  }

  lemma {:induction false} MarkersAreOneLine(name: string)
    requires OneLine(name)
    ensures OneLine(StartMarker(name)) && OneLine(EndMarker(name))
    ensures "" != EndMarker(name) && |EndMarker(name)| < |StartMarker(name)|
    ensures '>' == EndMarker(name)[|EndMarker(name)| - 1]
  {
    var a, b, c := "<!-- ADV_SYNC:START ", "<!-- ADV_SYNC:END ", " -->";
    assert forall i | 0 <= i < |a| :: a[i] != '\n';
    assert forall i | 0 <= i < |b| :: b[i] != '\n';
    assert forall i | 0 <= i < |c| :: c[i] != '\n';
  }

  /** Both markers are found: the block is replaced. */
  predicate Marked(agent: string, name: string) {
    IndexOf(agent, StartMarker(name), 0) >= 0 && IndexOf(agent, EndMarker(name), 0) >= 0
  }

  /** A text that carries both markers keeps its form under a second application exactly when they are in order. */
  lemma {:induction false} MarkedTextTwice(agent: string, overlayText: string, name: string)
    requires GoodOverlay(overlayText, name) && Marked(agent, name)
    ensures var once := Apply(agent, overlayText, name);
            var twice := Apply(once, overlayText, name);
            var inOrder := IndexOf(agent, StartMarker(name), 0) <= IndexOf(agent, EndMarker(name), 0);
            (twice == once <==> inOrder) && (Apply(twice, overlayText, name) == twice <==> inOrder)
  {
    var sm, em, body := StartMarker(name), EndMarker(name), TrimEnd(overlayText);
    MarkersAreOneLine(name);
    if IndexOf(agent, sm, 0) <= IndexOf(agent, em, 0) {
      InOrderTwice(agent, body, sm, em);
    } else {
      var once := Splice(agent, body, sm, em);
      OutOfOrderStays(agent, body, sm, em);
      OutOfOrderStays(once, body, sm, em);
      OutOfOrderGrows(once, body, sm, em);
      OutOfOrderGrows(Splice(once, body, sm, em), body, sm, em);
    }
  }

  predicate BlockStartsText(agent: string) {
    InsertionPoint(agent) == 0 && (agent == "" || agent[0] != '\n')
  }

  /** A text without both markers and with none in front of the insertion point. */
  lemma {:induction false} UnmarkedTextTwice(agent: string, overlayText: string, name: string)
    requires GoodOverlay(overlayText, name) && !Marked(agent, name)
    requires AbsentBefore(agent, StartMarker(name), InsertionPoint(agent))
    requires AbsentBefore(agent, EndMarker(name), InsertionPoint(agent))
    ensures var once := Apply(agent, overlayText, name);
            var twice := Apply(once, overlayText, name);
            Apply(twice, overlayText, name) == twice && (twice == once <==> BlockStartsText(agent))
  {
    var sm, em, body := StartMarker(name), EndMarker(name), TrimEnd(overlayText);
    MarkersAreOneLine(name);
    TrimEndLast(overlayText);
    var once, head, tail := FirstInsertion(agent, body, sm, em);
    InOrderTwice(once, body, sm, em);
    SecondDropsBlankLines(once, head, body, tail, sm, em);
  }

  /** A text with one marker, in front of the insertion point, never keeps its form under the second application. */
  lemma {:induction false} LoneMarkerTwice(agent: string, overlayText: string, name: string)
    requires GoodOverlay(overlayText, name) && !Marked(agent, name)
    requires 0 <= IndexOf(agent, StartMarker(name), 0) < InsertionPoint(agent)
             || 0 <= IndexOf(agent, EndMarker(name), 0) < InsertionPoint(agent)
    ensures var once := Apply(agent, overlayText, name);
            var twice := Apply(once, overlayText, name);
            twice != once && (Apply(twice, overlayText, name) == twice <==> IndexOf(agent, EndMarker(name), 0) < 0)
  {
    var sm, em, body := StartMarker(name), EndMarker(name), TrimEnd(overlayText);
    MarkersAreOneLine(name);
    var once := Splice(agent, body, sm, em);
    if IndexOf(agent, em, 0) < 0 {
      var _, _ := LoneStartMarker(agent, body, sm, em);
      InOrderTwice(once, body, sm, em);
    } else {
      LoneEndMarker(agent, body, sm, em);
      OutOfOrderStays(once, body, sm, em);
      OutOfOrderGrows(once, body, sm, em);
      OutOfOrderGrows(Splice(once, body, sm, em), body, sm, em);
    }
  }

  /**
   * For every text, applying twice equals applying once if and only if both markers are there in order, or one is
   * missing and the block goes to the very beginning with no newline behind it. From the second application on the
   * text is stable unless the end marker precedes the start marker, or stands alone in the frontmatter.
   */
  lemma {:induction false} ApplyTwice(agent: string, overlayText: string, name: string)
    requires GoodOverlay(overlayText, name)
    ensures var start, end := IndexOf(agent, StartMarker(name), 0), IndexOf(agent, EndMarker(name), 0);
            var once := Apply(agent, overlayText, name);
            var twice := Apply(once, overlayText, name);
            && (twice == once <==> if Marked(agent, name) then start <= end else BlockStartsText(agent))
            && (Apply(twice, overlayText, name) == twice <==>
                  if Marked(agent, name) then start <= end else !(0 <= end < InsertionPoint(agent)))
  {
    if Marked(agent, name) {
      MarkedTextTwice(agent, overlayText, name);
    } else {
      var at := InsertionPoint(agent);
      NotBefore(agent, StartMarker(name), at);
      NotBefore(agent, EndMarker(name), at);
      if AbsentBefore(agent, StartMarker(name), at) && AbsentBefore(agent, EndMarker(name), at) {
        UnmarkedTextTwice(agent, overlayText, name);
      } else {
        LoneMarkerTwice(agent, overlayText, name);
      }
    }
  }

  // ---------------------------------------------------------------- the failing sides occur

  lemma {:induction false} OccursChar(s: string, part: string, i: int, k: nat)
    requires k < |part|
    ensures OccursAt(s, part, i) ==> s[i + k] == part[k]
  {
    if OccursAt(s, part, i) { assert s[i..i + |part|][k] == s[i + k]; }
  }

  lemma {:induction false} EndNotInStart(name: string, i: int)
    ensures !OccursAt(StartMarker(name), EndMarker(name), i)
  {
    var sm, em := StartMarker(name), EndMarker(name);
    assert sm[14] == 'S' && em[14] == 'E' && sm[1] == '!' && sm[2] == '-' && em[0] == '<';
    OccursChar(sm, em, i, 0);
    OccursChar(sm, em, i, 14);
  }

  /** The smallest overlay: its two markers on two lines. */
  function BareOverlay(name: string): string {
    StartMarker(name) + NEWLINE + EndMarker(name)
  }

  lemma {:induction false} EndOfBareOverlay(sm: string, em: string)
    requires OneLine(em) && em != "" && forall i :: !OccursAt(sm, em, i)
    ensures IndexOf(sm + NEWLINE + em, em, 0) == |sm| + 1
  {
    var text := sm + NEWLINE + em;
    assert text[|sm| + 1..] == em && text[..|sm|] == sm[..|sm|];
    forall j | 0 <= j < |sm| + 1 ensures !OccursAt(text, em, j) {
      if j + |em| <= |sm| { OccursInPrefix(text, sm, em, j, |sm|); } else { NewlineBlocks(text, em, j, |sm|); }
    }
    IndexOfIs(text, em, 0, |sm| + 1);
  }

  lemma {:induction false} BareOverlayIsGood(name: string)
    requires OneLine(name)
    ensures GoodOverlay(BareOverlay(name), name)
  {
    var sm, em, text := StartMarker(name), EndMarker(name), BareOverlay(name);
    MarkersAreOneLine(name);
    assert text[|text| - 1] == em[|em| - 1] == '>';
    assert TrimEnd(text) == text;
    forall i ensures !OccursAt(sm, em, i) { EndNotInStart(name, i); }
    EndOfBareOverlay(sm, em);
  }

  /** A frontmatter that holds one line and nothing else. */
  function Fenced(line: string): string {
    FENCE + line + CLOSING
  }

  lemma {:induction false} FencedChars(line: string, i: nat)
    requires OneLine(line) && i < |Fenced(line)|
    ensures Fenced(line)[i] == '<' ==> 4 <= i < 4 + |line|
    ensures 4 <= i < 4 + |line| ==> Fenced(line)[i] == line[i - 4] != '\n'
    ensures i == 4 + |line| ==> Fenced(line)[i] == '\n'
  {
  }

  /** A one-line text that begins as a tag occurs in such a text only within the line. */
  lemma {:induction false} OccursInLine(line: string, part: string, i: int)
    requires OneLine(line) && OneLine(part) && part != "" && part[0] == '<'
    ensures OccursAt(Fenced(line), part, i) ==> i >= 4 && OccursAt(line, part, i - 4)
  {
    var text := Fenced(line);
    if OccursAt(text, part, i) {
      assert text[i] == text[i..i + |part|][0];
      FencedChars(line, i);
      FencedChars(line, 4 + |line|);
      if i + |part| > 4 + |line| { NewlineBlocks(text, part, i, 4 + |line|); }
      assert text[i..i + |part|] == line[i - 4..i - 4 + |part|];
    }
  }

  lemma {:induction false} FencedInsertionPoint(line: string)
    requires OneLine(line)
    ensures InsertionPoint(Fenced(line)) == |Fenced(line)|
  {
    var text := Fenced(line);
    assert text[..4] == FENCE && text[4 + |line|..] == CLOSING;
    forall j | 4 <= j < 4 + |line| ensures !OccursAt(text, CLOSING, j) {
      FencedChars(line, j);
      OccursChar(text, CLOSING, j, 0);
    }
    IndexOfIs(text, CLOSING, 4, 4 + |line|);
  }

  lemma {:induction false} FencedMarkers(line: string, other: string)
    requires OneLine(line) && line != "" && line[0] == '<'
    requires OneLine(other) && other != "" && other[0] == '<' && forall i :: !OccursAt(line, other, i)
    ensures IndexOf(Fenced(line), line, 0) == 4 && IndexOf(Fenced(line), other, 0) < 0
  {
    var text := Fenced(line);
    assert text[4..4 + |line|] == line;
    forall j | 0 <= j < 4 ensures !OccursAt(text, line, j) { OccursInLine(line, line, j); }
    IndexOfIs(text, line, 0, 4);
    IndexOfMeaning(text, other, 0);
    OccursInLine(line, other, IndexOf(text, other, 0));
  }

  /** With an end marker alone in the frontmatter neither the second nor the third application settles. */
  lemma {:induction false} LoneEndOccurs(name: string)
    requires OneLine(name)
    ensures var once := Apply(Fenced(EndMarker(name)), BareOverlay(name), name);
            var twice := Apply(once, BareOverlay(name), name);
            GoodOverlay(BareOverlay(name), name) && twice != once && Apply(twice, BareOverlay(name), name) != twice
  {
    MarkersAreOneLine(name);
    BareOverlayIsGood(name);
    FencedInsertionPoint(EndMarker(name));
    FencedMarkers(EndMarker(name), StartMarker(name));
    LoneMarkerTwice(Fenced(EndMarker(name)), BareOverlay(name), name);
  }

  /** With a start marker alone in the frontmatter the second application loses text. */
  lemma {:induction false} LoneStartOccurs(name: string)
    requires OneLine(name)
    ensures var once := Apply(Fenced(StartMarker(name)), BareOverlay(name), name);
            GoodOverlay(BareOverlay(name), name) && |Apply(once, BareOverlay(name), name)| < |once|
  {
    MarkersAreOneLine(name);
    BareOverlayIsGood(name);
    FencedInsertionPoint(StartMarker(name));
    forall i ensures !OccursAt(StartMarker(name), EndMarker(name), i) { EndNotInStart(name, i); }
    FencedMarkers(StartMarker(name), EndMarker(name));
    var _, _ := LoneStartMarker(Fenced(StartMarker(name)), TrimEnd(BareOverlay(name)),
                                StartMarker(name), EndMarker(name));
  }
}
