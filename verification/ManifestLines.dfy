/** The lines of an agent manifest: which are generated, which are hand-owned. */
module ManifestLines {
  import opened Options
  import opened Lines

  const START_TEXT := "# >>> " + "ADV-GENERATED adv_* tools " + "(source: AGENT_TOOL_POLICY)" + " >>>"
  const END_TEXT := "# <<< " + "ADV-GENERATED adv_* tools" + " <<<"
  const BLOCK_START := "  " + START_TEXT
  const BLOCK_END := "  " + END_TEXT

  const MANAGED_COMMENTS: set<string> := {
    "  # ADV " + "tool grants (generated from AGENT_TOOL_POLICY — do not edit by hand)",
    "  # Default-" + "deny wildcard",
    "  # Allowed",
    "  # Explicitly " + "blocked"
  }

  // ---------------------------------------------------------------- tool entries

  datatype Entry = Entry(pattern: string, allow: bool)

  predicate IsNameChar(c: char) {
    'A' <= c <= 'Z' || 'a' <= c <= 'z' || '0' <= c <= '9' || c == '_' || c == '*'
  }

  /** Length of the longest prefix of name characters. */
  function NameLength(s: string): (n: nat)
    ensures n <= |s|
    ensures forall i | 0 <= i < n :: IsNameChar(s[i])
    ensures n < |s| ==> !IsNameChar(s[n])
  {
    if s != [] && IsNameChar(s[0]) then 1 + NameLength(s[1..]) else 0
  }

  function ParseFlag(s: string): Option<bool> {
    if "true" <= s && IsBlank(s[4..]) then Some(true)
    else if "false" <= s && IsBlank(s[5..]) then Some(false)
    else None
  }

  function ParseBody(body: string): Option<Entry> {
    if !("adv_" <= body) then None
    else
      var n := NameLength(body[4..]);
      if n == 0 || 4 + n >= |body| || body[4 + n] != ':' then None
      else
        match ParseFlag(TrimStart(body[5 + n..]))
        case None => None
        case Some(flag) => Some(Entry(body[..4 + n], flag))
  }

  /** The `tools:` entry on a line: indentation, an `adv_` name, a colon and a boolean. */
  function ParseEntry(line: string): Option<Entry> {
    var body := TrimStart(line);
    if |body| == |line| then None else ParseBody(body)
  }

  predicate IsAdvEntry(line: string) {
    ParseEntry(line).Some?
  }

  predicate WellFormedName(name: string) {
    "adv_" <= name && |name| > 4 && NameLength(name[4..]) == |name| - 4
  }

  function EntryLine(name: string, allow: bool): string {
    "  " + name + ": " + if allow then "true" else "false"
  }

  lemma {:induction false} NameLengthOfPrefix(a: string, b: string)
    requires NameLength(a) == |a| && (b == [] || !IsNameChar(b[0]))
    ensures NameLength(a + b) == |a|
  {
    if a == [] {
      assert a + b == b;
    } else {
      assert (a + b)[1..] == a[1..] + b;
      NameLengthOfPrefix(a[1..], b);
    }
  }

  lemma {:induction false} TwoSpaces(s: string)
    requires s != [] && !IsSpace(s[0])
    ensures TrimStart("  " + s) == s
  {
    var a := "  " + s;
    var b := a[1..];
    assert IsSpace(a[0]) && IsSpace(b[0]);
    assert b[1..] == s;
    assert TrimStart(s) == s;
    assert TrimStart(b) == s;
  }

  lemma {:induction false} FlagParses(allow: bool)
    ensures ParseFlag(TrimStart(if allow then " true" else " false")) == Some(allow)
  {
    var flag := if allow then "true" else "false";
    var tail := if allow then " true" else " false";
    assert tail[1..] == flag && IsSpace(tail[0]) && !IsSpace(flag[0]);
    assert TrimStart(flag) == flag;
    assert flag[|flag|..] == "";
  }

  lemma {:induction false} NameOfBody(name: string, rest: string)
    requires WellFormedName(name) && (rest == [] || !IsNameChar(rest[0]))
    ensures "adv_" <= name + rest && NameLength((name + rest)[4..]) == |name| - 4
  {
    assert (name + rest)[4..] == name[4..] + rest;
    NameLengthOfPrefix(name[4..], rest);
    assert (name + rest)[..4] == name[..4];
  }

  lemma {:induction false} BodyParses(name: string, allow: bool)
    requires WellFormedName(name)
    ensures ParseBody(name + ": " + if allow then "true" else "false") == Some(Entry(name, allow))
  {
    var flag := if allow then " true" else " false";
    var rest := ":" + flag;
    var body := name + rest;
    assert name + ": " + (if allow then "true" else "false") == body;
    NameOfBody(name, rest);
    assert body[|name|] == ':' && body[..|name|] == name && body[|name| + 1..] == flag;
    FlagParses(allow);
  }

  lemma {:induction false} EntryLineParses(name: string, allow: bool)
    requires WellFormedName(name)
    ensures ParseEntry(EntryLine(name, allow)) == Some(Entry(name, allow))
    ensures Ink(EntryLine(name, allow)) == "a"
  {
    var body := name + ": " + if allow then "true" else "false";
    assert EntryLine(name, allow) == "  " + body;
    assert body[0] == name[0] == 'a';
    TwoSpaces(body);
    BodyParses(name, allow);
  }

  // ---------------------------------------------------------------- kinds of lines

  datatype Kind = StartMarker | EndMarker | AdvEntry | Managed | Plain

  function KindOf(line: string): Kind {
    if Trim(line) == START_TEXT then StartMarker
    else if Trim(line) == END_TEXT then EndMarker
    else if IsAdvEntry(line) then AdvEntry
    else if line in MANAGED_COMMENTS then Managed
    else Plain
  }

  lemma {:induction false} AdvEntryKind(line: string)
    requires IsAdvEntry(line)
    ensures KindOf(line) == AdvEntry
  {
    TrimInk(line);
  }

  lemma {:induction false} TrimOfVisible(s: string)
    requires s != [] && !IsSpace(s[0]) && !IsSpace(s[|s| - 1])
    ensures Trim("  " + s) == s
  {
    TwoSpaces(s);
  }

  lemma {:induction false} MarkerKinds()
    ensures KindOf(BLOCK_START) == StartMarker && KindOf(BLOCK_END) == EndMarker
    ensures Trim(BLOCK_START) == START_TEXT && Trim(BLOCK_END) == END_TEXT
  {
    assert START_TEXT[0] == '#' && END_TEXT[0] == '#';
    assert START_TEXT[|START_TEXT| - 1] == '>' && END_TEXT[|END_TEXT| - 1] == '<';
    TrimOfVisible(START_TEXT);
    TrimOfVisible(END_TEXT);
    assert |START_TEXT| != |END_TEXT|;
  }

  lemma {:induction false} ManagedShape(line: string) returns (s: string)
    requires line in MANAGED_COMMENTS
    ensures line == "  " + s && |s| > 2 && s[0] == '#' && s[2] in {'A', 'D', 'E'} && !IsSpace(s[|s| - 1])
  {
    s := line[2..];
  }

  lemma {:induction false} MarkerShape()
    ensures START_TEXT[0] == '#' && START_TEXT[2] == '>' && END_TEXT[0] == '#' && END_TEXT[2] == '<'
  {
  }

  lemma {:induction false} ManagedKind(line: string, s: string)
    requires line == "  " + s && |s| > 2 && s[0] == '#' && s[2] in {'A', 'D', 'E'} && !IsSpace(s[|s| - 1])
    requires line in MANAGED_COMMENTS
    ensures KindOf(line) == Managed && !IsAdvEntry(line) && Ink(line) == "#"
  {
    TrimOfVisible(s);
    MarkerShape();
    TrimInk(line);
  }

  /** The order in which the three tests are tried never matters. */
  lemma {:induction false} KindFacts(line: string)
    ensures IsAdvEntry(line) <==> KindOf(line) == AdvEntry
    ensures line in MANAGED_COMMENTS <==> KindOf(line) == Managed
  {
    if IsAdvEntry(line) { AdvEntryKind(line); }
    if line in MANAGED_COMMENTS {
      var s := ManagedShape(line);
      ManagedKind(line, s);
    }
  }

  /** A line whose first visible character is neither `#` nor `a` is hand-owned. */
  lemma {:induction false} PlainByInk(line: string)
    requires Ink(line) != "#" && Ink(line) != "a"
    ensures KindOf(line) == Plain
  {
    TrimInk(line);
    MarkerShape();
    if line in MANAGED_COMMENTS {
      var s := ManagedShape(line);
      ManagedKind(line, s);
    }
  }
}
