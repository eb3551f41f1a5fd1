/** What the pattern for tool entries accepts: `^\s+(adv_[A-Za-z0-9_*]+):\s*(true|false)\s*$`. */
module ManifestEntries {
  import opened Options
  import opened Lines
  import opened ManifestLines
  import Sequences

  ghost predicate Spaces(s: string) {
    forall i | 0 <= i < |s| :: IsSpace(s[i])
  }

  ghost predicate ToolName(name: string) {
    |name| > 4 && name[..4] == "adv_" && forall i | 4 <= i < |name| :: IsNameChar(name[i])
  }

  function FlagText(allow: bool): string {
    if allow then "true" else "false"
  }

  /** The line is white space, a tool name, a colon, white space, the flag and white space. */
  ghost predicate EntryShape(line: string, name: string, allow: bool, a: string, b: string, c: string) {
    && a != "" && Spaces(a) && Spaces(b) && Spaces(c) && ToolName(name)
    && line == a + (name + (":" + (b + (FlagText(allow) + c))))
  }

  // ---------------------------------------------------------------- white space in front

  lemma {:induction false} TrimStartOf(a: string, rest: string)
    requires Spaces(a) && (rest == "" || !IsSpace(rest[0]))
    ensures TrimStart(a + rest) == rest
    decreases |a|
  {
    if a == "" {
      assert a + rest == rest;
    } else {
      TrimStartOf(a[1..], rest);
      assert (a + rest)[1..] == a[1..] + rest;
    }
  }

  lemma {:induction false} TrimmedFront(s: string) returns (a: string)
    ensures Spaces(a) && s == a + TrimStart(s)
  {
    a := "";
    if s != "" && IsSpace(s[0]) {
      var more := TrimmedFront(s[1..]);
      a := [s[0]] + more;
      assert s == [s[0]] + s[1..];
    }
  }

  lemma {:induction false} BlankIsSpaces(s: string)
    ensures IsBlank(s) <==> Spaces(s)
  {
    if IsBlank(s) {
      var a := TrimmedFront(s);
      assert s == a;
    }
    if Spaces(s) {
      TrimStartOf(s, "");
      assert s + "" == s;
    }
  }

  // ---------------------------------------------------------------- the flag

  lemma {:induction false} FlagIs(s: string, allow: bool)
    ensures ParseFlag(s) == Some(allow) <==> FlagText(allow) <= s && Spaces(s[|FlagText(allow)|..])
  {
    if "true" <= s { BlankIsSpaces(s[4..]); }
    if "false" <= s { BlankIsSpaces(s[5..]); }
    assert "true" <= s ==> s[0] == 't';
    assert "false" <= s ==> s[0] == 'f';
  }

  // ---------------------------------------------------------------- the name

  lemma {:induction false} NameEnds(name: string, rest: string)
    requires (forall i | 0 <= i < |name| :: IsNameChar(name[i])) && rest != "" && !IsNameChar(rest[0])
    ensures NameLength(name + rest) == |name|
    decreases |name|
  {
    if name == "" {
      assert name + rest == rest;
    } else {
      NameEnds(name[1..], rest);
      assert (name + rest)[1..] == name[1..] + rest;
    }
  }

  /** The text behind the indentation: name, colon, white space, flag, white space. */
  ghost predicate BodyShape(body: string, name: string, allow: bool, b: string, c: string) {
    Spaces(b) && Spaces(c) && ToolName(name) && body == name + (":" + (b + (FlagText(allow) + c)))
  }

  lemma {:induction false} NameOf(name: string, tail: string)
    requires ToolName(name)
    ensures var body := name + (":" + tail);
            && "adv_" <= body && 4 + NameLength(body[4..]) == |name|
            && body[|name|] == ':' && body[..|name|] == name && body[|name| + 1..] == tail
  {
    var body := name + (":" + tail);
    assert body[4..] == name[4..] + (":" + tail);
    assert forall i | 0 <= i < |name| - 4 :: name[4..][i] == name[4 + i];
    NameEnds(name[4..], ":" + tail);
    assert body[..4] == name[..4];
  }

  lemma {:induction false} ShapeParses(body: string, name: string, allow: bool, b: string, c: string)
    requires BodyShape(body, name, allow, b, c)
    ensures ParseBody(body) == Some(Entry(name, allow))
  {
    var tail := b + (FlagText(allow) + c);
    NameOf(name, tail);
    TrimStartOf(b, FlagText(allow) + c);
    assert (FlagText(allow) + c)[|FlagText(allow)|..] == c;
    FlagIs(FlagText(allow) + c, allow);
  }

  lemma {:induction false} BodyCut(body: string, n: nat)
    requires |body| > 4 && 4 + n < |body| && body[4 + n] == ':'
    ensures body == body[..4 + n] + (":" + body[5 + n..])
  {
  }

  lemma {:induction false} ParsedName(body: string, name: string, allow: bool) returns (tail: string)
    requires ParseBody(body) == Some(Entry(name, allow))
    ensures ToolName(name) && body == name + (":" + tail) && ParseFlag(TrimStart(tail)) == Some(allow)
  {
    var n := NameLength(body[4..]);
    tail := body[5 + n..];
    BodyCut(body, n);
    assert name == body[..4 + n] && name[..4] == body[..4] == "adv_";
    forall i | 4 <= i < |name| ensures IsNameChar(name[i]) { assert name[i] == body[4..][i - 4]; }
  }

  lemma {:induction false} ParsedFlag(tail: string, allow: bool) returns (b: string, c: string)
    requires ParseFlag(TrimStart(tail)) == Some(allow)
    ensures Spaces(b) && Spaces(c) && tail == b + (FlagText(allow) + c)
  {
    var flag := TrimStart(tail);
    b := TrimmedFront(tail);
    FlagIs(flag, allow);
    c := flag[|FlagText(allow)|..];
    assert flag == FlagText(allow) + c;
  }

  lemma {:induction false} ParsedShape(body: string, name: string, allow: bool) returns (b: string, c: string)
    requires ParseBody(body) == Some(Entry(name, allow))
    ensures BodyShape(body, name, allow, b, c)
  {
    var tail := ParsedName(body, name, allow);
    b, c := ParsedFlag(tail, allow);
  }

  /** A line is read as an entry exactly when the pattern accepts it, with the name and the flag it captures. */
  lemma {:induction false} EntryMeans(line: string, name: string, allow: bool)
    ensures ParseEntry(line) == Some(Entry(name, allow)) <==> exists a, b, c :: EntryShape(line, name, allow, a, b, c)
  {
    if ParseEntry(line) == Some(Entry(name, allow)) {
      var a := TrimmedFront(line);
      var b, c := ParsedShape(TrimStart(line), name, allow);
      assert EntryShape(line, name, allow, a, b, c);
    }
    if a, b, c :| EntryShape(line, name, allow, a, b, c) {
      var body := name + (":" + (b + (FlagText(allow) + c)));
      assert name[..4][0] == name[0];
      TrimStartOf(a, body);
      ShapeParses(body, name, allow, b, c);
    }
  }
}
