/** The scanner that cuts the fingerprint array out of the raw text of a baseline file. */
module FingerprintScanner {
  import opened Lines

  const KEY: string := "\"fingerprints\""
  const OPEN: string := "["
  const QUOTE: string := "\""

  // ---------------------------------------------------------------- the scan

  datatype Cursor = Cursor(depth: int, quoted: bool, escaped: bool)

  function Step(c: Cursor, ch: char): Cursor {
    if c.quoted then
      if c.escaped then c.(escaped := false)
      else if ch == '\\' then c.(escaped := true)
      else if ch == '"' then c.(quoted := false)
      else c
    else if ch == '"' then c.(quoted := true)
    else if ch == '[' then c.(depth := c.depth + 1)
    else if ch == ']' then c.(depth := c.depth - 1)
    else c
  }

  predicate Closes(c: Cursor, ch: char) {
    !c.quoted && ch == ']' && c.depth == 1
  }

  function Shift(r: int, n: nat): int {
    if r < 0 then -1 else r + n
  }

  /** Where the array closes in the text ahead, or -1. */
  function CloseIn(text: string, c: Cursor): (r: int)
    ensures -1 <= r < |text|
  {
    if text == [] then -1
    else if Closes(c, text[0]) then 0
    else Shift(CloseIn(text[1..], Step(c, text[0])), 1)
  }

  const START := Cursor(0, false, false)

  function Section(raw: string): string {
    var keyStart := IndexOf(raw, KEY, 0);
    if keyStart < 0 then ""
    else
      var arrayStart := IndexOf(raw, OPEN, keyStart);
      if arrayStart < 0 then ""
      else
        var close := CloseIn(raw[arrayStart..], START);
        if close < 0 then "" else raw[keyStart..arrayStart + close + 1]
  }

  method FingerprintSection(raw: string) returns (section: string)
    ensures section == Section(raw)
  {
    var keyStart := IndexOf(raw, KEY, 0);
    if keyStart < 0 { return ""; }
    var arrayStart := IndexOf(raw, OPEN, keyStart);
    if arrayStart < 0 { return ""; }
    var depth, quoted, escaped := 0, false, false;
    for index := arrayStart to |raw|
      invariant CloseIn(raw[arrayStart..], START) ==
                Shift(CloseIn(raw[index..], Cursor(depth, quoted, escaped)), index - arrayStart)
    {
      var character := raw[index];
      ghost var before := Cursor(depth, quoted, escaped);
      assert raw[index..][1..] == raw[index + 1..];
      if quoted {
        if escaped {
          escaped := false;
        } else if character == '\\' {
          escaped := true;
        } else if character == '"' {
          quoted := false;
        }
        assert Cursor(depth, quoted, escaped) == Step(before, character);
        continue;
      }
      if character == '"' {
        quoted := true;
      } else if character == '[' {
        depth := depth + 1;
      } else if character == ']' {
        depth := depth - 1;
        if depth == 0 { return raw[keyStart..index + 1]; }
      }
      assert Cursor(depth, quoted, escaped) == Step(before, character);
    }
    return "";
  }

  // ---------------------------------------------------------------- printed strings, section 7 of RFC 8259

  /** One character of a JSON string, in any of the forms the grammar allows. */
  datatype Piece = Plain(c: char) | Short(letter: char) | Hex(a: char, b: char, c2: char, d: char)

  predicate IsHexDigit(c: char) {
    '0' <= c <= '9' || 'a' <= c <= 'f' || 'A' <= c <= 'F'
  }

  predicate Allowed(p: Piece) {
    match p
    case Plain(c) => c != '"' && c != '\\' && ' ' <= c
    case Short(l) => l in {'"', '\\', '/', 'b', 'f', 'n', 'r', 't'}
    case Hex(a, b, c, d) => IsHexDigit(a) && IsHexDigit(b) && IsHexDigit(c) && IsHexDigit(d)
  }

  function PieceText(p: Piece): string {
    match p
    case Plain(c) => [c]
    case Short(l) => ['\\', l]
    case Hex(a, b, c, d) => ['\\', 'u', a, b, c, d]
  }

  function DigitValue(c: char): int {
    if '0' <= c <= '9' then c as int - 48 else if 'a' <= c <= 'f' then c as int - 87 else c as int - 55
  }

  /** The character a piece stands for, as its number. */
  function Meaning(p: Piece): int {
    match p
    case Plain(c) => c as int
    case Short(l) =>
      if l == 'b' then 8 else if l == 't' then 9 else if l == 'n' then 10 else if l == 'f' then 12
      else if l == 'r' then 13 else l as int
    case Hex(a, b, c, d) => ((DigitValue(a) * 16 + DigitValue(b)) * 16 + DigitValue(c)) * 16 + DigitValue(d)
  }

  function Value(pieces: seq<Piece>): seq<int> {
    seq(|pieces|, i requires 0 <= i < |pieces| => Meaning(pieces[i]))
  }

  function LowerHex(n: int): char
    requires 0 <= n < 16
  {
    if n < 10 then (48 + n) as char else (87 + n) as char
  }

  /** The form `JSON.stringify` chooses. */
  function PrintChar(c: char): (p: Piece)
    ensures Allowed(p) && Meaning(p) == c as int
  {
    var u := c as int;
    if c == '"' || c == '\\' then Short(c)
    else if u == 8 then Short('b')
    else if u == 9 then Short('t')
    else if u == 10 then Short('n')
    else if u == 12 then Short('f')
    else if u == 13 then Short('r')
    else if u < 32 then Hex('0', '0', LowerHex(u / 16), LowerHex(u % 16))
    else Plain(c)
  }

  function PrintString(s: string): (ps: seq<Piece>)
    ensures |ps| == |s| && AllAllowed(ps)
  {
    seq(|s|, i requires 0 <= i < |s| => PrintChar(s[i]))
  }

  predicate AllAllowed(pieces: seq<Piece>) {
    forall i | 0 <= i < |pieces| :: Allowed(pieces[i])
  }

  function Body(pieces: seq<Piece>): string {
    if pieces == [] then "" else PieceText(pieces[0]) + Body(pieces[1..])
  }

  predicate IsMark(c: char) {
    c == '"' || c == '[' || c == ']'
  }

  /** Commas, white space and line breaks: anything but quotes and brackets. */
  predicate IsGap(s: string) {
    forall i | 0 <= i < |s| :: !IsMark(s[i])
  }

  ghost predicate Printable(items: seq<seq<Piece>>, gaps: seq<string>) {
    && |gaps| == |items| + 1
    && (forall i | 0 <= i < |items| :: AllAllowed(items[i]))
    && (forall i | 0 <= i < |gaps| :: IsGap(gaps[i]))
  }

  /** A printed array after its opening bracket: a gap before each string and one before the closing bracket. */
  function Tail(items: seq<seq<Piece>>, gaps: seq<string>): string
    requires |gaps| == |items| + 1
    decreases |items|
  {
    if items == [] then gaps[0] + "]"
    else gaps[0] + (QUOTE + (Body(items[0]) + (QUOTE + Tail(items[1..], gaps[1..]))))
  }

  function ArrayText(items: seq<seq<Piece>>, gaps: seq<string>): string
    requires |gaps| == |items| + 1
  {
    OPEN + Tail(items, gaps)
  }

  // ---------------------------------------------------------------- skipping over printed text

  lemma {:induction false} OneStep(ch: char, rest: string, c: Cursor)
    requires !Closes(c, ch)
    ensures CloseIn([ch] + rest, c) == Shift(CloseIn(rest, Step(c, ch)), 1)
  {
    assert ([ch] + rest)[1..] == rest;
  }

  lemma {:induction false} SkipGap(gap: string, rest: string, c: Cursor)
    requires IsGap(gap) && !c.quoted
    ensures CloseIn(gap + rest, c) == Shift(CloseIn(rest, c), |gap|)
    decreases |gap|
  {
    if gap == [] {
      assert gap + rest == rest;
    } else {
      SkipGap(gap[1..], rest, c);
      assert gap + rest == [gap[0]] + (gap[1..] + rest);
      OneStep(gap[0], gap[1..] + rest, c);
    }
  }

  lemma {:induction false} SkipLetters(letters: string, rest: string, c: Cursor)
    requires c.quoted && !c.escaped && forall i | 0 <= i < |letters| :: letters[i] != '"' && letters[i] != '\\'
    ensures CloseIn(letters + rest, c) == Shift(CloseIn(rest, c), |letters|)
    decreases |letters|
  {
    if letters == [] {
      assert letters + rest == rest;
    } else {
      SkipLetters(letters[1..], rest, c);
      assert letters + rest == [letters[0]] + (letters[1..] + rest);
      OneStep(letters[0], letters[1..] + rest, c);
    }
  }

  lemma {:induction false} SkipEscaped(letter: char, letters: string, rest: string, c: Cursor)
    requires c.quoted && !c.escaped && forall i | 0 <= i < |letters| :: letters[i] != '"' && letters[i] != '\\'
    ensures CloseIn(['\\', letter] + letters + rest, c) == Shift(CloseIn(rest, c), 2 + |letters|)
  {
    assert ['\\', letter] + letters + rest == ['\\'] + ([letter] + (letters + rest));
    OneStep('\\', [letter] + (letters + rest), c);
    OneStep(letter, letters + rest, c.(escaped := true));
    SkipLetters(letters, rest, c);
  }

  lemma {:induction false} SkipPiece(p: Piece, rest: string, c: Cursor)
    requires Allowed(p) && c.quoted && !c.escaped
    ensures CloseIn(PieceText(p) + rest, c) == Shift(CloseIn(rest, c), |PieceText(p)|)
  {
    match p
    case Plain(x) =>
      SkipLetters([x], rest, c);
    case Short(l) =>
      SkipEscaped(l, [], rest, c);
      assert PieceText(p) == ['\\', l] + [];
    case Hex(a, b, x, d) =>
      SkipEscaped('u', [a, b, x, d], rest, c);
      assert PieceText(p) == ['\\', 'u'] + [a, b, x, d];
  }

  lemma {:induction false} SkipBody(pieces: seq<Piece>, rest: string, c: Cursor)
    requires AllAllowed(pieces) && c.quoted && !c.escaped
    ensures CloseIn(Body(pieces) + rest, c) == Shift(CloseIn(rest, c), |Body(pieces)|)
    decreases |pieces|
  {
    if pieces == [] {
      assert Body(pieces) + rest == rest;
    } else {
      SkipBody(pieces[1..], rest, c);
      SkipPiece(pieces[0], Body(pieces[1..]) + rest, c);
      assert Body(pieces) + rest == PieceText(pieces[0]) + (Body(pieces[1..]) + rest);
    }
  }

  lemma {:induction false} SkipString(pieces: seq<Piece>, rest: string, c: Cursor)
    requires AllAllowed(pieces) && !c.quoted && !c.escaped
    ensures CloseIn(QUOTE + (Body(pieces) + (QUOTE + rest)), c) == Shift(CloseIn(rest, c), |Body(pieces)| + 2)
  {
    var q := c.(quoted := true);
    OneStep('"', Body(pieces) + (QUOTE + rest), c);
    SkipBody(pieces, QUOTE + rest, q);
    OneStep('"', rest, q);
  }

  lemma {:induction false} TailSplits(items: seq<seq<Piece>>, gaps: seq<string>, suffix: string)
    requires |gaps| == |items| + 1
    ensures Tail(items, gaps) + suffix ==
            if items == [] then gaps[0] + ("]" + suffix)
            else gaps[0] + (QUOTE + (Body(items[0]) + (QUOTE + (Tail(items[1..], gaps[1..]) + suffix))))
  {
  }

  /** The scan stops at the bracket that closes the printed array, whatever its strings hold. */
  lemma {:induction false} StopsAtTheEnd(items: seq<seq<Piece>>, gaps: seq<string>, suffix: string)
    requires Printable(items, gaps)
    ensures CloseIn(Tail(items, gaps) + suffix, Cursor(1, false, false)) == |Tail(items, gaps)| - 1
    decreases |items|
  {
    var c := Cursor(1, false, false);
    TailSplits(items, gaps, suffix);
    if items == [] {
      SkipGap(gaps[0], "]" + suffix, c);
    } else {
      var rest := Tail(items[1..], gaps[1..]);
      StopsAtTheEnd(items[1..], gaps[1..], suffix);
      SkipString(items[0], rest + suffix, c);
      SkipGap(gaps[0], QUOTE + (Body(items[0]) + (QUOTE + (rest + suffix))), c);
    }
  }

  // ---------------------------------------------------------------- the scanner inverts printing

  /** No occurrence of the key starts in the prefix, not even one that shares the quote after it. */
  ghost predicate KeyFree(prefix: string) {
    forall i :: !OccursAt(prefix + QUOTE, KEY, i)
  }

  lemma {:induction false} KeyInside(i: nat)
    requires i < |KEY|
    ensures KEY[i] != '[' && (KEY[i] == '"' <==> i == 0 || i == |KEY| - 1)
  {
  }

  /** The key overlaps a copy of itself by one quote at most. */
  lemma {:induction false} NoEarlierKey(prefix: string, after: string, j: nat)
    requires KeyFree(prefix) && j < |prefix|
    ensures !OccursAt(prefix + KEY + after, KEY, j)
  {
    var raw := prefix + KEY + after;
    if j + |KEY| <= |prefix| + 1 {
      assert !OccursAt(prefix + QUOTE, KEY, j);
      assert (prefix + QUOTE)[j..j + |KEY|] == raw[j..j + |KEY|];
    } else if j + |KEY| <= |raw| {
      var at := |prefix| - j;
      assert raw[j..j + |KEY|][at] == raw[|prefix|] == '"';
      KeyInside(at);
    }
  }

  lemma {:induction false} FirstKey(prefix: string, after: string)
    requires KeyFree(prefix)
    ensures IndexOf(prefix + KEY + after, KEY, 0) == |prefix|
  {
    var raw := prefix + KEY + after;
    assert raw[|prefix|..|prefix| + |KEY|] == KEY;
    forall j | 0 <= j < |prefix| ensures !OccursAt(raw, KEY, j) { NoEarlierKey(prefix, after, j); }
    IndexOfIs(raw, KEY, 0, |prefix|);
  }

  lemma {:induction false} FirstBracket(prefix: string, sep: string, rest: string)
    requires '[' !in sep
    ensures IndexOf(prefix + KEY + (sep + (OPEN + rest)), OPEN, |prefix|) == |prefix| + |KEY| + |sep|
  {
    var raw := prefix + KEY + (sep + (OPEN + rest));
    var k, a := |prefix|, |prefix| + |KEY| + |sep|;
    assert raw[a..a + 1] == OPEN;
    forall j | k <= j < a ensures !OccursAt(raw, OPEN, j) {
      assert raw[j..j + 1][0] == raw[j];
      if j < k + |KEY| {
        KeyInside(j - k);
      } else {
        assert raw[j] == sep[j - k - |KEY|];
      }
    }
    IndexOfIs(raw, OPEN, k, a);
  }

  lemma {:induction false} Slices(prefix: string, sep: string, body: string, suffix: string)
    ensures var raw := prefix + KEY + (sep + (OPEN + (body + suffix)));
            var a := |prefix| + |KEY| + |sep|;
            && raw[a..] == OPEN + (body + suffix)
            && raw[|prefix|..a + 1 + |body|] == KEY + sep + (OPEN + body)
  {
  }

  lemma {:induction false} SectionIs(raw: string, k: nat, a: nat, close: nat)
    requires IndexOf(raw, KEY, 0) == k && IndexOf(raw, OPEN, k) == a && CloseIn(raw[a..], START) == close
    ensures Section(raw) == raw[k..a + close + 1]
  {
  }

  lemma {:induction false} SectionOf(prefix: string, sep: string, body: string, suffix: string)
    requires KeyFree(prefix) && '[' !in sep && body != []
    requires CloseIn(body + suffix, Cursor(1, false, false)) == |body| - 1
    ensures Section(prefix + KEY + (sep + (OPEN + (body + suffix)))) == KEY + sep + (OPEN + body)
  {
    FirstKey(prefix, sep + (OPEN + (body + suffix)));
    FirstBracket(prefix, sep, body + suffix);
    Slices(prefix, sep, body, suffix);
    OneStep('[', body + suffix, START);
    SectionIs(prefix + KEY + (sep + (OPEN + (body + suffix))), |prefix|, |prefix| + |KEY| + |sep|, |body|);
  }

  /**
   * For any list of strings printed as a JSON array, after any text free of the key and before any text,
   * the section is the key and exactly that array.
   */
  lemma {:induction false} SectionOfPrinted(prefix: string, sep: string, items: seq<seq<Piece>>, gaps: seq<string>,
                                            suffix: string)
    requires KeyFree(prefix) && '[' !in sep && Printable(items, gaps)
    ensures Section(prefix + KEY + (sep + (ArrayText(items, gaps) + suffix))) == KEY + sep + ArrayText(items, gaps)
  {
    var body := Tail(items, gaps);
    StopsAtTheEnd(items, gaps, suffix);
    SectionOf(prefix, sep, body, suffix);
    assert ArrayText(items, gaps) + suffix == OPEN + (body + suffix);
  }

  /** The key without its closing quote. */
  const STEM: string := KEY[..|KEY| - 1]

  predicate EndsOpen(prefix: string) {
    |prefix| >= |STEM| && prefix[|prefix| - |STEM|..] == STEM
  }

  ghost predicate LacksKey(prefix: string) {
    forall i :: !OccursAt(prefix, KEY, i)
  }

  lemma {:induction false} KeyIsStemAndQuote()
    ensures KEY == STEM + QUOTE && STEM + KEY == KEY + KEY[1..] && |STEM| == |KEY| - 1 && STEM[..1] == QUOTE
  {
  }

  /** An occurrence that needs the added quote begins with an open copy of the key. */
  lemma {:induction false} OccursAtTheEnd(prefix: string, n: nat)
    requires n + |KEY| == |prefix| + 1
    ensures OccursAt(prefix + QUOTE, KEY, n) ==> EndsOpen(prefix)
  {
    KeyIsStemAndQuote();
    var longer := prefix + QUOTE;
    assert longer[n..n + |KEY|] == prefix[n..] + QUOTE;
    assert (prefix[n..] + QUOTE)[..|STEM|] == prefix[n..];
    assert (STEM + QUOTE)[..|STEM|] == STEM;
  }

  lemma {:induction false} KeyFreeWhen(prefix: string)
    requires LacksKey(prefix) && !EndsOpen(prefix)
    ensures KeyFree(prefix)
  {
    var longer := prefix + QUOTE;
    forall i ensures !OccursAt(longer, KEY, i) {
      assert !OccursAt(prefix, KEY, i);
      if 0 <= i && i + |KEY| <= |prefix| {
        assert longer[i..i + |KEY|] == prefix[i..i + |KEY|];
      } else if 0 <= i && i + |KEY| == |prefix| + 1 {
        OccursAtTheEnd(prefix, i);
      }
    }
  }

  lemma {:induction false} KeyFreeBefore(before: string)
    requires LacksKey(before + STEM)
    ensures KeyFree(before)
  {
    KeyIsStemAndQuote();
    var prefix := before + STEM;
    forall i ensures !OccursAt(before + QUOTE, KEY, i) {
      assert !OccursAt(prefix, KEY, i);
      if 0 <= i && i + |KEY| <= |before| + 1 {
        assert (before + QUOTE)[i..i + |KEY|] == prefix[i..i + |KEY|];
      }
    }
  }

  lemma {:induction false} RestOfKeyHasNoBracket(sep: string)
    requires '[' !in sep
    ensures '[' !in KEY[1..] + sep
  {
    forall i | 0 <= i < |KEY| - 1 ensures KEY[1..][i] != '[' { KeyInside(i + 1); }
  }

  lemma {:induction false} Regrouped(a: string, stem: string, key: string, tail: string, b: string, c: string)
    requires stem + key == key + tail
    ensures a + stem + key + (b + c) == a + key + ((tail + b) + c)
    ensures key + (tail + b) + c == stem + (key + b + c)
  {
    calc {
      a + stem + key + (b + c);
      a + (stem + key) + (b + c);
      a + (key + tail) + (b + c);
      a + key + ((tail + b) + c);
    }
    calc {
      key + (tail + b) + c;
      (key + tail) + b + c;
      (stem + key) + b + c;
      stem + (key + b + c);
    }
  }

  /** An open copy of the key in front is taken for the key itself, and the section starts with it. */
  lemma {:induction false} OpenCopyMovesTheSection(before: string, sep: string, items: seq<seq<Piece>>,
                                                   gaps: seq<string>, suffix: string)
    requires LacksKey(before + STEM) && '[' !in sep && Printable(items, gaps)
    ensures Section(before + STEM + KEY + (sep + (ArrayText(items, gaps) + suffix))) ==
            STEM + (KEY + sep + ArrayText(items, gaps))
  {
    KeyIsStemAndQuote();
    KeyFreeBefore(before);
    RestOfKeyHasNoBracket(sep);
    SectionOfPrinted(before, KEY[1..] + sep, items, gaps, suffix);
    Regrouped(before, STEM, KEY, KEY[1..], sep, ArrayText(items, gaps) + suffix);
    Regrouped(before, STEM, KEY, KEY[1..], sep, ArrayText(items, gaps));
  }

  /** For a text that lacks the key, the section is exact if and only if the text does not end in an open copy of it. */
  lemma {:induction false} SectionIsExact(prefix: string, sep: string, items: seq<seq<Piece>>, gaps: seq<string>,
                                          suffix: string)
    requires LacksKey(prefix) && '[' !in sep && Printable(items, gaps)
    ensures Section(prefix + KEY + (sep + (ArrayText(items, gaps) + suffix))) == KEY + sep + ArrayText(items, gaps) <==>
            !EndsOpen(prefix)
  {
    if EndsOpen(prefix) {
      var before := prefix[..|prefix| - |STEM|];
      assert prefix == before + STEM;
      OpenCopyMovesTheSection(before, sep, items, gaps, suffix);
    } else {
      KeyFreeWhen(prefix);
      SectionOfPrinted(prefix, sep, items, gaps, suffix);
    }
  }

  // ---------------------------------------------------------------- equal sections, equal fingerprints

  function GapLength(s: string): nat {
    if s == [] || IsMark(s[0]) then 0 else 1 + GapLength(s[1..])
  }

  lemma {:induction false} GapLengthOf(gap: string, rest: string)
    requires IsGap(gap) && rest != [] && IsMark(rest[0])
    ensures GapLength(gap + rest) == |gap|
    decreases |gap|
  {
    if gap == [] {
      assert gap + rest == rest;
    } else {
      GapLengthOf(gap[1..], rest);
      assert (gap + rest)[1..] == gap[1..] + rest;
    }
  }

  lemma {:induction false} GapEnds(a: string, b: string, x: string, y: string)
    requires IsGap(a) && IsGap(b) && x != [] && y != [] && IsMark(x[0]) && IsMark(y[0])
    requires a + x == b + y
    ensures a == b && x == y
  {
    GapLengthOf(a, x);
    GapLengthOf(b, y);
    assert a == (a + x)[..|a|] && b == (b + y)[..|b|];
    assert x == (a + x)[|a|..] && y == (b + y)[|b|..];
  }

  lemma {:induction false} FirstPiece(p: Piece, q: Piece, x: string, y: string)
    requires Allowed(p) && Allowed(q) && PieceText(p) + x == PieceText(q) + y
    ensures p == q && x == y
  {
    var s, t := PieceText(p) + x, PieceText(q) + y;
    assert s[0] == t[0] && (s[0] == '\\' <==> !p.Plain?) && (t[0] == '\\' <==> !q.Plain?);
    if !p.Plain? {
      assert s[1] == t[1] && (s[1] == 'u' <==> p.Hex?) && (t[1] == 'u' <==> q.Hex?);
      if p.Hex? { assert s[2] == t[2] && s[3] == t[3] && s[4] == t[4] && s[5] == t[5]; }
    }
    assert x == s[|PieceText(p)|..] && y == t[|PieceText(q)|..];
  }

  lemma {:induction false} StartOfBody(ps: seq<Piece>, x: string)
    requires AllAllowed(ps)
    ensures var s := Body(ps) + (QUOTE + x);
            if ps == [] then s == QUOTE + x
            else s == PieceText(ps[0]) + (Body(ps[1..]) + (QUOTE + x)) && s[0] != '"'
  {
    if ps != [] { assert PieceText(ps[0])[0] != '"'; }
  }

  lemma {:induction false} BodyEnds(ps: seq<Piece>, qs: seq<Piece>, x: string, y: string)
    requires AllAllowed(ps) && AllAllowed(qs) && Body(ps) + (QUOTE + x) == Body(qs) + (QUOTE + y)
    ensures ps == qs && x == y
    decreases |ps|
  {
    StartOfBody(ps, x);
    StartOfBody(qs, y);
    assert ps == [] <==> qs == [];
    assert x == (QUOTE + x)[1..] && y == (QUOTE + y)[1..];
    if ps != [] {
      FirstPiece(ps[0], qs[0], Body(ps[1..]) + (QUOTE + x), Body(qs[1..]) + (QUOTE + y));
      BodyEnds(ps[1..], qs[1..], x, y);
      assert ps == [ps[0]] + ps[1..] && qs == [qs[0]] + qs[1..];
    }
  }

  /** What follows the first gap. */
  function AfterGap(items: seq<seq<Piece>>, gaps: seq<string>): (r: string)
    requires |gaps| == |items| + 1
    ensures r != [] && r[0] == (if items == [] then ']' else '"')
  {
    if items == [] then "]" else QUOTE + (Body(items[0]) + (QUOTE + Tail(items[1..], gaps[1..])))
  }

  /** A printed array can be read in one way only. */
  lemma {:induction false} TailDetermines(items: seq<seq<Piece>>, gaps: seq<string>, items': seq<seq<Piece>>,
                                          gaps': seq<string>)
    requires Printable(items, gaps) && Printable(items', gaps') && Tail(items, gaps) == Tail(items', gaps')
    ensures items == items' && gaps == gaps'
    decreases |items|
  {
    var x, y := AfterGap(items, gaps), AfterGap(items', gaps');
    GapEnds(gaps[0], gaps'[0], x, y);
    assert gaps == [gaps[0]] + gaps[1..] && gaps' == [gaps'[0]] + gaps'[1..];
    if items != [] {
      assert x[1..] == Body(items[0]) + (QUOTE + Tail(items[1..], gaps[1..]));
      assert y[1..] == Body(items'[0]) + (QUOTE + Tail(items'[1..], gaps'[1..]));
      BodyEnds(items[0], items'[0], Tail(items[1..], gaps[1..]), Tail(items'[1..], gaps'[1..]));
      TailDetermines(items[1..], gaps[1..], items'[1..], gaps'[1..]);
      assert items == [items[0]] + items[1..] && items' == [items'[0]] + items'[1..];
    }
  }

  lemma {:induction false} ArrayDetermines(sep: string, sep': string, x: string, y: string)
    requires '[' !in sep && '[' !in sep' && KEY + sep + (OPEN + x) == KEY + sep' + (OPEN + y)
    ensures sep == sep' && x == y
  {
    var s, t := KEY + sep + (OPEN + x), KEY + sep' + (OPEN + y);
    FirstBracket("", sep, x);
    FirstBracket("", sep', y);
    assert s == "" + KEY + (sep + (OPEN + x)) && t == "" + KEY + (sep' + (OPEN + y));
    assert sep == s[|KEY|..|KEY| + |sep|] && sep' == t[|KEY|..|KEY| + |sep'|];
    assert x == s[|KEY| + |sep| + 1..] && y == t[|KEY| + |sep'| + 1..];
  }

  /** Two files whose sections are the same text hold the same fingerprints in the same order. */
  lemma {:induction false} EqualSectionsEqualFingerprints(
      prefix: string, sep: string, items: seq<seq<Piece>>, gaps: seq<string>, suffix: string,
      prefix': string, sep': string, items': seq<seq<Piece>>, gaps': seq<string>, suffix': string)
    requires KeyFree(prefix) && '[' !in sep && Printable(items, gaps)
    requires KeyFree(prefix') && '[' !in sep' && Printable(items', gaps')
    requires Section(prefix + KEY + (sep + (ArrayText(items, gaps) + suffix))) ==
             Section(prefix' + KEY + (sep' + (ArrayText(items', gaps') + suffix')))
    ensures items == items' && gaps == gaps'
  {
    SectionOfPrinted(prefix, sep, items, gaps, suffix);
    SectionOfPrinted(prefix', sep', items', gaps', suffix');
    ArrayDetermines(sep, sep', Tail(items, gaps), Tail(items', gaps'));
    TailDetermines(items, gaps, items', gaps');
  }

  /** Printing chooses one form per character, and reading it back gives the character. */
  lemma {:induction false} PrintedStringsReadBack(s: string, t: string)
    ensures Value(PrintString(s)) == seq(|s|, i requires 0 <= i < |s| => s[i] as int)
    ensures PrintString(s) == PrintString(t) ==> s == t
  {
    if PrintString(s) == PrintString(t) {
      forall i | 0 <= i < |s| ensures s[i] == t[i] {
        assert Meaning(PrintString(s)[i]) == s[i] as int && Meaning(PrintString(t)[i]) == t[i] as int;
      }
    }
  }
}
