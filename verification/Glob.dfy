/** Glob patterns compiled to regular expression text, and what that text means. */
module Glob {
  import opened Options
  import Sequences

  // ---------------------------------------------------------------- the compiler

  const SPECIAL: string := ".+^$()|[]{}\\"

  function Escaped(c: char): string {
    if c in SPECIAL then ['\\', c] else [c]
  }

  /** The text emitted for a glob, without the anchors. */
  function Body(glob: string): string {
    if glob == [] then ""
    else if glob[0] == '*' then
      if |glob| > 1 && glob[1] == '*' then
        if |glob| > 2 && glob[2] == '/' then "(?:.*/)?" + Body(glob[3..])
        else ".*" + Body(glob[2..])
      else "[^/]*" + Body(glob[1..])
    else if glob[0] == '?' then "[^/]" + Body(glob[1..])
    else Escaped(glob[0]) + Body(glob[1..])
  }

  function Text(glob: string): string {
    "^" + (Body(glob) + "$")
  }

  method GlobToRegex(glob: string) returns (pattern: string)
    ensures pattern == Text(glob)
  {
    if |glob| == 0 { return "^$"; }
    pattern := "^";
    var i := 0;
    assert glob[0..] == glob;
    while i < |glob|
      invariant 0 <= i <= |glob|
      invariant pattern + Body(glob[i..]) == "^" + Body(glob)
      decreases |glob| - i
    {
      var c := glob[i];
      ghost var rest := glob[i..];
      ghost var before := pattern;
      if c == '*' {
        if i + 1 < |glob| && glob[i + 1] == '*' {
          i := i + 2;
          if i < |glob| && glob[i] == '/' {
            i := i + 1;
            pattern := pattern + "(?:.*/)?";
            assert rest[3..] == glob[i..];
            Sequences.Assoc(before, "(?:.*/)?", Body(glob[i..]));
          } else {
            pattern := pattern + ".*";
            assert rest[2..] == glob[i..];
            Sequences.Assoc(before, ".*", Body(glob[i..]));
          }
        } else {
          pattern := pattern + "[^/]*";
          i := i + 1;
          assert rest[1..] == glob[i..];
          Sequences.Assoc(before, "[^/]*", Body(glob[i..]));
        }
      } else if c == '?' {
        pattern := pattern + "[^/]";
        i := i + 1;
        assert rest[1..] == glob[i..];
        Sequences.Assoc(before, "[^/]", Body(glob[i..]));
      } else if c in SPECIAL {
        pattern := pattern + ['\\', c];
        i := i + 1;
        assert rest[1..] == glob[i..];
        Sequences.Assoc(before, ['\\', c], Body(glob[i..]));
      } else {
        pattern := pattern + [c];
        i := i + 1;
        assert rest[1..] == glob[i..];
        Sequences.Assoc(before, [c], Body(glob[i..]));
      }
    }
    assert pattern + Body(glob[i..]) == pattern;
    pattern := pattern + "$";
  }

  // ---------------------------------------------------------------- reading regular expression text

  datatype Regex =
    | Empty
    | Lit(c: char)
    | Dot
    | Except(c: char)
    | Star(r: Regex)
    | Opt(r: Regex)
    | Then(first: Regex, rest: Regex)

  const SYNTAX: string := "^$\\.*+?()[]{}|"

  /** A quantifier after an atom; counted, one-or-more and lazy ones are not in this subset. */
  function Quantified(atom: Regex, s: string): (r: Option<(Regex, string)>)
    ensures r.Some? ==> |r.value.1| <= |s|
  {
    if s == [] || s[0] !in {'*', '?', '+', '{'} then Some((atom, s))
    else if s[0] in {'+', '{'} then None
    else if |s| > 1 && s[1] == '?' then None
    else Some((if s[0] == '*' then Star(atom) else Opt(atom), s[1..]))
  }

  function ParseAtom(s: string): (r: Option<(Regex, string)>)
    requires s != []
    ensures r.Some? ==> |r.value.1| < |s|
    decreases |s|, 0
  {
    if s[0] == '.' then Some((Dot, s[1..]))
    else if s[0] == '\\' then
      if |s| > 1 && s[1] in SYNTAX then Some((Lit(s[1]), s[2..])) else None
    else if s[0] == '[' then
      if |s| > 3 && s[1] == '^' && s[2] !in {']', '\\', '-'} && s[3] == ']' then Some((Except(s[2]), s[4..])) else None
    else if s[0] == '(' then
      if |s| > 2 && s[1] == '?' && s[2] == ':' then
        match ParseTerms(s[3..])
        case None => None
        case Some((group, rest)) => if rest != [] && rest[0] == ')' then Some((group, rest[1..])) else None
      else None
    else if s[0] in SYNTAX then None
    else Some((Lit(s[0]), s[1..]))
  }

  /** Terms up to a closing parenthesis, the end anchor or the end of the text. */
  function ParseTerms(s: string): (r: Option<(Regex, string)>)
    ensures r.Some? ==> |r.value.1| <= |s|
    decreases |s|, 1
  {
    if s == [] || s[0] == ')' || s[0] == '$' then Some((Empty, s))
    else
      match ParseAtom(s)
      case None => None
      case Some((atom, after)) =>
        match Quantified(atom, after)
        case None => None
        case Some((term, rest)) =>
          match ParseTerms(rest)
          case None => None
          case Some((terms, end)) => Some((Then(term, terms), end))
  }

  /** The expression between the two anchors. */
  function Parse(s: string): Option<Regex> {
    if s == [] || s[0] != '^' then None
    else
      match ParseTerms(s[1..])
      case Some((r, end)) => if end == "$" then Some(r) else None
      case None => None
  }

  predicate IsLineBreak(c: char) {
    c == '\n' || c == '\r' || c as int == 0x2028 || c as int == 0x2029
  }

  /** The whole of `s` is matched. */
  ghost predicate Matches(r: Regex, s: string)
    decreases r, |s|
  {
    match r
    case Empty => s == []
    case Lit(c) => s == [c]
    case Dot => |s| == 1 && !IsLineBreak(s[0])
    case Except(c) => |s| == 1 && s[0] != c
    case Star(inner) => s == [] || exists k | 0 < k <= |s| :: Matches(inner, s[..k]) && Matches(r, s[k..])
    case Opt(inner) => s == [] || Matches(inner, s)
    case Then(first, rest) => exists k | 0 <= k <= |s| :: Matches(first, s[..k]) && Matches(rest, s[k..])
  }

  // ---------------------------------------------------------------- what a glob means

  /** Wildcards read directly: `**` spans what `spans` allows, `*` and `?` stay inside one name. */
  ghost predicate GlobSpans(glob: string, path: string, spans: char -> bool)
    decreases |glob|
  {
    if glob == [] then path == []
    else if glob[0] == '*' then
      if |glob| > 1 && glob[1] == '*' then
        if |glob| > 2 && glob[2] == '/' then
          || GlobSpans(glob[3..], path, spans)
          || exists k | 0 < k <= |path| ::
               path[..k][k - 1] == '/' && AllOf(path[..k - 1], spans) && GlobSpans(glob[3..], path[k..], spans)
        else exists k | 0 <= k <= |path| :: AllOf(path[..k], spans) && GlobSpans(glob[2..], path[k..], spans)
      else exists k | 0 <= k <= |path| :: '/' !in path[..k] && GlobSpans(glob[1..], path[k..], spans)
    else if glob[0] == '?' then path != [] && path[0] != '/' && GlobSpans(glob[1..], path[1..], spans)
    else path != [] && path[0] == glob[0] && GlobSpans(glob[1..], path[1..], spans)
  }

  predicate AllOf(s: string, ok: char -> bool) {
    forall i | 0 <= i < |s| :: ok(s[i])
  }

  predicate Anything(c: char) {
    true
  }

  predicate NoBreak(c: char) {
    !IsLineBreak(c)
  }

  /** The documented meaning: `**` matches anything. */
  ghost predicate GlobMatches(glob: string, path: string) {
    GlobSpans(glob, path, Anything)
  }

  // ---------------------------------------------------------------- the emitted text parses back

  const FOLDERS := Then(Star(Dot), Then(Lit('/'), Empty))

  /** The expression a glob is meant to become. */
  function Intended(glob: string): Regex {
    if glob == [] then Empty
    else if glob[0] == '*' then
      if |glob| > 1 && glob[1] == '*' then
        if |glob| > 2 && glob[2] == '/' then Then(Opt(FOLDERS), Intended(glob[3..]))
        else Then(Star(Dot), Intended(glob[2..]))
      else Then(Star(Except('/')), Intended(glob[1..]))
    else if glob[0] == '?' then Then(Except('/'), Intended(glob[1..]))
    else Then(Lit(glob[0]), Intended(glob[1..]))
  }

  /** What follows an emitted piece never starts with a quantifier. */
  lemma {:induction false} NoQuantifierAhead(glob: string)
    ensures (Body(glob) + "$")[0] !in {'*', '?', '+', '{', ')'}
    ensures glob != [] ==> (Body(glob) + "$")[0] != '$'
  {
    if glob != [] && glob[0] != '*' && glob[0] != '?' {
      assert (Escaped(glob[0]) + Body(glob[1..]) + "$")[0] == Escaped(glob[0])[0];
    }
  }

  lemma {:induction false} TermOf(s: string, atom: Regex, after: string, term: Regex, rest: string, terms: Regex,
                                  end: string)
    requires s != [] && s[0] != ')' && s[0] != '$'
    requires ParseAtom(s) == Some((atom, after)) && Quantified(atom, after) == Some((term, rest))
    requires ParseTerms(rest) == Some((terms, end))
    ensures ParseTerms(s) == Some((Then(term, terms), end))
  {
  }

  lemma {:induction false} ParseFolders(rest: string)
    requires rest != [] && rest[0] !in {'*', '?', '+', '{'}
    ensures ParseAtom("(?:.*/)?" + rest) == Some((FOLDERS, "?" + rest))
  {
    var s: string := "(?:.*/)?" + rest;
    var a: string := ".*/)?" + rest;
    var b: string := "/)?" + rest;
    var c: string := ")?" + rest;
    assert s[3..] == a && a[1..][1..] == b && b[1..] == c && c[1..] == "?" + rest;
    assert a[1..][0] == '*' && a[1..][1] == '/';
    TermOf(b, Lit('/'), c, Lit('/'), c, Empty, c);
    TermOf(a, Dot, a[1..], Star(Dot), b, Then(Lit('/'), Empty), c);
  }

  /** Text that may follow a piece, and what it parses to. */
  ghost predicate Follows(rest: string, terms: Regex) {
    rest != [] && rest[0] !in {'*', '?', '+', '{'} && ParseTerms(rest) == Some((terms, "$"))
  }

  lemma {:induction false} ParseLeading(rest: string, terms: Regex)
    requires Follows(rest, terms)
    ensures ParseTerms("(?:.*/)?" + rest) == Some((Then(Opt(FOLDERS), terms), "$"))
  {
    ParseFolders(rest);
    assert ("?" + rest)[1..] == rest;
    TermOf("(?:.*/)?" + rest, FOLDERS, "?" + rest, Opt(FOLDERS), rest, terms, "$");
  }

  lemma {:induction false} ParseAnything(rest: string, terms: Regex)
    requires Follows(rest, terms)
    ensures ParseTerms(".*" + rest) == Some((Then(Star(Dot), terms), "$"))
  {
    assert (".*" + rest)[1..] == "*" + rest && ("*" + rest)[1..] == rest;
    TermOf(".*" + rest, Dot, "*" + rest, Star(Dot), rest, terms, "$");
  }

  lemma {:induction false} ParseName(rest: string, terms: Regex)
    requires Follows(rest, terms)
    ensures ParseTerms("[^/]*" + rest) == Some((Then(Star(Except('/')), terms), "$"))
    ensures ParseTerms("[^/]" + rest) == Some((Then(Except('/'), terms), "$"))
  {
    assert ("[^/]*" + rest)[4..] == "*" + rest && ("*" + rest)[1..] == rest;
    TermOf("[^/]*" + rest, Except('/'), "*" + rest, Star(Except('/')), rest, terms, "$");
    assert ("[^/]" + rest)[4..] == rest;
    TermOf("[^/]" + rest, Except('/'), rest, Except('/'), rest, terms, "$");
  }

  /** No escaped literal is read as an operator, and no operator as a literal. */
  lemma {:induction false} BodyParsesBack(glob: string)
    ensures ParseTerms(Body(glob) + "$") == Some((Intended(glob), "$"))
    decreases |glob|
  {
    if glob == [] {
      assert Body(glob) + "$" == "$";
    } else if glob[0] == '*' && |glob| > 1 && glob[1] == '*' {
      if |glob| > 2 && glob[2] == '/' {
        Step(glob, 3, "(?:.*/)?");
        ParseLeading(Body(glob[3..]) + "$", Intended(glob[3..]));
      } else {
        Step(glob, 2, ".*");
        ParseAnything(Body(glob[2..]) + "$", Intended(glob[2..]));
      }
    } else {
      Step(glob, 1, if glob[0] == '*' then "[^/]*" else if glob[0] == '?' then "[^/]" else Escaped(glob[0]));
      if glob[0] == '*' || glob[0] == '?' {
        ParseName(Body(glob[1..]) + "$", Intended(glob[1..]));
      } else {
        ParseLiteral(glob[0], Body(glob[1..]) + "$", Intended(glob[1..]));
      }
    }
  }

  lemma {:induction false} ParseLiteral(c: char, rest: string, terms: Regex)
    requires c != '*' && c != '?'
    requires Follows(rest, terms)
    ensures ParseTerms(Escaped(c) + rest) == Some((Then(Lit(c), terms), "$"))
  {
    var s := Escaped(c) + rest;
    if c in SPECIAL {
      assert s[2..] == rest;
    } else {
      assert s[1..] == rest;
    }
    TermOf(s, Lit(c), rest, Lit(c), rest, terms, "$");
  }

  lemma {:induction false} Step(glob: string, n: nat, piece: string)
    requires 0 < n <= |glob| && Body(glob) == piece + Body(glob[n..])
    ensures Body(glob) + "$" == piece + (Body(glob[n..]) + "$")
    ensures Follows(Body(glob[n..]) + "$", Intended(glob[n..]))
    decreases |glob|, 0
  {
    BodyParsesBack(glob[n..]);
    NoQuantifierAhead(glob[n..]);
  }

  lemma {:induction false} TextParsesBack(glob: string)
    ensures Parse(Text(glob)) == Some(Intended(glob))
  {
    BodyParsesBack(glob);
    assert Text(glob)[1..] == Body(glob) + "$";
  }

  // ---------------------------------------------------------------- meaning

  lemma {:induction false} StarOfDot(s: string)
    ensures Matches(Star(Dot), s) <==> AllOf(s, NoBreak)
    decreases |s|
  {
    if s != [] {
      StarOfDot(s[1..]);
      forall k | 0 < k <= |s| && Matches(Dot, s[..k]) ensures k == 1 {
      }
      assert s[..1][0] == s[0];
      assert s == [s[0]] + s[1..];
    }
  }

  lemma {:induction false} StarOfName(s: string)
    ensures Matches(Star(Except('/')), s) <==> '/' !in s
    decreases |s|
  {
    if s != [] {
      StarOfName(s[1..]);
      forall k | 0 < k <= |s| && Matches(Except('/'), s[..k]) ensures k == 1 {
      }
      assert s[..1][0] == s[0];
      assert s == [s[0]] + s[1..];
    }
  }

  lemma {:induction false} FoldersSplit(s: string, k: nat)
    requires k <= |s|
    ensures Matches(Star(Dot), s[..k]) && Matches(Then(Lit('/'), Empty), s[k..]) <==>
            k == |s| - 1 && s[k] == '/' && AllOf(s[..k], NoBreak)
  {
    SlashOnly(s[k..]);
    StarOfDot(s[..k]);
    if k == |s| - 1 && s[k] == '/' { assert s[k..] == "/"; }
    if s[k..] == "/" { assert s[k] == s[k..][0]; }
  }

  lemma {:induction false} FoldersMean(s: string)
    ensures Matches(FOLDERS, s) <==> s != [] && s[|s| - 1] == '/' && AllOf(s[..|s| - 1], NoBreak)
  {
    if Matches(FOLDERS, s) {
      var k :| 0 <= k <= |s| && Matches(Star(Dot), s[..k]) && Matches(Then(Lit('/'), Empty), s[k..]);
      FoldersSplit(s, k);
    }
    if s != [] && s[|s| - 1] == '/' && AllOf(s[..|s| - 1], NoBreak) { FoldersSplit(s, |s| - 1); }
  }

  lemma {:induction false} SlashOnly(s: string)
    ensures Matches(Then(Lit('/'), Empty), s) <==> s == "/"
  {
    if s == "/" {
      assert s[..1] == "/" && s[1..] == "";
    }
    if Matches(Then(Lit('/'), Empty), s) {
      var k :| 0 <= k <= |s| && Matches(Lit('/'), s[..k]) && Matches(Empty, s[k..]);
      assert s == s[..k] + s[k..];
    }
  }

  lemma {:induction false} ThenOne(r: Regex, rest: Regex, s: string)
    requires r.Lit? || r.Except?
    ensures Matches(Then(r, rest), s) <==> s != [] && Matches(r, s[..1]) && Matches(rest, s[1..])
  {
    forall k | 0 <= k <= |s| && Matches(r, s[..k]) ensures k == 1 {
    }
  }

  lemma {:induction false} SomeFolders(s: string, k: nat)
    requires 0 < k <= |s|
    ensures Matches(Opt(FOLDERS), s[..k]) <==> s[..k][k - 1] == '/' && AllOf(s[..k - 1], NoBreak)
  {
    var t := s[..k];
    FoldersMean(t);
    assert t[..k - 1] == s[..k - 1];
    assert Matches(Opt(FOLDERS), t) <==> t == [] || Matches(FOLDERS, t);
  }

  lemma {:induction false} ThenFolders(rest: Regex, s: string)
    ensures Matches(Then(Opt(FOLDERS), rest), s) <==>
            || Matches(rest, s)
            || exists k | 0 < k <= |s| :: s[..k][k - 1] == '/' && AllOf(s[..k - 1], NoBreak) && Matches(rest, s[k..])
  {
    assert s[0..] == s && s[..0] == [];
    var both := Then(Opt(FOLDERS), rest);
    if Matches(rest, s) {
      assert Matches(Opt(FOLDERS), s[..0]) && Matches(rest, s[0..]);
      assert Matches(both, s);
    }
    if k :| 0 < k <= |s| && s[..k][k - 1] == '/' && AllOf(s[..k - 1], NoBreak) && Matches(rest, s[k..]) {
      SomeFolders(s, k);
      assert Matches(Opt(FOLDERS), s[..k]) && Matches(rest, s[k..]);
      assert Matches(both, s);
    }
    if Matches(both, s) {
      var k :| 0 <= k <= |s| && Matches(Opt(FOLDERS), s[..k]) && Matches(rest, s[k..]);
      if k > 0 { SomeFolders(s, k); }
    }
  }

  /** The compiled expression accepts what the glob accepts when `**` may not span line breaks. */
  lemma {:induction false} IntendedMeans(glob: string, path: string)
    ensures Matches(Intended(glob), path) <==> GlobSpans(glob, path, NoBreak)
    decreases |glob|
  {
    if glob == [] {
    } else if glob[0] == '*' && |glob| > 1 && glob[1] == '*' && |glob| > 2 && glob[2] == '/' {
      ThenFolders(Intended(glob[3..]), path);
      IntendedMeans(glob[3..], path);
      forall k | 0 < k <= |path|
        ensures Matches(Intended(glob[3..]), path[k..]) <==> GlobSpans(glob[3..], path[k..], NoBreak)
      {
        IntendedMeans(glob[3..], path[k..]);
      }
    } else if glob[0] == '*' && |glob| > 1 && glob[1] == '*' {
      forall k | 0 <= k <= |path|
        ensures Matches(Star(Dot), path[..k]) && Matches(Intended(glob[2..]), path[k..]) <==>
                AllOf(path[..k], NoBreak) && GlobSpans(glob[2..], path[k..], NoBreak)
      {
        StarOfDot(path[..k]);
        IntendedMeans(glob[2..], path[k..]);
      }
    } else if glob[0] == '*' {
      forall k | 0 <= k <= |path|
        ensures Matches(Star(Except('/')), path[..k]) && Matches(Intended(glob[1..]), path[k..]) <==>
                '/' !in path[..k] && GlobSpans(glob[1..], path[k..], NoBreak)
      {
        StarOfName(path[..k]);
        IntendedMeans(glob[1..], path[k..]);
      }
    } else {
      var r := if glob[0] == '?' then Except('/') else Lit(glob[0]);
      ThenOne(r, Intended(glob[1..]), path);
      if path != [] { IntendedMeans(glob[1..], path[1..]); }
    }
  }

  predicate HasDoubleStar(glob: string) {
    exists i | 0 <= i < |glob| - 1 :: glob[i] == '*' && glob[i + 1] == '*'
  }

  /** How many characters of a glob make its first element. */
  function FirstLength(glob: string): nat
    requires glob != []
  {
    if glob[0] == '*' && |glob| > 1 && glob[1] == '*' then (if |glob| > 2 && glob[2] == '/' then 3 else 2) else 1
  }

  lemma {:induction false} BreaksDoNotMatter(glob: string, path: string)
    requires AllOf(path, NoBreak) || !HasDoubleStar(glob)
    ensures GlobSpans(glob, path, NoBreak) <==> GlobSpans(glob, path, Anything)
    decreases |glob|
  {
    if glob != [] {
      var n := FirstLength(glob);
      var rest := glob[n..];
      assert !HasDoubleStar(glob) ==> n == 1;
      if HasDoubleStar(rest) {
        var i :| 0 <= i < |rest| - 1 && rest[i] == '*' && rest[i + 1] == '*';
        assert glob[i + n] == '*' && glob[i + n + 1] == '*';
      }
      forall k | 0 <= k <= |path|
        ensures GlobSpans(rest, path[k..], NoBreak) <==> GlobSpans(rest, path[k..], Anything)
      {
        BreaksDoNotMatter(rest, path[k..]);
      }
      assert path[0..] == path;
    }
  }

  /**
   * Compilation preserves meaning: the emitted text parses back, and matches exactly the paths the glob accepts,
   * for every path without line breaks, and for every path at all when the glob has no `**`.
   */
  lemma {:induction false} CompilationPreservesMeaning(glob: string, path: string)
    requires AllOf(path, NoBreak) || !HasDoubleStar(glob)
    ensures Parse(Text(glob)).Some? && (Matches(Parse(Text(glob)).value, path) <==> GlobMatches(glob, path))
  {
    TextParsesBack(glob);
    IntendedMeans(glob, path);
    BreaksDoNotMatter(glob, path);
  }

  // ---------------------------------------------------------------- exactly when meaning is preserved

  predicate EndsName(s: string, i: nat)
    requires i < |s|
  {
    s[i] == '\n' && (i + 1 == |s| || s[i + 1] == '/')
  }

  /** How many names of a path end in a line break. */
  function BrokenNames(s: string): nat {
    if s == [] then 0 else (if EndsName(s, 0) then 1 else 0) + BrokenNames(s[1..])
  }

  lemma {:induction false} BrokenNamesSplit(s: string, k: nat)
    requires k <= |s|
    ensures BrokenNames(s) <= BrokenNames(s[..k]) + BrokenNames(s[k..])
    ensures BrokenNames(s[k..]) <= BrokenNames(s)
    decreases k
  {
    if k == 0 {
      assert s[0..] == s;
    } else {
      BrokenNamesSplit(s[1..], k - 1);
      assert s[..k][1..] == s[1..][..k - 1] && s[1..][k - 1..] == s[k..];
    }
  }

  /** Text without a line break has no such name, and text within one name at most one. */
  lemma {:induction false} BrokenNamesFew(s: string)
    ensures AllOf(s, NoBreak) ==> BrokenNames(s) == 0
    ensures '/' !in s ==> BrokenNames(s) <= 1
  {
    if s != [] {
      BrokenNamesFew(s[1..]);
      assert AllOf(s, NoBreak) ==> NoBreak(s[0]) && AllOf(s[1..], NoBreak);
      if |s| > 1 { assert s[1] in s; }
    }
  }

  /** Without line breaks in its double stars a glob spans at most one such name per character. */
  lemma {:induction false} SpansFewBrokenNames(glob: string, path: string)
    requires GlobSpans(glob, path, NoBreak)
    ensures BrokenNames(path) <= |glob|
    decreases |glob|
  {
    if glob != [] {
      var n := FirstLength(glob);
      var k := SpannedByFirst(glob, path, n);
      SpansFewBrokenNames(glob[n..], path[k..]);
      BrokenNamesSplit(path, k);
    }
  }

  lemma {:induction false} FoldersHaveFew(path: string, k: nat)
    requires 0 < k <= |path| && path[..k][k - 1] == '/' && AllOf(path[..k - 1], NoBreak)
    ensures BrokenNames(path[..k]) <= 1
  {
    var folders := path[..k];
    assert forall i | 0 <= i < k - 1 :: folders[i] == path[..k - 1][i];
    BrokenNamesFew(folders);
  }

  /** How much of a path the first element of a glob takes. */
  lemma {:induction false} SpannedByFirst(glob: string, path: string, n: nat) returns (k: nat)
    requires glob != [] && GlobSpans(glob, path, NoBreak) && n == FirstLength(glob)
    ensures k <= |path| && GlobSpans(glob[n..], path[k..], NoBreak) && BrokenNames(path[..k]) <= 1
  {
    if n == 3 {
      k := SpannedByFolders(glob, path);
    } else if n == 2 {
      k :| 0 <= k <= |path| && AllOf(path[..k], NoBreak) && GlobSpans(glob[2..], path[k..], NoBreak);
      BrokenNamesFew(path[..k]);
    } else if glob[0] == '*' {
      k :| 0 <= k <= |path| && '/' !in path[..k] && GlobSpans(glob[1..], path[k..], NoBreak);
      BrokenNamesFew(path[..k]);
    } else {
      k := 1;
      assert path[..1][1..] == [];
    }
  }

  lemma {:induction false} SpannedByFolders(glob: string, path: string) returns (k: nat)
    requires glob != [] && GlobSpans(glob, path, NoBreak) && FirstLength(glob) == 3
    ensures k <= |path| && GlobSpans(glob[3..], path[k..], NoBreak) && BrokenNames(path[..k]) <= 1
  {
    k := 0;
    assert path[..0] == [] && path[0..] == path;
    if !GlobSpans(glob[3..], path, NoBreak) {
      k :| 0 < k <= |path| && path[..k][k - 1] == '/' && AllOf(path[..k - 1], NoBreak)
        && GlobSpans(glob[3..], path[k..], NoBreak);
      FoldersHaveFew(path, k);
    }
  }

  /** `n` names that are line breaks, each with its slash. */
  function BreakNames(n: nat): string {
    if n == 0 then "" else ['\n', '/'] + BreakNames(n - 1)
  }

  lemma {:induction false} OneBrokenName(rest: string)
    ensures BrokenNames(['\n', '/'] + rest) == 1 + BrokenNames(rest)
  {
    var s := ['\n', '/'] + rest;
    assert s[1..] == ['/'] + rest && s[1..][1..] == rest;
  }

  lemma {:induction false} BreakNamesCount(n: nat, rest: string)
    ensures BrokenNames(BreakNames(n) + rest) == n + BrokenNames(rest)
  {
    if n == 0 {
      assert BreakNames(0) + rest == rest;
    } else {
      BreakNamesCount(n - 1, rest);
      OneBrokenName(BreakNames(n - 1) + rest);
      assert BreakNames(n) + rest == ['\n', '/'] + (BreakNames(n - 1) + rest);
    }
  }

  lemma {:induction false} BreakNamesEnd(n: nat)
    ensures |BreakNames(n)| == 2 * n
    ensures n > 0 ==> BreakNames(n)[2 * n - 1] == '/'
  {
    if n > 0 { BreakNamesEnd(n - 1); }
  }

  /** A path the glob accepts, with `n` broken names at every double star. */
  function Sample(glob: string, n: nat): string {
    if glob == [] then ""
    else if glob[0] == '*' then
      if |glob| > 1 && glob[1] == '*' then BreakNames(n) + Sample(glob[FirstLength(glob)..], n)
      else Sample(glob[1..], n)
    else (if glob[0] == '?' then "x" else [glob[0]]) + Sample(glob[1..], n)
  }

  lemma {:induction false} SampleIsAccepted(glob: string, n: nat)
    requires n > 0
    ensures GlobMatches(glob, Sample(glob, n))
    decreases |glob|
  {
    var path := Sample(glob, n);
    if glob == [] {
    } else if glob[0] == '*' && |glob| > 1 && glob[1] == '*' {
      var rest := glob[FirstLength(glob)..];
      SampleIsAccepted(rest, n);
      BreakNamesEnd(n);
      var k := 2 * n;
      assert path[..k] == BreakNames(n) && path[k..] == Sample(rest, n);
      assert AllOf(path[..k], Anything) && AllOf(path[..k - 1], Anything);
    } else {
      SampleIsAccepted(glob[1..], n);
      if glob[0] == '*' {
        assert path[..0] == [] && path[0..] == path;
      } else {
        assert path[1..] == Sample(glob[1..], n);
      }
    }
  }

  lemma {:induction false} SampleIsBroken(glob: string, n: nat)
    requires HasDoubleStar(glob)
    ensures BrokenNames(Sample(glob, n)) >= n
    decreases |glob|
  {
    var path := Sample(glob, n);
    if glob[0] == '*' && glob[1] == '*' {
      BreakNamesCount(n, Sample(glob[FirstLength(glob)..], n));
    } else {
      var rest := glob[1..];
      var i :| 0 <= i < |glob| - 1 && glob[i] == '*' && glob[i + 1] == '*';
      assert rest[i - 1] == '*' && rest[i] == '*';
      SampleIsBroken(rest, n);
      var k := if glob[0] == '*' then 0 else 1;
      assert path[k..] == Sample(rest, n);
      BrokenNamesSplit(path, k);
    }
  }

  ghost predicate CompiledAgrees(glob: string, path: string) {
    Parse(Text(glob)).Some? && (Matches(Parse(Text(glob)).value, path) <==> GlobMatches(glob, path))
  }

  /** A glob keeps its documented meaning on all paths if and only if it has no double star. */
  lemma {:induction false} MeaningPreservedForGlob(glob: string)
    ensures (forall path :: CompiledAgrees(glob, path)) <==> !HasDoubleStar(glob)
  {
    if HasDoubleStar(glob) {
      var path := Sample(glob, |glob| + 1);
      SampleIsAccepted(glob, |glob| + 1);
      SampleIsBroken(glob, |glob| + 1);
      if GlobSpans(glob, path, NoBreak) { SpansFewBrokenNames(glob, path); }
      TextParsesBack(glob);
      IntendedMeans(glob, path);
      assert !CompiledAgrees(glob, path);
    } else {
      forall path ensures CompiledAgrees(glob, path) { CompilationPreservesMeaning(glob, path); }
    }
  }

  /** A path is treated as documented by all globs if and only if it has no line break. */
  lemma {:induction false} MeaningPreservedForPath(path: string)
    ensures (forall glob :: CompiledAgrees(glob, path)) <==> AllOf(path, NoBreak)
  {
    if AllOf(path, NoBreak) {
      forall glob ensures CompiledAgrees(glob, path) { CompilationPreservesMeaning(glob, path); }
    } else {
      var glob: string := "**";
      TextParsesBack(glob);
      IntendedMeans(glob, path);
      assert path[..|path|] == path && path[|path|..] == [] && glob[2..] == [];
      assert AllOf(path[..|path|], Anything) && GlobSpans(glob[2..], path[|path|..], Anything);
      forall k | 0 <= k <= |path| ensures !(AllOf(path[..k], NoBreak) && GlobSpans(glob[2..], path[k..], NoBreak)) {
        if path[k..] == [] { assert path[..k] == path; }
      }
      assert !CompiledAgrees(glob, path);
    }
  }
}
