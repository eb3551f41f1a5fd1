/** Which baseline files the fingerprint scanner reads from the right place: the text in front of the member is JSON. */
module FingerprintFile {
  import opened Lines
  import opened FingerprintScanner
  import Sequences

  // ---------------------------------------------------------------- JSON text up to a member name

  /** A string, or one character between strings. */
  datatype Token = Between(c: char) | Text(pieces: seq<Piece>)

  function TokenText(t: Token): string {
    match t
    case Between(c) => [c]
    case Text(pieces) => QUOTE + Body(pieces) + QUOTE
  }

  function TextOf(tokens: seq<Token>): string {
    if tokens == [] then "" else TokenText(tokens[0]) + TextOf(tokens[1..])
  }

  /** White space, or a structural character that can follow a string: section 2 of RFC 8259. */
  predicate IsSeparator(c: char) {
    c in {' ', '\t', '\n', '\r', ',', ':', ']', '}'}
  }

  /** Every string is well formed and something separates it from what comes next. */
  ghost predicate JsonPrefix(tokens: seq<Token>) {
    && (forall i | 0 <= i < |tokens| && tokens[i].Between? :: tokens[i].c != '"')
    && (forall i | 0 <= i < |tokens| && tokens[i].Text? ::
          && AllAllowed(tokens[i].pieces)
          && i + 1 < |tokens| && tokens[i + 1].Between? && IsSeparator(tokens[i + 1].c))
  }

  // ---------------------------------------------------------------- strings that show the key

  /** The letters of the member name. */
  const WORD: string := "fingerprints"

  function Plains(s: string): (r: seq<Piece>)
    ensures |r| == |s|
  {
    seq(|s|, i requires 0 <= i < |s| => Plain(s[i]))
  }

  /** A string that is the member name, or ends in a quote and the member name. */
  predicate ShowsKey(pieces: seq<Piece>) {
    |pieces| >= |WORD|
    && pieces[|pieces| - |WORD|..] == Plains(WORD)
    && (|pieces| == |WORD| || pieces[|pieces| - |WORD| - 1] == Short('"'))
  }

  /** The same of the value `JSON.stringify` was given. */
  predicate EndsInWord(s: string) {
    |s| >= |WORD| && s[|s| - |WORD|..] == WORD && (|s| == |WORD| || s[|s| - |WORD| - 1] == '"')
  }

  lemma {:induction false} KeyIsQuotedWord()
    ensures KEY == QUOTE + WORD + QUOTE && |WORD| == 12
    ensures forall i | 0 <= i < |WORD| :: WORD[i] != '"' && WORD[i] != '\\' && ' ' <= WORD[i]
  {
    assert forall i | 0 <= i < |WORD| :: 'a' <= WORD[i] <= 'z';
  }

  lemma {:induction false} PrintedShowsKey(s: string)
    ensures ShowsKey(PrintString(s)) <==> EndsInWord(s)
  {
    KeyIsQuotedWord();
    var ps := PrintString(s);
    if |s| >= |WORD| {
      var at := |s| - |WORD|;
      forall i | 0 <= i < |WORD| ensures ps[at..][i] == Plain(WORD[i]) <==> s[at..][i] == WORD[i] {
        assert ps[at..][i] == PrintChar(s[at + i]);
      }
      if ps[at..] == Plains(WORD) {
        forall i | 0 <= i < |WORD| ensures s[at..][i] == WORD[i] { assert ps[at..][i] == Plains(WORD)[i]; }
        assert s[at..] == WORD;
      }
      if s[at..] == WORD {
        forall i | 0 <= i < |WORD| ensures ps[at..][i] == Plains(WORD)[i] { assert s[at..][i] == WORD[i]; }
        assert ps[at..] == Plains(WORD);
      }
    }
  }

  // ---------------------------------------------------------------- the printed body of such a string

  lemma {:induction false} BodyOfPlains(w: string)
    ensures Body(Plains(w)) == w
  {
    if w != [] {
      BodyOfPlains(w[1..]);
      assert Plains(w)[1..] == Plains(w[1..]);
    }
  }

  lemma {:induction false} BodyCons(p: Piece, rest: seq<Piece>)
    ensures Body([p] + rest) == PieceText(p) + Body(rest)
  {
    assert ([p] + rest)[1..] == rest;
  }

  lemma {:induction false} BodyAppend(a: seq<Piece>, b: seq<Piece>)
    ensures Body(a + b) == Body(a) + Body(b)
  {
    if a == [] {
      assert a + b == b;
    } else {
      BodyAppend(a[1..], b);
      assert a + b == [a[0]] + (a[1..] + b);
      BodyCons(a[0], a[1..] + b);
      Sequences.Assoc(PieceText(a[0]), Body(a[1..]), Body(b));
    }
  }

  lemma {:induction false} BodyLast(qs: seq<Piece>, p: Piece)
    ensures Body(qs + [p]) == Body(qs) + PieceText(p)
  {
    BodyAppend(qs, [p]);
    assert [p] == [p] + [];
    BodyCons(p, []);
    assert PieceText(p) + Body([]) == PieceText(p);
  }

  lemma {:induction false} InnerQuotes(p: Piece, k: nat)
    requires Allowed(p) && k < |PieceText(p)| && PieceText(p)[k] == '"'
    ensures p == Short('"') && k == 1
  {
  }

  /** A body that is a plain word comes from the plain pieces. */
  lemma {:induction false} PiecesOfPlain(ps: seq<Piece>, w: string)
    requires AllAllowed(ps) && Body(ps) == w
    requires forall i | 0 <= i < |w| :: w[i] != '\\'
    ensures ps == Plains(w)
    decreases |ps|
  {
    if ps != [] {
      var piece := PieceText(ps[0]);
      assert piece[0] == w[0];
      assert w[1..] == Body(ps[1..]);
      PiecesOfPlain(ps[1..], w[1..]);
      assert ps == [ps[0]] + ps[1..] && Plains(w) == [Plain(w[0])] + Plains(w[1..]);
    } else {
      assert w == [];
    }
  }

  /** A body that ends in a plain word after a quote, or is the word, comes from pieces that end so. */
  lemma {:induction false} PiecesOfWord(ps: seq<Piece>, x: string, w: string) returns (qs: seq<Piece>)
    requires AllAllowed(ps) && Body(ps) == x + w
    requires forall i | 0 <= i < |w| :: w[i] != '\\'
    requires x == [] || x[|x| - 1] == '"'
    ensures ps == qs + Plains(w) && Body(qs) == x && AllAllowed(qs)
    decreases |ps|
  {
    if x == [] {
      assert x + w == w;
      PiecesOfPlain(ps, w);
      qs := [];
      assert qs + Plains(w) == ps;
    } else {
      var first := ps[0];
      PieceWithin(first, Body(ps[1..]), x, w);
      var more := PiecesOfWord(ps[1..], x[|PieceText(first)|..], w);
      qs := [first] + more;
      PutBack(ps, first, more, x, w);
    }
  }

  lemma {:induction false} PutBack(ps: seq<Piece>, first: Piece, more: seq<Piece>, x: string, w: string)
    requires ps != [] && ps[0] == first && ps[1..] == more + Plains(w)
    requires PieceText(first) <= x && Body(more) == x[|PieceText(first)|..]
    requires Allowed(first) && AllAllowed(more)
    ensures ps == ([first] + more) + Plains(w) && Body([first] + more) == x && AllAllowed([first] + more)
  {
    assert ps == [first] + ps[1..];
    BodyCons(first, more);
  }

  lemma {:induction false} PieceWithin(p: Piece, rest: string, x: string, w: string)
    requires Allowed(p) && PieceText(p) + rest == x + w && x != [] && x[|x| - 1] == '"'
    ensures PieceText(p) <= x && rest == x[|PieceText(p)|..] + w
    ensures var y := x[|PieceText(p)|..]; y == [] || y[|y| - 1] == '"'
  {
    var piece, n := PieceText(p), |x| - 1;
    assert (piece + rest)[n] == (x + w)[n] == '"';
    if n < |piece| { InnerQuotes(p, n); }
    assert piece == (x + w)[..|piece|];
    assert rest == (x + w)[|piece|..];
  }

  /** A body ends in a quote exactly when its last piece is an escaped one. */
  lemma {:induction false} LastQuote(qs: seq<Piece>)
    requires AllAllowed(qs) && qs != []
    ensures Body(qs) != [] && (Body(qs)[|Body(qs)| - 1] == '"' <==> qs[|qs| - 1] == Short('"'))
  {
    var n := |qs| - 1;
    assert qs == qs[..n] + [qs[n]];
    BodyLast(qs[..n], qs[n]);
    var piece := PieceText(qs[n]);
    assert Body(qs)[|Body(qs)| - 1] == piece[|piece| - 1];
    if piece[|piece| - 1] == '"' { InnerQuotes(qs[n], |piece| - 1); }
  }

  ghost predicate BodyShows(body: string) {
    |body| >= |WORD| && body[|body| - |WORD|..] == WORD && (|body| == |WORD| || body[|body| - |WORD| - 1] == '"')
  }

  lemma {:induction false} BodyShowsKey(ps: seq<Piece>)
    requires AllAllowed(ps)
    ensures BodyShows(Body(ps)) <==> ShowsKey(ps)
  {
    KeyIsQuotedWord();
    if BodyShows(Body(ps)) {
      var x := Body(ps)[..|Body(ps)| - |WORD|];
      assert Body(ps) == x + WORD;
      var qs := PiecesOfWord(ps, x, WORD);
      EndsShow(qs);
    }
    if ShowsKey(ps) {
      var qs := ps[..|ps| - |WORD|];
      assert ps == qs + Plains(WORD);
      EndsShow(qs);
    }
  }

  lemma {:induction false} EndsShow(qs: seq<Piece>)
    requires AllAllowed(qs)
    ensures BodyShows(Body(qs + Plains(WORD))) <==> qs == [] || qs[|qs| - 1] == Short('"')
    ensures ShowsKey(qs + Plains(WORD)) <==> qs == [] || qs[|qs| - 1] == Short('"')
  {
    BodyAppend(qs, Plains(WORD));
    BodyOfPlains(WORD);
    if qs != [] { LastQuote(qs); }
    WordAfter(Body(qs));
    assert (qs + Plains(WORD))[|qs|..] == Plains(WORD);
  }

  lemma {:induction false} WordAfter(x: string)
    ensures BodyShows(x + WORD) <==> x == [] || x[|x| - 1] == '"'
  {
    assert (x + WORD)[|x|..] == WORD;
  }

  // ---------------------------------------------------------------- the key inside one string

  /** Every quote of a body is an escaped one. */
  ghost predicate QuotesEscaped(body: string) {
    forall k | 0 <= k < |body| && body[k] == '"' :: k > 0 && body[k - 1] == '\\'
  }

  lemma {:induction false} BodyIsEscaped(ps: seq<Piece>)
    requires AllAllowed(ps)
    ensures QuotesEscaped(Body(ps))
  {
    if ps != [] {
      var piece, rest, body := PieceText(ps[0]), Body(ps[1..]), Body(ps);
      BodyIsEscaped(ps[1..]);
      forall k | 0 <= k < |body| && body[k] == '"' ensures k > 0 && body[k - 1] == '\\' {
        if k < |piece| { InnerQuotes(ps[0], k); } else { assert body[k] == rest[k - |piece|]; }
      }
    }
  }

  lemma {:induction false} OccursPointwise(s: string, part: string, i: int)
    ensures OccursAt(s, part, i) <==>
            0 <= i <= |s| - |part| && forall k | 0 <= k < |part| :: s[i + k] == part[k]
  {
    if 0 <= i <= |s| - |part| {
      var here := s[i..i + |part|];
      assert forall k | 0 <= k < |part| :: here[k] == s[i + k];
      if forall k | 0 <= k < |part| :: s[i + k] == part[k] { assert s[i..i + |part|] == part; }
    }
  }

  /** A quoted text whose inner quotes are escaped holds the key exactly at its end, after a quote. */
  lemma {:induction false} KeyInString(body: string, i: int)
    requires QuotesEscaped(body)
    ensures OccursAt(QUOTE + body + QUOTE, KEY, i) ==> i == |body| - |WORD|
    ensures OccursAt(QUOTE + body + QUOTE, KEY, |body| - |WORD|) <==> BodyShows(body)
  {
    KeyIsQuotedWord();
    var s := QUOTE + body + QUOTE;
    OccursPointwise(s, KEY, i);
    if OccursAt(s, KEY, i) {
      assert s[i + 13] == KEY[13] == '"' && s[i + 12] == KEY[12] == WORD[11];
      if i + 13 < |s| - 1 { assert false; }
    }
    KeyAtEnd(body);
  }

  lemma {:induction false} KeyAtEnd(body: string)
    ensures OccursAt(QUOTE + body + QUOTE, KEY, |body| - |WORD|) <==> BodyShows(body)
  {
    KeyIsQuotedWord();
    var s, n := QUOTE + body + QUOTE, |body| - |WORD|;
    if n >= 0 {
      assert s[n..n + |KEY|] == [s[n]] + body[n..] + QUOTE;
      assert KEY[0] == '"' && KEY[1..|KEY| - 1] == WORD;
      assert ([s[n]] + body[n..] + QUOTE)[0] == s[n] && ([s[n]] + body[n..] + QUOTE)[1..|KEY| - 1] == body[n..];
      assert s[n] == if n == 0 then '"' else body[n - 1];
    }
  }

  // ---------------------------------------------------------------- the key in the text in front of a member

  /** The key occurs within one of the strings. */
  ghost predicate SomeShows(tokens: seq<Token>) {
    exists i | 0 <= i < |tokens| :: tokens[i].Text? && ShowsKey(tokens[i].pieces)
  }

  lemma {:induction false} PrefixTail(tokens: seq<Token>)
    requires JsonPrefix(tokens) && tokens != []
    ensures JsonPrefix(tokens[1..])
    ensures SomeShows(tokens) <==> SomeShows(tokens[1..]) || (tokens[0].Text? && ShowsKey(tokens[0].pieces))
  {
    var rest := tokens[1..];
    forall i | 0 <= i < |rest| ensures rest[i] == tokens[i + 1] { }
    if i :| 0 <= i < |tokens| && tokens[i].Text? && ShowsKey(tokens[i].pieces) {
      if i > 0 { assert rest[i - 1].Text? && ShowsKey(rest[i - 1].pieces); }
    }
    if i :| 0 <= i < |rest| && rest[i].Text? && ShowsKey(rest[i].pieces) {
      assert tokens[i + 1].Text? && ShowsKey(tokens[i + 1].pieces);
    }
  }

  lemma {:induction false} OccursBehind(a: string, b: string, i: int)
    requires i >= |a|
    ensures OccursAt(a + b, KEY, i) <==> OccursAt(b, KEY, i - |a|)
  {
    if i + |KEY| <= |a + b| { assert (a + b)[i..i + |KEY|] == b[i - |a|..i - |a| + |KEY|]; }
  }

  lemma {:induction false} OccursInFront(a: string, b: string, i: int)
    requires i + |KEY| <= |a|
    ensures OccursAt(a + b, KEY, i) <==> OccursAt(a, KEY, i)
  {
    if 0 <= i { assert (a + b)[i..i + |KEY|] == a[i..i + |KEY|]; }
  }

  /** No occurrence of the key reaches across the end of a string. */
  lemma {:induction false} NotAcross(body: string, rest: string, i: int)
    requires rest != [] && rest[0] != 'f'
    requires 0 <= i < |body| + 2 < i + |KEY|
    ensures !OccursAt(QUOTE + body + QUOTE + rest, KEY, i)
  {
    var s, at := QUOTE + body + QUOTE + rest, |body| + 1;
    assert s[i + (at - i)] == '"' && s[at + 1] == rest[0] && KEY[1] == 'f';
    KeyInside(at - i);
    OccursPointwise(s, KEY, i);
  }

  /** What follows a string in front of a member. */
  lemma {:induction false} AfterString(tokens: seq<Token>)
    requires JsonPrefix(tokens) && tokens != [] && tokens[0].Text?
    ensures TextOf(tokens[1..]) != [] && TextOf(tokens[1..])[0] != 'f'
  {
    assert tokens[1].Between? && IsSeparator(tokens[1].c);
  }

  /** An occurrence at a token is within it or behind it. */
  lemma {:induction false} TokenStep(tokens: seq<Token>, t: string, next: string, i: int)
    requires JsonPrefix(tokens) && tokens != [] && t == TokenText(tokens[0])
    requires next == TextOf(tokens[1..]) + QUOTE
    ensures OccursAt(t + next, KEY, i) <==> OccursAt(next, KEY, i - |t|) || OccursAt(t, KEY, i)
  {
    if i >= |t| {
      OccursBehind(t, next, i);
    } else if i + |KEY| <= |t| {
      OccursInFront(t, next, i);
    } else if 0 <= i {
      match tokens[0]
      case Between(c) =>
        assert (t + next)[i + 0] == c;
        KeyInside(0);
        OccursPointwise(t + next, KEY, i);
      case Text(pieces) =>
        AfterString(tokens);
        NotAcross(Body(pieces), next, i);
    }
  }

  ghost predicate HoldsKey(s: string) {
    exists i :: OccursAt(s, KEY, i)
  }

  lemma {:induction false} TokenHoldsKey(t: Token)
    requires t.Text? ==> AllAllowed(t.pieces)
    ensures HoldsKey(TokenText(t)) <==> t.Text? && ShowsKey(t.pieces)
  {
    match t
    case Between(c) =>
    case Text(pieces) =>
      var body := Body(pieces);
      BodyIsEscaped(pieces);
      BodyShowsKey(pieces);
      KeyInString(body, 0);
      forall i ensures OccursAt(QUOTE + body + QUOTE, KEY, i) ==> i == |body| - |WORD| { KeyInString(body, i); }
  }

  lemma {:induction false} HoldsKeyStep(tokens: seq<Token>, t: string, next: string)
    requires JsonPrefix(tokens) && tokens != [] && t == TokenText(tokens[0])
    requires next == TextOf(tokens[1..]) + QUOTE
    ensures HoldsKey(t + next) <==> HoldsKey(next) || HoldsKey(t)
  {
    forall i ensures OccursAt(t + next, KEY, i) <==> OccursAt(next, KEY, i - |t|) || OccursAt(t, KEY, i) {
      TokenStep(tokens, t, next, i);
    }
    if j :| OccursAt(next, KEY, j) { assert OccursAt(t + next, KEY, j + |t|); }
  }

  /** In JSON text the key occurs in front of a member exactly when a string there shows it. */
  lemma {:induction false} KeyInPrefix(tokens: seq<Token>)
    requires JsonPrefix(tokens)
    ensures HoldsKey(TextOf(tokens) + QUOTE) <==> SomeShows(tokens)
    decreases |tokens|
  {
    if tokens != [] {
      var t, next := TokenText(tokens[0]), TextOf(tokens[1..]) + QUOTE;
      PrefixTail(tokens);
      KeyInPrefix(tokens[1..]);
      assert TextOf(tokens) + QUOTE == t + next;
      HoldsKeyStep(tokens, t, next);
      TokenHoldsKey(tokens[0]);
    }
  }

  /** An open copy of the key never stands right in front of a member of a JSON text. */
  lemma {:induction false} NeverEndsOpen(tokens: seq<Token>)
    requires JsonPrefix(tokens)
    ensures forall i | OccursAt(TextOf(tokens) + QUOTE, KEY, i) :: i + |KEY| <= |TextOf(tokens)|
    ensures !EndsOpen(TextOf(tokens))
    decreases |tokens|
  {
    if tokens != [] {
      var t, next := TokenText(tokens[0]), TextOf(tokens[1..]) + QUOTE;
      PrefixTail(tokens);
      NeverEndsOpen(tokens[1..]);
      assert TextOf(tokens) + QUOTE == t + next;
      forall i | OccursAt(t + next, KEY, i) ensures i + |KEY| <= |TextOf(tokens)| { TokenStep(tokens, t, next, i); }
    }
    OpenEndOccurs(TextOf(tokens));
  }

  lemma {:induction false} OpenEndOccurs(prefix: string)
    ensures EndsOpen(prefix) ==> OccursAt(prefix + QUOTE, KEY, |prefix| + 1 - |KEY|)
  {
    KeyIsStemAndQuote();
    if EndsOpen(prefix) {
      assert (prefix + QUOTE)[|prefix| - |STEM|..] == STEM + QUOTE;
    }
  }

  /** The scanner starts at the member itself if and only if no string in front of it shows the key. */
  lemma {:induction false} ScanStartsAtMember(tokens: seq<Token>, after: string)
    requires JsonPrefix(tokens)
    ensures IndexOf(TextOf(tokens) + KEY + after, KEY, 0) == |TextOf(tokens)| <==> !SomeShows(tokens)
  {
    var prefix := TextOf(tokens);
    var raw := prefix + KEY + after;
    KeyInPrefix(tokens);
    NeverEndsOpen(tokens);
    if SomeShows(tokens) {
      var i :| OccursAt(prefix + QUOTE, KEY, i);
      assert raw == prefix + (KEY + after);
      OccursInFront(prefix, QUOTE, i);
      OccursInFront(prefix, KEY + after, i);
      IndexOfMeaning(raw, KEY, 0);
    } else {
      FirstKey(prefix, after);
    }
  }

  /**
   * In a JSON file the section is the member's key and its array, whatever the strings hold, as long as no string in
   * front of the member is its name or ends in a quote and its name.
   */
  lemma {:induction false} SectionOfFile(tokens: seq<Token>, sep: string, items: seq<seq<Piece>>, gaps: seq<string>,
                                         suffix: string)
    requires JsonPrefix(tokens) && '[' !in sep && Printable(items, gaps)
    ensures !SomeShows(tokens) ==>
              Section(TextOf(tokens) + KEY + (sep + (ArrayText(items, gaps) + suffix))) ==
                KEY + sep + ArrayText(items, gaps)
  {
    KeyInPrefix(tokens);
    if !SomeShows(tokens) { SectionOfPrinted(TextOf(tokens), sep, items, gaps, suffix); }
  }

  /** The other case occurs: a recorded root named like the member is taken for the member. */
  lemma {:induction false} RootNamedLikeTheMember(after: string)
    ensures var tokens := [Between('['), Text(PrintString(WORD)), Between(']'), Between(',')];
            JsonPrefix(tokens) && IndexOf(TextOf(tokens) + KEY + after, KEY, 0) != |TextOf(tokens)|
  {
    var tokens := [Between('['), Text(PrintString(WORD)), Between(']'), Between(',')];
    PrintedShowsKey(WORD);
    assert tokens[1].Text? && ShowsKey(tokens[1].pieces);
    ScanStartsAtMember(tokens, after);
  }
}
