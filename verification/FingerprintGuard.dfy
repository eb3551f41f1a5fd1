/** The last check of a refresh: the fingerprint sections of the old and the new file are the same text. */
module FingerprintGuard {
  import opened Lines
  import opened Utf16
  import opened FingerprintScanner
  import opened FingerprintFile
  import JsonText
  import Sequences

  // ---------------------------------------------------------------- one printing of strings

  /** A text in code units. */
  function Encode(s: string): JsString {
    if s == [] then [] else Units(s[0]) + Encode(s[1..])
  }

  lemma {:induction false} EncodeCons(c: char, s: string)
    ensures Encode([c] + s) == Units(c) + Encode(s)
  {
    assert ([c] + s)[1..] == s;
  }

  lemma {:induction false} EncodeConcat(a: string, b: string)
    ensures Encode(a + b) == Encode(a) + Encode(b)
  {
    if a == [] {
      assert a + b == b;
    } else {
      EncodeConcat(a[1..], b);
      assert a + b == [a[0]] + (a[1..] + b);
      EncodeCons(a[0], a[1..] + b);
      Sequences.Assoc(Units(a[0]), Encode(a[1..]), Encode(b));
    }
  }

  lemma {:induction false} EncodeShort(a: char, b: char)
    requires a as int < 0x10000 && b as int < 0x10000
    ensures Encode([a]) == [a as int] && Encode([a, b]) == [a as int, b as int]
  {
    assert [a][1..] == [] && [a, b][1..] == [b] && [b][1..] == [];
  }

  lemma {:induction false} EncodeOne(c: char)
    ensures Encode([c]) == Units(c)
  {
    assert [c][1..] == [];
  }

  lemma {:induction false} EncodeFour(a: char, b: char, c: char, d: char)
    requires a as int < 0x10000 && b as int < 0x10000 && c as int < 0x10000 && d as int < 0x10000
    ensures Encode([a, b, c, d]) == [a as int, b as int, c as int, d as int]
  {
    assert [a, b, c, d] == [a, b] + [c, d];
    EncodeConcat([a, b], [c, d]);
    EncodeShort(a, b);
    EncodeShort(c, d);
  }

  lemma {:induction false} EncodeHex(p: Piece, m: int, n: int)
    requires 0 <= m < 16 && 0 <= n < 16 && p == Hex('0', '0', LowerHex(m), LowerHex(n))
    ensures Encode(PieceText(p)) == [92, 117, 48, 48, JsonText.LowerHex(m), JsonText.LowerHex(n)]
  {
    var x, y := LowerHex(m), LowerHex(n);
    assert PieceText(p) == ['\\', 'u'] + ['0', '0', x, y];
    EncodeConcat(['\\', 'u'], ['0', '0', x, y]);
    EncodeShort('\\', 'u');
    EncodeFour('0', '0', x, y);
  }

  /** One character is printed alike. */
  lemma {:induction false} PrintedCharAlike(c: char)
    requires c as int < 0x10000
    ensures Encode(PieceText(PrintChar(c))) == JsonText.UnitText(c as int)
    ensures !IsHigh(c as int) && !IsLow(c as int)
  {
    var u := c as int;
    match PrintChar(c)
    case Plain(_) => EncodeOne(c);
    case Short(l) => EncodeShort('\\', l);
    case Hex(_, _, _, _) => EncodeHex(PrintChar(c), u / 16, u % 16);
  }

  lemma {:induction false} PrintCons(c: char, s: string)
    ensures Body(PrintString([c] + s)) == PieceText(PrintChar(c)) + Body(PrintString(s))
  {
    assert PrintString([c] + s)[1..] == PrintString(s);
  }

  lemma {:induction false} QuotedUnit(u: CodeUnit, rest: JsString)
    requires !IsHigh(u)
    ensures JsonText.Quoted([u] + rest) == JsonText.UnitText(u) + JsonText.Quoted(rest)
  {
    assert ([u] + rest)[1..] == rest;
  }

  lemma {:induction false} QuotedPair(high: CodeUnit, low: CodeUnit, rest: JsString)
    requires IsHigh(high) && IsLow(low)
    ensures JsonText.Quoted([high, low] + rest) == [high, low] + JsonText.Quoted(rest)
  {
    assert ([high, low] + rest)[2..] == rest;
  }

  /** The printing the scanner is proved against, on characters, is that of `JSON.stringify`, on code units. */
  lemma {:induction false} PrintedAlike(s: string)
    ensures Encode(Body(PrintString(s)) + QUOTE) == JsonText.Quoted(Encode(s))
  {
    if s == [] {
      assert Body(PrintString(s)) + QUOTE == ['"'];
      EncodeOne('"');
    } else {
      var c, rest := s[0], s[1..];
      var tail := Body(PrintString(rest)) + QUOTE;
      assert s == [c] + rest;
      PrintedAlike(rest);
      PrintCons(c, rest);
      assert Body(PrintString(s)) + QUOTE == PieceText(PrintChar(c)) + tail;
      EncodeConcat(PieceText(PrintChar(c)), tail);
      if c as int < 0x10000 {
        PrintedCharAlike(c);
        QuotedUnit(c as int, Encode(rest));
      } else {
        EncodeOne(c);
        QuotedPair(Units(c)[0], Units(c)[1], Encode(rest));
      }
    }
  }

  // ---------------------------------------------------------------- the check

  /** A file: what stands in front of the member, its array as it is printed, and what follows. */
  datatype File = File(front: seq<Token>, sep: string, items: seq<seq<Piece>>, gaps: seq<string>, suffix: string)

  ghost predicate WellFormed(f: File) {
    JsonPrefix(f.front) && '[' !in f.sep && Printable(f.items, f.gaps)
  }

  function Raw(f: File): string
    requires |f.gaps| == |f.items| + 1
  {
    TextOf(f.front) + KEY + (f.sep + (ArrayText(f.items, f.gaps) + f.suffix))
  }

  /** With no misleading string in front the check compares the fingerprints and their layout, and nothing else. */
  lemma {:induction false} GuardComparesFingerprints(a: File, b: File)
    requires WellFormed(a) && WellFormed(b) && !SomeShows(a.front) && !SomeShows(b.front)
    ensures Section(Raw(a)) == Section(Raw(b)) <==> a.sep == b.sep && a.items == b.items && a.gaps == b.gaps
  {
    SectionOfFile(a.front, a.sep, a.items, a.gaps, a.suffix);
    SectionOfFile(b.front, b.sep, b.items, b.gaps, b.suffix);
    if Section(Raw(a)) == Section(Raw(b)) {
      ArrayDetermines(a.sep, b.sep, Tail(a.items, a.gaps), Tail(b.items, b.gaps));
      TailDetermines(a.items, a.gaps, b.items, b.gaps);
    }
  }

  lemma {:induction false} BeginningOf(prefix: string, between: string, rest: string)
    ensures var raw := prefix + KEY + (between + (OPEN + rest));
            var k, a := |prefix|, |prefix| + |KEY| + |between|;
            a < |raw| && raw[k..a + 1] == KEY + between + OPEN
  {
  }

  lemma {:induction false} LongerSlice(s: string, k: nat, m: nat, n: nat)
    requires k <= m <= n <= |s|
    ensures s[k..m] <= s[k..n]
  {
    assert s[k..n][..m - k] == s[k..m];
  }

  /** What the scanner cuts out begins with the first key and everything up to the first bracket behind it. */
  lemma {:induction false} SectionBegins(prefix: string, between: string, rest: string)
    requires KeyFree(prefix) && '[' !in between
    ensures var section := Section(prefix + KEY + (between + (OPEN + rest)));
            section == "" || KEY + between + OPEN <= section
  {
    var raw := prefix + KEY + (between + (OPEN + rest));
    var k, a := |prefix|, |prefix| + |KEY| + |between|;
    FirstKey(prefix, between + (OPEN + rest));
    FirstBracket(prefix, between, rest);
    BeginningOf(prefix, between, rest);
    var close := CloseIn(raw[a..], START);
    if close >= 0 {
      SectionIs(raw, k, a, close);
      LongerSlice(raw, k, a + 1, a + close + 1);
    }
  }

  lemma {:induction false} BracketOf(a: string, s: string)
    requires '[' !in a && KEY + a + OPEN <= s
    ensures IndexOf(s, OPEN, 0) == |KEY| + |a| && s[|KEY|..|KEY| + |a|] == a
  {
    var n := |KEY| + |a|;
    var rest := s[n + 1..];
    FirstBracket("", a, rest);
    assert s == s[..n + 1] + rest && s[..n + 1] == KEY + a + OPEN;
    assert "" + KEY + (a + (OPEN + rest)) == KEY + a + OPEN + rest;
  }

  lemma {:induction false} BeginningsDiffer(a: string, b: string, s: string)
    requires '[' !in a && '[' !in b && KEY + a + OPEN <= s && KEY + b + OPEN <= s
    ensures a == b
  {
    BracketOf(a, s);
    BracketOf(b, s);
  }

  /**
   * With a recorded root named like the member the check compares what stands behind that root instead: a refresh
   * that changes it, as one that adds a root does, is refused whatever the fingerprints are.
   */
  lemma {:induction false} GuardComparesRoots(front: seq<Token>, front': seq<Token>, behind: string, behind': string,
                                              rest: string, rest': string)
    requires JsonPrefix(front) && JsonPrefix(front') && !SomeShows(front) && !SomeShows(front')
    requires '[' !in behind && '[' !in behind' && behind != behind'
    ensures var old', new' := Section(TextOf(front) + KEY + (behind + (OPEN + rest))),
                              Section(TextOf(front') + KEY + (behind' + (OPEN + rest')));
            old' == new' ==> old' == ""
  {
    KeyInPrefix(front);
    KeyInPrefix(front');
    SectionBegins(TextOf(front), behind, rest);
    SectionBegins(TextOf(front'), behind', rest');
    var section := Section(TextOf(front) + KEY + (behind + (OPEN + rest)));
    if section == Section(TextOf(front') + KEY + (behind' + (OPEN + rest'))) && section != "" {
      BeginningsDiffer(behind, behind', section);
    }
  }
}
