/** The text `JSON.stringify` gives an array of strings: QuoteJSONString, section 25.5.2.3 of ECMA-262. */
module JsonText {
  import opened Utf16

  const QUOTE: CodeUnit := 34
  const BACKSLASH: CodeUnit := 92

  function LowerHex(n: int): CodeUnit
    requires 0 <= n < 16
  {
    if n < 10 then 48 + n else 87 + n
  }

  /** The letter of a two-character escape. */
  function ShortLetter(u: CodeUnit): CodeUnit {
    if u == 8 then 98 else if u == 9 then 116 else if u == 10 then 110 else if u == 12 then 102
    else if u == 13 then 114 else u
  }

  predicate IsShort(u: CodeUnit) {
    8 <= u <= 10 || u == 12 || u == 13 || u == QUOTE || u == BACKSLASH
  }

  /** One code unit that is no half of a surrogate pair. */
  function UnitText(u: CodeUnit): (r: JsString)
    ensures r != [] && r[0] != QUOTE && !IsLow(r[0])
  {
    if IsShort(u) then [BACKSLASH, ShortLetter(u)]
    else if u < 32 || IsHigh(u) || IsLow(u) then
      [BACKSLASH, 117, LowerHex(u / 4096), LowerHex(u / 256 % 16), LowerHex(u / 16 % 16), LowerHex(u % 16)]
    else [u]
  }

  predicate StartsWithPair(s: JsString) {
    |s| >= 2 && IsHigh(s[0]) && IsLow(s[1])
  }

  /** A printed string after its opening quote. */
  function Quoted(s: JsString): JsString {
    if s == [] then [QUOTE]
    else if StartsWithPair(s) then [s[0], s[1]] + Quoted(s[2..])
    else UnitText(s[0]) + Quoted(s[1..])
  }

  /** A printed array after one of its strings. */
  function Further(strings: seq<JsString>): JsString {
    if strings == [] then [93] else [44, QUOTE] + (Quoted(strings[0]) + Further(strings[1..]))
  }

  function ArrayText(strings: seq<JsString>): JsString {
    if strings == [] then [91, 93] else [91, QUOTE] + (Quoted(strings[0]) + Further(strings[1..]))
  }

  // ---------------------------------------------------------------- reading it back

  lemma {:induction false} ShortDetermines(u: CodeUnit, v: CodeUnit)
    requires IsShort(u) && IsShort(v) && ShortLetter(u) == ShortLetter(v)
    ensures u == v
  {
  }

  lemma {:induction false} DigitDetermines(m: int, n: int)
    requires 0 <= m < 16 && 0 <= n < 16 && LowerHex(m) == LowerHex(n)
    ensures m == n
  {
  }

  lemma {:induction false} DigitsOf(u: CodeUnit) returns (q: int, r: int, t: int)
    ensures q == u / 4096 && r == u / 256 && t == u / 16
    ensures u == 16 * t + u % 16 && t == 16 * r + t % 16 && r == 16 * q + r % 16
  {
    q, r, t := u / 4096, u / 256, u / 16;
  }

  lemma {:induction false} LongDetermines(u: CodeUnit, v: CodeUnit)
    requires LowerHex(u / 4096) == LowerHex(v / 4096) && LowerHex(u / 256 % 16) == LowerHex(v / 256 % 16)
    requires LowerHex(u / 16 % 16) == LowerHex(v / 16 % 16) && LowerHex(u % 16) == LowerHex(v % 16)
    ensures u == v
  {
    DigitDetermines(u / 4096, v / 4096);
    DigitDetermines(u / 256 % 16, v / 256 % 16);
    DigitDetermines(u / 16 % 16, v / 16 % 16);
    DigitDetermines(u % 16, v % 16);
    var q, r, t := DigitsOf(u);
    var q', r', t' := DigitsOf(v);
  }

  lemma {:induction false} UnitDetermines(u: CodeUnit, v: CodeUnit, x: JsString, y: JsString)
    requires UnitText(u) + x == UnitText(v) + y
    ensures u == v && x == y
  {
    var a, b := UnitText(u) + x, UnitText(v) + y;
    assert a[0] == b[0];
    if a[0] == BACKSLASH {
      assert a[1] == b[1];
      if a[1] == 117 {
        assert a[2] == b[2] && a[3] == b[3] && a[4] == b[4] && a[5] == b[5];
        LongDetermines(u, v);
      } else {
        ShortDetermines(u, v);
      }
    }
    assert x == a[|UnitText(u)|..] && y == b[|UnitText(v)|..];
  }

  /** What a printed string begins with. */
  lemma {:induction false} StartOfEmpty(x: JsString)
    ensures Quoted([]) + x == [QUOTE] + x
  {
  }

  lemma {:induction false} StartOfPair(s: JsString, x: JsString)
    requires StartsWithPair(s)
    ensures Quoted(s) + x == [s[0], s[1]] + (Quoted(s[2..]) + x)
  {
  }

  lemma {:induction false} StartOfUnit(s: JsString, x: JsString)
    requires s != [] && !StartsWithPair(s)
    ensures Quoted(s) + x == UnitText(s[0]) + (Quoted(s[1..]) + x)
  {
  }

  lemma {:induction false} StartOf(s: JsString, x: JsString)
    ensures var a := Quoted(s) + x;
            if s == [] then a == [QUOTE] + x
            else if StartsWithPair(s) then a == [s[0], s[1]] + (Quoted(s[2..]) + x)
            else a == UnitText(s[0]) + (Quoted(s[1..]) + x) && !IsHigh(a[0])
    ensures Quoted(s) != [] && (s == [] <==> Quoted(s)[0] == QUOTE)
  {
    if s == [] { StartOfEmpty(x); } else if StartsWithPair(s) { StartOfPair(s, x); } else { StartOfUnit(s, x); }
  }

  lemma {:induction false} QuotedDetermines(s: JsString, t: JsString, x: JsString, y: JsString)
    requires Quoted(s) + x == Quoted(t) + y
    ensures s == t && x == y
    decreases |s|
  {
    StartOf(s, x);
    StartOf(t, y);
    var a, b := Quoted(s) + x, Quoted(t) + y;
    if s == [] {
      assert x == a[1..] && y == b[1..];
    } else if IsHigh(a[0]) {
      assert a[0] == b[0] && a[1] == b[1];
      assert a[2..] == Quoted(s[2..]) + x && b[2..] == Quoted(t[2..]) + y;
      QuotedDetermines(s[2..], t[2..], x, y);
      assert s == [s[0], s[1]] + s[2..] && t == [t[0], t[1]] + t[2..];
    } else {
      UnitDetermines(s[0], t[0], Quoted(s[1..]) + x, Quoted(t[1..]) + y);
      QuotedDetermines(s[1..], t[1..], x, y);
      assert s == [s[0]] + s[1..] && t == [t[0]] + t[1..];
    }
  }

  lemma {:induction false} FurtherDetermines(a: seq<JsString>, b: seq<JsString>)
    requires Further(a) == Further(b)
    ensures a == b
    decreases |a|
  {
    assert Further(a)[0] == Further(b)[0];
    if a != [] {
      assert Further(a)[2..] == Quoted(a[0]) + Further(a[1..]) && Further(b)[2..] == Quoted(b[0]) + Further(b[1..]);
      QuotedDetermines(a[0], b[0], Further(a[1..]), Further(b[1..]));
      FurtherDetermines(a[1..], b[1..]);
      assert a == [a[0]] + a[1..] && b == [b[0]] + b[1..];
    }
  }

  /** Arrays of strings with the same text are the same. */
  lemma {:induction false} ArrayTextDetermines(a: seq<JsString>, b: seq<JsString>)
    ensures ArrayText(a) == ArrayText(b) ==> a == b
  {
    if ArrayText(a) == ArrayText(b) {
      assert ArrayText(a)[1] == ArrayText(b)[1];
      if a != [] {
        assert ArrayText(a)[2..] == Quoted(a[0]) + Further(a[1..])
               && ArrayText(b)[2..] == Quoted(b[0]) + Further(b[1..]);
        QuotedDetermines(a[0], b[0], Further(a[1..]), Further(b[1..]));
        FurtherDetermines(a[1..], b[1..]);
        assert a == [a[0]] + a[1..] && b == [b[0]] + b[1..];
      }
    }
  }
}
