/** JavaScript strings as code units, and the order by code points. */
module Utf16 {
  import Sorting

  type CodeUnit = u: int | 0 <= u < 0x10000
  type JsString = seq<CodeUnit>

  /** A program constant as a JavaScript string. */
  function U(s: string): (r: JsString)
    ensures |r| == |s|
  {
    seq(|s|, i requires 0 <= i < |s| => (s[i] as int) % 0x10000)
  }

  predicate IsHigh(u: CodeUnit) {
    0xD800 <= u <= 0xDBFF
  }

  predicate IsLow(u: CodeUnit) {
    0xDC00 <= u <= 0xDFFF
  }

  function PairPoint(high: CodeUnit, low: CodeUnit): int {
    0x10000 + (high - 0xD800) * 0x400 + (low - 0xDC00)
  }

  /** Spreading a string: surrogate pairs become one point, lone surrogates stay themselves. */
  function CodePoints(s: JsString): seq<int> {
    if s == [] then []
    else if |s| >= 2 && IsHigh(s[0]) && IsLow(s[1]) then [PairPoint(s[0], s[1])] + CodePoints(s[2..])
    else [s[0]] + CodePoints(s[1..])
  }

  /** `codePointCompare` on the spread strings. */
  function ComparePoints(left: seq<int>, right: seq<int>): int
    decreases |left|
  {
    if left == [] || right == [] then |left| - |right|
    else if left[0] != right[0] then left[0] - right[0]
    else ComparePoints(left[1..], right[1..])
  }

  function Compare(left: JsString, right: JsString): int {
    ComparePoints(CodePoints(left), CodePoints(right))
  }

  method CodePointCompare(left: JsString, right: JsString) returns (r: int)
    ensures r == Compare(left, right)
  {
    var leftPoints, rightPoints := CodePoints(left), CodePoints(right);
    var length := if |leftPoints| < |rightPoints| then |leftPoints| else |rightPoints|;
    assert leftPoints[0..] == leftPoints && rightPoints[0..] == rightPoints;
    for index := 0 to length
      invariant Compare(left, right) == ComparePoints(leftPoints[index..], rightPoints[index..])
    {
      if leftPoints[index] != rightPoints[index] {
        return leftPoints[index] - rightPoints[index];
      }
      assert leftPoints[index..][1..] == leftPoints[index + 1..];
      assert rightPoints[index..][1..] == rightPoints[index + 1..];
    }
    return |leftPoints| - |rightPoints|;
  }

  // ---------------------------------------------------------------- spreading loses nothing

  function EncodePoint(p: int): JsString
    requires 0 <= p < 0x110000
  {
    if p < 0x10000 then [p]
    else [0xD800 + (p - 0x10000) / 0x400, 0xDC00 + (p - 0x10000) % 0x400]
  }

  ghost predicate ArePoints(ps: seq<int>) {
    forall p | p in ps :: 0 <= p < 0x110000
  }

  function Encode(ps: seq<int>): JsString
    requires ArePoints(ps)
  {
    if ps == [] then []
    else
      assert ps[0] in ps && forall p | p in ps[1..] :: p in ps;
      EncodePoint(ps[0]) + Encode(ps[1..])
  }

  lemma {:induction false} PairRoundTrip(high: CodeUnit, low: CodeUnit)
    requires IsHigh(high) && IsLow(low)
    ensures 0x10000 <= PairPoint(high, low) < 0x110000
    ensures EncodePoint(PairPoint(high, low)) == [high, low]
  {
    var a, b := high - 0xD800, low - 0xDC00;
    assert (a * 0x400 + b) / 0x400 == a && (a * 0x400 + b) % 0x400 == b;
  }

  /** The code points determine the string. */
  lemma {:induction false} SpreadRoundTrip(s: JsString)
    ensures ArePoints(CodePoints(s)) && Encode(CodePoints(s)) == s
  {
    if s != [] {
      var ps := CodePoints(s);
      if |s| >= 2 && IsHigh(s[0]) && IsLow(s[1]) {
        SpreadRoundTrip(s[2..]);
        PairRoundTrip(s[0], s[1]);
        assert ps[1..] == CodePoints(s[2..]);
        assert s == [s[0], s[1]] + s[2..];
      } else {
        SpreadRoundTrip(s[1..]);
        assert ps[1..] == CodePoints(s[1..]);
        assert EncodePoint(s[0]) == [s[0]];
        assert s == [s[0]] + s[1..];
      }
    }
  }

  lemma {:induction false} ComparePointsLaws(a: seq<int>, b: seq<int>)
    ensures ComparePoints(a, b) == 0 <==> a == b
    ensures ComparePoints(a, b) == -ComparePoints(b, a)
    decreases |a|
  {
    if a != [] && b != [] {
      assert a == [a[0]] + a[1..] && b == [b[0]] + b[1..];
      if a[0] == b[0] { ComparePointsLaws(a[1..], b[1..]); }
    }
  }

  lemma {:induction false} ComparePointsTransitive(a: seq<int>, b: seq<int>, c: seq<int>)
    requires ComparePoints(a, b) <= 0 && ComparePoints(b, c) <= 0
    ensures ComparePoints(a, c) <= 0
    decreases |a|
  {
    if a != [] && b != [] && c != [] && a[0] == b[0] == c[0] {
      ComparePointsTransitive(a[1..], b[1..], c[1..]);
    }
  }

  predicate Le(a: JsString, b: JsString) {
    Compare(a, b) <= 0
  }

  /** Zero exactly on equal strings, and swapping the arguments flips the sign. */
  lemma {:induction false} CompareLaws(a: JsString, b: JsString)
    ensures Compare(a, b) == 0 <==> a == b
    ensures Compare(a, b) == -Compare(b, a)
  {
    SpreadRoundTrip(a);
    SpreadRoundTrip(b);
    ComparePointsLaws(CodePoints(a), CodePoints(b));
  }

  lemma {:induction false} CodePointOrderIsTotal()
    ensures Sorting.TotalOrder(Le)
  {
    forall a, b ensures Le(a, b) || Le(b, a) { CompareLaws(a, b); }
    forall a, b | Le(a, b) && Le(b, a) ensures a == b { CompareLaws(a, b); }
    forall a, b, c | Le(a, b) && Le(b, c) ensures Le(a, c) {
      ComparePointsTransitive(CodePoints(a), CodePoints(b), CodePoints(c));
    }
  }

  ghost predicate FirstDifference(a: seq<int>, b: seq<int>, k: nat) {
    && k <= |a| && k <= |b| && a[..k] == b[..k]
    && ((k == |a| && k < |b|) || (k < |a| && k < |b| && a[k] < b[k]))
  }

  ghost predicate Precedes(a: seq<int>, b: seq<int>) {
    exists k: nat :: FirstDifference(a, b, k)
  }

  lemma {:induction false} HeadsAgree(a: seq<int>, b: seq<int>, k: nat)
    ensures FirstDifference(a, b, k) && k > 0 ==> a[0] == b[0]
  {
    if FirstDifference(a, b, k) && k > 0 { assert a[..k][0] == a[0] && b[..k][0] == b[0]; }
  }

  lemma {:induction false} ComparePointsMeans(a: seq<int>, b: seq<int>)
    ensures ComparePoints(a, b) < 0 <==> Precedes(a, b)
    decreases |a|
  {
    if a == [] || b == [] {
      assert a == [] && b != [] ==> FirstDifference(a, b, 0);
    } else if a[0] != b[0] {
      assert a[0] < b[0] ==> FirstDifference(a, b, 0);
      forall k: nat ensures FirstDifference(a, b, k) && k > 0 ==> a[0] == b[0] { HeadsAgree(a, b, k); }
    } else {
      var x, y := a[1..], b[1..];
      ComparePointsMeans(x, y);
      if k: nat :| FirstDifference(x, y, k) {
        assert a[..k + 1] == [a[0]] + x[..k] && b[..k + 1] == [b[0]] + y[..k];
        assert FirstDifference(a, b, k + 1);
      }
      if k: nat :| FirstDifference(a, b, k) {
        assert k > 0;
        assert x[..k - 1] == a[..k][1..] && y[..k - 1] == b[..k][1..];
        assert FirstDifference(x, y, k - 1);
      }
    }
  }

  /** A string comes first when it has the smaller code point at the first difference, or ends there. */
  lemma {:induction false} CompareMeans(a: JsString, b: JsString)
    ensures Compare(a, b) < 0 <==> Precedes(CodePoints(a), CodePoints(b))
  {
    ComparePointsMeans(CodePoints(a), CodePoints(b));
  }

  /** It is not the default sort order: a supplementary character sorts after U+FFFF, its code units before. */
  lemma {:induction false} DiffersFromCodeUnitOrder()
    ensures var smile: JsString := [0xD83D, 0xDE00]; var last: JsString := [0xFFFF];
            Compare(smile, last) > 0 && smile[0] < last[0]
  {
    var smile: JsString := [0xD83D, 0xDE00];
    assert CodePoints(smile)[0] == 0x1F600;
  }

  // ---------------------------------------------------------------- characters in units

  /** The code units of a character. */
  function Units(c: char): (r: JsString)
    ensures |r| == 1 || |r| == 2
  {
    var u := c as int;
    if u < 0x10000 then [u] else [0xD800 + (u - 0x10000) / 0x400, 0xDC00 + (u - 0x10000) % 0x400]
  }

  /** The rank of characters is the order of their code units, compared from the first on. */
  lemma {:induction false} RankIsUnitOrder(c: char, d: char)
    ensures Sorting.UnitRank(c) < Sorting.UnitRank(d) <==>
            var x, y := Units(c), Units(d); x[0] < y[0] || (x[0] == y[0] && |x| == 2 && |y| == 2 && x[1] < y[1])
  {
  }
}
