/** Text as lines: splitting, joining, trimming, searching. */
module Lines {

  const NEWLINE: string := "\n"

  function Split(s: string): (ls: seq<string>)
    ensures |ls| >= 1
  {
    if s == [] then [""]
    else if s[0] == '\n' then [""] + Split(s[1..])
    else var rest := Split(s[1..]); [[s[0]] + rest[0]] + rest[1..]
  }

  function Join(ls: seq<string>): string {
    if ls == [] then ""
    else if |ls| == 1 then ls[0]
    else ls[0] + NEWLINE + Join(ls[1..])
  }

  predicate OneLine(s: string) {
    '\n' !in s
  }

  ghost predicate AllOneLine(ls: seq<string>) {
    forall l | l in ls :: OneLine(l)
  }

  lemma {:induction false} ConcatOneLine(a: seq<string>, b: seq<string>)
    requires AllOneLine(a) && AllOneLine(b)
    ensures AllOneLine(a + b)
  {
  }

  lemma {:induction false} SliceOneLine(ls: seq<string>, i: nat, j: nat)
    requires AllOneLine(ls) && i <= j <= |ls|
    ensures AllOneLine(ls[i..j])
  {
    forall l | l in ls[i..j] ensures OneLine(l) { assert l in ls; }
  }

  lemma {:induction false} SplitIsOneLine(s: string)
    ensures AllOneLine(Split(s))
  {
    if s != [] {
      SplitIsOneLine(s[1..]);
      var rest := Split(s[1..]);
      assert OneLine(rest[0]);
      forall l | l in Split(s) ensures OneLine(l) {
        assert l in rest || l == [s[0]] + rest[0] || l == "";
      }
    }
  }

  lemma {:induction false} JoinSplit(s: string)
    ensures Join(Split(s)) == s
  {
    if s != [] {
      var rest := Split(s[1..]);
      JoinSplit(s[1..]);
      assert s == [s[0]] + s[1..];
      if s[0] == '\n' {
        assert Split(s)[1..] == rest;
      } else {
        assert Split(s)[1..] == rest[1..];
        assert rest == [rest[0]] + rest[1..];
      }
    }
  }

  lemma {:induction false} SplitPrefix(a: string, s: string)
    requires OneLine(a)
    ensures Split(a + s) == [a + Split(s)[0]] + Split(s)[1..]
  {
    if a == [] {
      assert a + s == s;
      assert a + Split(s)[0] == Split(s)[0];
    } else {
      assert (a + s)[1..] == a[1..] + s;
      assert a[0] in a && OneLine(a[1..]);
      SplitPrefix(a[1..], s);
      assert [a[0]] + (a[1..] + Split(s)[0]) == a + Split(s)[0];
    }
  }

  lemma {:induction false} SplitJoin(ls: seq<string>)
    requires ls != [] && AllOneLine(ls)
    ensures Split(Join(ls)) == ls
  {
    assert OneLine(ls[0]);
    if |ls| == 1 {
      SplitPrefix(ls[0], "");
      assert ls[0] + "" == ls[0];
    } else {
      SplitJoin(ls[1..]);
      var tail := NEWLINE + Join(ls[1..]);
      SplitPrefix(ls[0], tail);
      assert tail[1..] == Join(ls[1..]);
      assert Split(tail) == [""] + ls[1..];
      assert ls[0] + "" == ls[0];
      assert ls[0] + NEWLINE + Join(ls[1..]) == ls[0] + tail;
      assert ls == [ls[0]] + ls[1..];
    }
  }

  /** Text of lines each ended by a newline splits into the lines and one empty rest. */
  lemma {:induction false} SplitTerminated(ls: seq<string>)
    requires ls != [] && AllOneLine(ls)
    ensures Split(Join(ls) + NEWLINE) == ls + [""]
  {
    JoinAppend(ls, "");
    assert Join(ls) + NEWLINE + "" == Join(ls) + NEWLINE;
    SplitJoin(ls + [""]);
  }

  lemma {:induction false} JoinAppend(ls: seq<string>, last: string)
    requires ls != []
    ensures Join(ls + [last]) == Join(ls) + NEWLINE + last
  {
    if |ls| > 1 {
      JoinAppend(ls[1..], last);
      assert (ls + [last])[1..] == ls[1..] + [last];
    }
  }

  // ---------------------------------------------------------------- white space

  /** The characters of the regular expression class `\s`, which `trim` also removes. */
  predicate IsSpace(c: char) {
    var u := c as int;
    || 9 <= u <= 13 || u == 32 || u == 160 || u == 0x1680 || 0x2000 <= u <= 0x200a
    || u == 0x2028 || u == 0x2029 || u == 0x202f || u == 0x205f || u == 0x3000 || u == 0xfeff
  }

  function TrimStart(s: string): string {
    if s != [] && IsSpace(s[0]) then TrimStart(s[1..]) else s
  }

  function TrimEnd(s: string): string {
    if s != [] && IsSpace(s[|s| - 1]) then TrimEnd(s[..|s| - 1]) else s
  }

  function Trim(s: string): string {
    TrimEnd(TrimStart(s))
  }

  predicate IsBlank(s: string) {
    TrimStart(s) == []
  }

  /** The first visible character decides which of the special lines a line can be. */
  lemma {:induction false} TrimEndKeepsInk(s: string)
    requires s != [] && !IsSpace(s[0])
    ensures TrimEnd(s) != [] && TrimEnd(s)[0] == s[0]
  {
    if IsSpace(s[|s| - 1]) {
      TrimEndKeepsInk(s[..|s| - 1]);
    }
  }

  lemma {:induction false} TrimStartInk(s: string)
    ensures TrimStart(s) == [] || !IsSpace(TrimStart(s)[0])
  {
    if s != [] && IsSpace(s[0]) { TrimStartInk(s[1..]); }
  }

  function Ink(s: string): string {
    if TrimStart(s) == [] then "" else [TrimStart(s)[0]]
  }

  lemma {:induction false} TrimInk(s: string)
    ensures if Trim(s) == [] then Ink(s) == "" else Ink(s) == [Trim(s)[0]]
  {
    TrimStartInk(s);
    if TrimStart(s) != [] { TrimEndKeepsInk(TrimStart(s)); }
  }

  // ---------------------------------------------------------------- letter case

  /** Letter case as a regular expression with the flag `i` alone ignores it: A to Z. */
  function FoldChar(c: char): char {
    if 'A' <= c <= 'Z' then (c as int + 32) as char else c
  }

  function Fold(s: string): (r: string)
    ensures |r| == |s|
  {
    seq(|s|, i requires 0 <= i < |s| => FoldChar(s[i]))
  }

  /** `toLowerCase` as far as plain words are concerned: the Kelvin sign becomes a `k` too. */
  function LowerChar(c: char): char {
    if c as int == 0x212a then 'k' else FoldChar(c)
  }

  function Lower(s: string): (r: string)
    ensures |r| == |s|
  {
    seq(|s|, i requires 0 <= i < |s| => LowerChar(s[i]))
  }

  // ---------------------------------------------------------------- first occurrence

  predicate OccursAt(s: string, part: string, i: int) {
    0 <= i <= |s| - |part| && s[i..i + |part|] == part
  }

  /** `indexOf`: the first position at or after `from`, or -1. */
  function IndexOf(s: string, part: string, from: nat): (r: int)
    ensures r == -1 || from <= r <= |s| - |part|
    decreases |s| - from
  {
    if from + |part| > |s| then -1
    else if OccursAt(s, part, from) then from
    else IndexOf(s, part, from + 1)
  }

  lemma {:induction false} IndexOfMeaning(s: string, part: string, from: nat)
    ensures var r := IndexOf(s, part, from);
            && (r != -1 ==> OccursAt(s, part, r))
            && (forall i :: from <= i && (r == -1 || i < r) ==> !OccursAt(s, part, i))
    decreases |s| - from
  {
    if from + |part| <= |s| && !OccursAt(s, part, from) {
      IndexOfMeaning(s, part, from + 1);
    }
  }

  lemma {:induction false} IndexOfIs(s: string, part: string, from: nat, i: nat)
    requires from <= i && OccursAt(s, part, i)
    requires forall j :: from <= j < i ==> !OccursAt(s, part, j)
    ensures IndexOf(s, part, from) == i
    decreases i - from
  {
    if from < i { IndexOfIs(s, part, from + 1, i); }
  }

  lemma {:induction false} OccursInPrefix(s: string, t: string, part: string, i: nat, n: nat)
    requires n <= |s| && n <= |t| && s[..n] == t[..n] && i + |part| <= n
    ensures OccursAt(s, part, i) <==> OccursAt(t, part, i)
  {
    assert s[i..i + |part|] == s[..n][i..i + |part|];
    assert t[i..i + |part|] == t[..n][i..i + |part|];
  }

  /** The first occurrence depends only on the text up to its end. */
  lemma {:induction false} IndexOfKept(s: string, t: string, part: string, n: nat)
    requires n <= |s| && n <= |t| && s[..n] == t[..n]
    requires 0 <= IndexOf(s, part, 0) && IndexOf(s, part, 0) + |part| <= n
    ensures IndexOf(t, part, 0) == IndexOf(s, part, 0)
  {
    var i := IndexOf(s, part, 0);
    IndexOfMeaning(s, part, 0);
    forall k | 0 <= k <= i ensures OccursAt(t, part, k) <==> OccursAt(s, part, k) {
      OccursInPrefix(s, t, part, k, n);
    }
    IndexOfIs(t, part, 0, i);
  }

  /** A one-line text never occurs across a newline. */
  lemma {:induction false} NewlineBlocks(s: string, part: string, i: nat, p: nat)
    requires OneLine(part) && i <= p < i + |part| && p < |s| && s[p] == '\n'
    ensures !OccursAt(s, part, i)
  {
    if i + |part| <= |s| {
      assert s[i..i + |part|][p - i] == '\n';
    }
  }
}
