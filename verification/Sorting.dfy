/** Stable sorting by a comparison, as `Array.prototype.sort` does it. */
module Sorting {

  ghost predicate TotalPreorder<T(!new)>(le: (T, T) -> bool) {
    && (forall x, y :: le(x, y) || le(y, x))
    && (forall x, y, z :: le(x, y) && le(y, z) ==> le(x, z))
  }

  ghost predicate TotalOrder<T(!new)>(le: (T, T) -> bool) {
    && TotalPreorder(le)
    && (forall x, y :: le(x, y) && le(y, x) ==> x == y)
  }

  ghost predicate SortedBy<T>(le: (T, T) -> bool, xs: seq<T>) {
    forall i, j :: 0 <= i < j < |xs| ==> le(xs[i], xs[j])
  }

  ghost predicate Distinct<T>(xs: seq<T>) {
    forall i, j :: 0 <= i < j < |xs| ==> xs[i] != xs[j]
  }

  function Insert<T>(le: (T, T) -> bool, x: T, xs: seq<T>): seq<T> {
    if xs == [] || le(x, xs[0]) then [x] + xs else [xs[0]] + Insert(le, x, xs[1..])
  }

  function SortBy<T>(le: (T, T) -> bool, xs: seq<T>): seq<T> {
    if xs == [] then [] else Insert(le, xs[0], SortBy(le, xs[1..]))
  }

  lemma {:induction false} InsertKeepsElements<T(!new)>(le: (T, T) -> bool, x: T, xs: seq<T>)
    ensures multiset(Insert(le, x, xs)) == multiset{x} + multiset(xs)
  {
    if xs != [] && !le(x, xs[0]) {
      InsertKeepsElements(le, x, xs[1..]);
      assert xs == [xs[0]] + xs[1..];
    }
  }

  lemma {:induction false} InsertedStaysAbove<T(!new)>(le: (T, T) -> bool, x: T, first: T, rest: seq<T>)
    requires le(first, x) && forall y | y in rest :: le(first, y)
    ensures forall y | y in Insert(le, x, rest) :: le(first, y)
  {
    InsertKeepsElements(le, x, rest);
    forall y | y in Insert(le, x, rest) ensures le(first, y) {
      assert y in multiset(Insert(le, x, rest));
    }
  }

  lemma {:induction false} InsertKeepsOrder<T(!new)>(le: (T, T) -> bool, x: T, xs: seq<T>)
    requires TotalPreorder(le) && SortedBy(le, xs)
    ensures SortedBy(le, Insert(le, x, xs))
  {
    if xs != [] && !le(x, xs[0]) {
      InsertKeepsOrder(le, x, xs[1..]);
      InsertedStaysAbove(le, x, xs[0], xs[1..]);
    }
  }

  lemma {:induction false} InsertKeeps<T(!new)>(le: (T, T) -> bool, x: T, xs: seq<T>)
    ensures multiset(Insert(le, x, xs)) == multiset{x} + multiset(xs)
    ensures TotalPreorder(le) && SortedBy(le, xs) ==> SortedBy(le, Insert(le, x, xs))
  {
    InsertKeepsElements(le, x, xs);
    if TotalPreorder(le) && SortedBy(le, xs) { InsertKeepsOrder(le, x, xs); }
  }

  /** Sorting returns a sorted rearrangement: nothing is lost, added or repeated. */
  lemma {:induction false} SortByIsSortedPermutation<T(!new)>(le: (T, T) -> bool, xs: seq<T>)
    ensures multiset(SortBy(le, xs)) == multiset(xs)
    ensures |SortBy(le, xs)| == |xs|
    ensures forall x :: x in SortBy(le, xs) <==> x in xs
    ensures TotalPreorder(le) ==> SortedBy(le, SortBy(le, xs))
  {
    if xs != [] {
      SortByIsSortedPermutation(le, xs[1..]);
      InsertKeeps(le, xs[0], SortBy(le, xs[1..]));
      assert xs == [xs[0]] + xs[1..];
    }
    var s := SortBy(le, xs);
    assert |s| == |multiset(s)| == |multiset(xs)| == |xs|;
    forall x ensures x in s <==> x in xs {
      assert x in s <==> x in multiset(s);
      assert x in xs <==> x in multiset(xs);
    }
  }

  /** No two different elements are equivalent. */
  ghost predicate Separates<T(!new)>(le: (T, T) -> bool, xs: seq<T>) {
    forall x, y | x in xs && y in xs && le(x, y) && le(y, x) :: x == y
  }

  lemma {:induction false} SameHead<T(!new)>(le: (T, T) -> bool, xs: seq<T>, ys: seq<T>)
    requires TotalPreorder(le) && SortedBy(le, xs) && SortedBy(le, ys) && xs != [] && ys != []
    requires Separates(le, xs) && multiset(xs) == multiset(ys)
    ensures xs[0] == ys[0]
  {
    assert xs[0] in multiset(ys) && ys[0] in multiset(xs);
    assert le(xs[0], ys[0]) && le(ys[0], xs[0]);
  }

  lemma {:induction false} SortedTail<T(!new)>(le: (T, T) -> bool, xs: seq<T>)
    requires xs != [] && SortedBy(le, xs)
    ensures SortedBy(le, xs[1..]) && multiset(xs[1..]) == multiset(xs) - multiset{xs[0]}
    ensures Separates(le, xs) ==> Separates(le, xs[1..])
  {
    assert xs == [xs[0]] + xs[1..];
  }

  lemma {:induction false} SameLength<T>(xs: seq<T>, ys: seq<T>)
    requires multiset(xs) == multiset(ys)
    ensures |xs| == |ys|
  {
    assert |xs| == |multiset(xs)| == |multiset(ys)| == |ys|;
  }

  /** When no two different elements are equivalent, a sorted rearrangement is unique. */
  lemma {:induction false} SortedPermutationIsUnique<T(!new)>(le: (T, T) -> bool, xs: seq<T>, ys: seq<T>)
    requires TotalPreorder(le) && SortedBy(le, xs) && SortedBy(le, ys)
    requires Separates(le, xs) && multiset(xs) == multiset(ys)
    ensures xs == ys
    decreases |xs|
  {
    SameLength(xs, ys);
    if xs != [] {
      var x, a, b := xs[0], xs[1..], ys[1..];
      SameHead(le, xs, ys);
      SortedTail(le, xs);
      SortedTail(le, ys);
      SortedPermutationIsUnique(le, a, b);
      Prepend(xs, x, a);
      Prepend(ys, x, b);
    }
  }

  lemma {:induction false} Prepend<T>(xs: seq<T>, x: T, rest: seq<T>)
    requires xs != [] && xs[0] == x && xs[1..] == rest
    ensures xs == [x] + rest
  {
  }

  lemma {:induction false} DistinctMultiset<T>(xs: seq<T>)
    ensures Distinct(xs) <==> forall x :: x in multiset(xs) ==> multiset(xs)[x] == 1
  {
    if xs != [] {
      var rest := xs[1..];
      DistinctMultiset(rest);
      assert xs == [xs[0]] + rest;
      assert multiset(xs) == multiset{xs[0]} + multiset(rest);
      if Distinct(xs) {
        assert Distinct(rest) && xs[0] !in rest;
      } else if forall x :: x in multiset(xs) ==> multiset(xs)[x] == 1 {
        assert xs[0] in multiset(xs);
        assert xs[0] !in multiset(rest);
        forall x | x in multiset(rest) ensures multiset(rest)[x] == 1 {
          assert x in multiset(xs);
        }
        forall i, j | 0 <= i < j < |xs| ensures xs[i] != xs[j] {
          if i == 0 { assert xs[j] == rest[j - 1]; } else { assert rest[i - 1] != rest[j - 1]; }
        }
      }
    }
  }

  lemma {:induction false} DistinctConcat<T>(a: seq<T>, b: seq<T>)
    requires Distinct(a) && Distinct(b) && forall x | x in b :: x !in a
    ensures Distinct(a + b)
  {
    var all := a + b;
    forall i, j | 0 <= i < j < |all| ensures all[i] != all[j] {
      if i < |a| <= j { assert all[i] in a && all[j] in b; }
    }
  }

  /** Rearranging keeps the absence of repetitions. */
  lemma {:induction false} DistinctOfPermutation<T>(xs: seq<T>, ys: seq<T>)
    requires multiset(xs) == multiset(ys) && Distinct(xs)
    ensures Distinct(ys)
  {
    DistinctMultiset(xs);
    DistinctMultiset(ys);
  }

  /** The values of a list as a `Set` keeps them: each once, in order of first occurrence. */
  function Dedupe<T(==)>(values: seq<T>): seq<T> {
    if values == [] then []
    else
      var rest := Dedupe(values[..|values| - 1]);
      var last := values[|values| - 1];
      if last in rest then rest else rest + [last]
  }

  lemma {:induction false} DedupeKeeps<T>(values: seq<T>)
    ensures Distinct(Dedupe(values))
    ensures forall v :: v in Dedupe(values) <==> v in values
  {
    if values != [] {
      DedupeKeeps(values[..|values| - 1]);
      assert values == values[..|values| - 1] + [values[|values| - 1]];
    }
  }

  /**
   * The place of a character in the order of UTF-16: a pair of surrogates comes before the characters from U+E000 on,
   * though it stands for a later one.
   */
  function UnitRank(c: char): int {
    var u := c as int;
    if u < 0xE000 then u else if u < 0x10000 then u + 0x100000 else u - 0x2000
  }

  /** The order of code units, the default order of `Array.prototype.sort` on strings. */
  predicate StringLe(a: string, b: string)
    decreases |a|
  {
    a == [] || (b != [] && (UnitRank(a[0]) < UnitRank(b[0]) || (a[0] == b[0] && StringLe(a[1..], b[1..]))))
  }

  lemma {:induction false} StringLeTotal(a: string, b: string)
    ensures StringLe(a, b) || StringLe(b, a)
    ensures StringLe(a, b) && StringLe(b, a) ==> a == b
    decreases |a|
  {
    if a != [] && b != [] {
      StringLeTotal(a[1..], b[1..]);
      assert a == [a[0]] + a[1..] && b == [b[0]] + b[1..];
    }
  }

  lemma {:induction false} StringLeTransitive(a: string, b: string, c: string)
    requires StringLe(a, b) && StringLe(b, c)
    ensures StringLe(a, c)
    decreases |a|
  {
    if a != [] && a[0] == b[0] && b[0] == c[0] {
      StringLeTransitive(a[1..], b[1..], c[1..]);
    }
  }

  lemma {:induction false} StringLeIsTotalOrder()
    ensures TotalOrder(StringLe)
  {
    forall a, b ensures StringLe(a, b) || StringLe(b, a) { StringLeTotal(a, b); }
    forall a, b | StringLe(a, b) && StringLe(b, a) ensures a == b { StringLeTotal(a, b); }
    forall a, b, c | StringLe(a, b) && StringLe(b, c) ensures StringLe(a, c) { StringLeTransitive(a, b, c); }
  }
}
