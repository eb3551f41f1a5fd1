/** What the kind counts of a baseline are: how many fingerprints have each name, by name. */
module KindCounting {
  import opened Options
  import opened Utf16
  import opened CanonicalJson
  import opened Baseline
  import Sorting

  /** How many fingerprints have a name. */
  function Occurrences(host: Host, fingerprints: seq<JsString>, name: JsString): nat {
    if fingerprints == [] then 0
    else (if NameOf(host, fingerprints[0]) == Some(name) then 1 else 0) + Occurrences(host, fingerprints[1..], name)
  }

  function CountIn(counts: seq<Field>, name: JsString): real {
    match Get(counts, name)
    case Some(Num(n)) => n
    case _ => 0.0
  }

  ghost predicate Counts(counts: seq<Field>) {
    DistinctKeys(counts) && forall f | f in counts :: f.value.Num? && f.value.n > 0.0
  }

  lemma {:induction false} IncrementKeepsKeys(counts: seq<Field>, name: JsString)
    requires Counts(counts)
    ensures Counts(Increment(counts, name))
    ensures forall f | f in Increment(counts, name) :: f.key == name || exists g :: g in counts && g.key == f.key
  {
    if counts != [] && counts[0].key != name {
      var rest := Increment(counts[1..], name);
      IncrementKeepsKeys(counts[1..], name);
      assert counts == [counts[0]] + counts[1..];
      forall j | 0 <= j < |rest| ensures rest[j].key != counts[0].key { assert rest[j] in rest; }
    } else if counts != [] {
      assert counts == [counts[0]] + counts[1..];
    }
  }

  lemma {:induction false} GetCons(f: Field, rest: seq<Field>, name: JsString)
    ensures Get([f] + rest, name) == if f.key == name then Some(f.value) else Get(rest, name)
  {
    assert ([f] + rest)[1..] == rest;
  }

  lemma {:induction false} IncrementCounts(counts: seq<Field>, name: JsString, other: JsString)
    requires Counts(counts)
    ensures CountIn(Increment(counts, name), other) == CountIn(counts, other) + if other == name then 1.0 else 0.0
  {
    if counts == [] {
      GetCons(Field(name, Num(1.0)), [], other);
      assert [Field(name, Num(1.0))] + [] == Increment(counts, name);
    } else {
      var first, rest := counts[0], counts[1..];
      assert first in counts && counts == [first] + rest;
      if first.key == name {
        GetCons(Field(name, Num(first.value.n + 1.0)), rest, other);
      } else {
        IncrementCounts(rest, name, other);
        GetCons(first, Increment(rest, name), other);
      }
    }
  }

  lemma {:induction false} CountNamesMeans(host: Host, fingerprints: seq<JsString>, counts: seq<Field>)
    requires Counts(counts)
    ensures var r := CountNames(host, fingerprints, counts);
            && (r.None? <==> exists i | 0 <= i < |fingerprints| :: NameOf(host, fingerprints[i]).None?)
            && (r.Some? ==> Counts(r.value) && forall name ::
                  CountIn(r.value, name) == CountIn(counts, name) + Occurrences(host, fingerprints, name) as real)
    decreases |fingerprints|
  {
    if fingerprints != [] {
      var first, rest := fingerprints[0], fingerprints[1..];
      assert forall i | 0 <= i < |rest| :: rest[i] == fingerprints[i + 1];
      match NameOf(host, first)
      case None =>
      case Some(name) =>
        IncrementKeepsKeys(counts, name);
        CountNamesMeans(host, rest, Increment(counts, name));
        if i :| 0 <= i < |fingerprints| && NameOf(host, fingerprints[i]).None? {
          assert rest[i - 1] == fingerprints[i];
        }
        forall other ensures CountIn(Increment(counts, name), other) + Occurrences(host, rest, other) as real ==
                             CountIn(counts, other) + Occurrences(host, fingerprints, other) as real
        {
          IncrementCounts(counts, name, other);
        }
    }
  }

  /** With positive counts a name is present exactly when its count is not zero. */
  lemma {:induction false} PresentWhenCounted(counts: seq<Field>, name: JsString)
    requires Counts(counts)
    ensures Get(counts, name) == if CountIn(counts, name) == 0.0 then None else Some(Num(CountIn(counts, name)))
  {
    GetIsField(counts, name);
  }

  lemma {:induction false} GetInSorted(counts: seq<Field>, name: JsString)
    requires DistinctKeys(counts)
    ensures DistinctKeys(Sorting.SortBy(KeyLe, counts))
    ensures Get(Sorting.SortBy(KeyLe, counts), name) == Get(counts, name)
  {
    var sorted := Sorting.SortBy(KeyLe, counts);
    SortedKeysDistinct(counts);
    Sorting.SortByIsSortedPermutation(KeyLe, counts);
    GetIsField(counts, name);
    GetIsField(sorted, name);
    if Get(counts, name).Some? {
      assert Field(name, Get(counts, name).value) in sorted;
      var j :| 0 <= j < |sorted| && sorted[j] == Field(name, Get(counts, name).value);
      GetIs(sorted, j);
    }
  }

  /** Keys in strictly increasing code point order. */
  ghost predicate StrictKeys(fields: seq<Field>) {
    forall i, j | 0 <= i < j < |fields| :: KeyLe(fields[i], fields[j]) && fields[i].key != fields[j].key
  }

  /** The counts of a list that has them. */
  ghost predicate RightCounts(host: Host, fingerprints: seq<JsString>, fields: seq<Field>) {
    && StrictKeys(fields)
    && forall name {:trigger Get(fields, name)} ::
         Get(fields, name) == if Occurrences(host, fingerprints, name) == 0 then None
                              else Some(Num(Occurrences(host, fingerprints, name) as real))
  }

  lemma {:induction false} SortedAreRight(host: Host, fingerprints: seq<JsString>, counts: seq<Field>)
    requires Counts(counts)
    requires forall name :: CountIn(counts, name) == Occurrences(host, fingerprints, name) as real
    ensures RightCounts(host, fingerprints, Sorting.SortBy(KeyLe, counts))
  {
    var sorted := Sorting.SortBy(KeyLe, counts);
    KeyOrderIsPreorder();
    Sorting.SortByIsSortedPermutation(KeyLe, counts);
    SortedKeysDistinct(counts);
    forall name ensures Get(sorted, name) == if Occurrences(host, fingerprints, name) == 0 then None
                                             else Some(Num(Occurrences(host, fingerprints, name) as real))
    {
      PresentWhenCounted(counts, name);
      GetInSorted(counts, name);
    }
  }

  /**
   * There are counts exactly when every fingerprint has a name. Then the number of a name is how many fingerprints
   * have it, a name none has is absent, and the keys stand in strict order.
   */
  lemma {:induction false} KindCountsMean(host: Host, fingerprints: seq<JsString>)
    ensures var r := KindCounts(host, fingerprints);
            && (r.None? <==> exists i | 0 <= i < |fingerprints| :: NameOf(host, fingerprints[i]).None?)
            && (r.Some? ==> r.value.Obj? && RightCounts(host, fingerprints, r.value.fields))
  {
    CountNamesMeans(host, fingerprints, []);
    var counted := CountNames(host, fingerprints, []);
    if counted.Some? {
      forall name ensures CountIn(counted.value, name) == Occurrences(host, fingerprints, name) as real {
        assert CountIn([], name) == 0.0;
      }
      SortedAreRight(host, fingerprints, counted.value);
    }
  }
}
