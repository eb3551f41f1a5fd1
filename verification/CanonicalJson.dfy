/** JSON values and their canonical form. */
module CanonicalJson {
  import opened Options
  import opened Utf16
  import Sorting

  datatype Field = Field(key: JsString, value: Json)

  datatype Json =
    | Null
    | Bool(b: bool)
    | Num(n: real)
    | Str(s: JsString)
    | Arr(items: seq<Json>)
    | Obj(fields: seq<Field>)

  ghost predicate DistinctKeys(fields: seq<Field>) {
    forall i, j :: 0 <= i < j < |fields| ==> fields[i].key != fields[j].key
  }

  /** Every object has each key once, as JavaScript objects do. */
  ghost predicate WellFormed(v: Json)
    decreases v
  {
    match v
    case Arr(items) => forall i | i in items :: WellFormed(i)
    case Obj(fields) => DistinctKeys(fields) && forall f | f in fields :: WellFormed(f.value)
    case _ => true
  }

  function Get(fields: seq<Field>, key: JsString): Option<Json> {
    if fields == [] then None
    else if fields[0].key == key then Some(fields[0].value)
    else Get(fields[1..], key)
  }

  predicate KeyLe(a: Field, b: Field) {
    Le(a.key, b.key)
  }

  function CanonicalItems(items: seq<Json>): (r: seq<Json>)
    ensures |r| == |items|
    decreases items
  {
    if items == [] then [] else [Canonical(items[0])] + CanonicalItems(items[1..])
  }

  function CanonicalFields(fields: seq<Field>): (r: seq<Field>)
    ensures |r| == |fields|
    decreases fields
  {
    if fields == [] then []
    else [Field(fields[0].key, Canonical(fields[0].value))] + CanonicalFields(fields[1..])
  }

  function Canonical(v: Json): Json
    decreases v
  {
    match v
    case Arr(items) => Arr(CanonicalItems(items))
    case Obj(fields) => Obj(Sorting.SortBy(KeyLe, CanonicalFields(fields)))
    case _ => v
  }

  // ---------------------------------------------------------------- equality up to key order

  ghost predicate Same(a: Json, b: Json)
    decreases a
  {
    match a
    case Arr(items) =>
      b.Arr? && |items| == |b.items| && forall i | 0 <= i < |items| :: Same(items[i], b.items[i])
    case Obj(fields) =>
      && b.Obj? && |fields| == |b.fields|
      && forall f | f in fields ::
           var other := Get(b.fields, f.key);
           other.Some? && Same(f.value, other.value)
    case _ => a == b
  }

  lemma {:induction false} ItemAt(items: seq<Json>, i: nat)
    requires i < |items|
    ensures CanonicalItems(items)[i] == Canonical(items[i])
  {
    if i > 0 { ItemAt(items[1..], i - 1); }
  }

  lemma {:induction false} FieldAt(fields: seq<Field>, i: nat)
    requires i < |fields|
    ensures CanonicalFields(fields)[i] == Field(fields[i].key, Canonical(fields[i].value))
  {
    if i > 0 { FieldAt(fields[1..], i - 1); }
  }

  lemma {:induction false} GetIs(fields: seq<Field>, i: nat)
    requires i < |fields| && DistinctKeys(fields)
    ensures Get(fields, fields[i].key) == Some(fields[i].value)
  {
    if i > 0 { GetIs(fields[1..], i - 1); }
  }

  lemma {:induction false} GetIsField(fields: seq<Field>, key: JsString)
    ensures var r := Get(fields, key);
            if r.Some? then Field(key, r.value) in fields else forall f | f in fields :: f.key != key
  {
    if fields != [] { GetIsField(fields[1..], key); }
  }

  lemma {:induction false} KeysStayDistinct(fields: seq<Field>)
    requires DistinctKeys(fields)
    ensures DistinctKeys(CanonicalFields(fields)) && Sorting.Distinct(CanonicalFields(fields))
  {
    forall i, j | 0 <= i < j < |fields|
      ensures CanonicalFields(fields)[i].key != CanonicalFields(fields)[j].key
    {
      FieldAt(fields, i);
      FieldAt(fields, j);
    }
  }

  lemma {:induction false} KeyOrderIsPreorder()
    ensures Sorting.TotalPreorder(KeyLe)
    ensures forall f, g | KeyLe(f, g) && KeyLe(g, f) :: f.key == g.key
  {
    CodePointOrderIsTotal();
  }

  lemma {:induction false} RemoveAt(ys: seq<Field>, j: nat)
    requires Sorting.Distinct(ys) && j < |ys|
    ensures var rest := ys[..j] + ys[j + 1..];
            && Sorting.Distinct(rest)
            && multiset(ys) == multiset{ys[j]} + multiset(rest)
            && forall z | z in ys && z != ys[j] :: z in rest
  {
    var rest := ys[..j] + ys[j + 1..];
    assert ys == ys[..j] + [ys[j]] + ys[j + 1..];
    forall z | z in ys && z != ys[j] ensures z in rest {
      var k :| 0 <= k < |ys| && ys[k] == z;
      assert rest[if k < j then k else k - 1] == z;
    }
  }

  lemma {:induction false} FirstRemoved(xs: seq<Field>)
    requires xs != [] && Sorting.Distinct(xs)
    ensures Sorting.Distinct(xs[1..]) && xs[0] !in xs[1..] && multiset(xs) == multiset{xs[0]} + multiset(xs[1..])
    ensures forall z | z in xs[1..] :: z in xs
  {
    assert xs == [xs[0]] + xs[1..];
  }

  /** Distinct lists of the same length, one inside the other, hold the same elements. */
  lemma {:induction false} SameElements(xs: seq<Field>, ys: seq<Field>)
    requires Sorting.Distinct(xs) && Sorting.Distinct(ys) && |xs| == |ys|
    requires forall x | x in xs :: x in ys
    ensures multiset(xs) == multiset(ys)
    decreases |xs|
  {
    if xs != [] {
      FirstRemoved(xs);
      assert xs[0] in ys;
      var j :| 0 <= j < |ys| && ys[j] == xs[0];
      RemoveAt(ys, j);
      SameElements(xs[1..], ys[..j] + ys[j + 1..]);
    }
  }

  lemma {:induction false} SortedFieldsAgree(xs: seq<Field>, ys: seq<Field>)
    requires DistinctKeys(xs) && multiset(xs) == multiset(ys)
    ensures Sorting.SortBy(KeyLe, xs) == Sorting.SortBy(KeyLe, ys)
  {
    KeyOrderIsPreorder();
    Sorting.SortByIsSortedPermutation(KeyLe, xs);
    Sorting.SortByIsSortedPermutation(KeyLe, ys);
    var s := Sorting.SortBy(KeyLe, xs);
    forall x, y | x in s && y in s && KeyLe(x, y) && KeyLe(y, x) ensures x == y {
      assert x in xs && y in xs;
      var i :| 0 <= i < |xs| && xs[i] == x;
      var j :| 0 <= j < |xs| && xs[j] == y;
      assert i == j;
    }
    Sorting.SortedPermutationIsUnique(KeyLe, s, Sorting.SortBy(KeyLe, ys));
  }

  lemma {:induction false} SortedFieldsAgreeBack(xs: seq<Field>, ys: seq<Field>)
    requires Sorting.SortBy(KeyLe, xs) == Sorting.SortBy(KeyLe, ys)
    ensures multiset(xs) == multiset(ys) && |xs| == |ys|
  {
    Sorting.SortByIsSortedPermutation(KeyLe, xs);
    Sorting.SortByIsSortedPermutation(KeyLe, ys);
  }

  // ---------------------------------------------------------------- the canonical form decides sameness

  lemma {:induction false} SameHasOneForm(a: Json, b: Json)
    requires WellFormed(a) && WellFormed(b) && Same(a, b)
    ensures Canonical(a) == Canonical(b)
    decreases a
  {
    match a
    case Arr(items) =>
      forall i | 0 <= i < |items| ensures CanonicalItems(items)[i] == CanonicalItems(b.items)[i] {
        ItemAt(items, i);
        ItemAt(b.items, i);
        SameHasOneForm(items[i], b.items[i]);
      }
    case Obj(fields) =>
      var ca, cb := CanonicalFields(fields), CanonicalFields(b.fields);
      KeysStayDistinct(fields);
      KeysStayDistinct(b.fields);
      forall x | x in ca ensures x in cb {
        var i :| 0 <= i < |ca| && ca[i] == x;
        FieldAt(fields, i);
        var f := fields[i];
        var g := Field(f.key, Get(b.fields, f.key).value);
        GetIsField(b.fields, f.key);
        var j :| 0 <= j < |b.fields| && b.fields[j] == g;
        FieldAt(b.fields, j);
        SameHasOneForm(f.value, g.value);
        assert cb[j] == x;
      }
      SameElements(ca, cb);
      SortedFieldsAgree(ca, cb);
    case _ =>
  }

  lemma {:induction false} OneFormIsSame(a: Json, b: Json)
    requires WellFormed(a) && WellFormed(b) && Canonical(a) == Canonical(b)
    ensures Same(a, b)
    decreases a
  {
    match a
    case Arr(items) =>
      forall i | 0 <= i < |items| ensures Same(items[i], b.items[i]) {
        ItemAt(items, i);
        ItemAt(b.items, i);
        OneFormIsSame(items[i], b.items[i]);
      }
    case Obj(fields) =>
      var ca, cb := CanonicalFields(fields), CanonicalFields(b.fields);
      SortedFieldsAgreeBack(ca, cb);
      forall f | f in fields
        ensures var other := Get(b.fields, f.key); other.Some? && Same(f.value, other.value)
      {
        var i :| 0 <= i < |fields| && fields[i] == f;
        FieldAt(fields, i);
        assert ca[i] in multiset(cb);
        var j :| 0 <= j < |cb| && cb[j] == ca[i];
        FieldAt(b.fields, j);
        GetIs(b.fields, j);
        OneFormIsSame(f.value, b.fields[j].value);
      }
    case _ =>
  }

  /** Two values have the same canonical form exactly when they are equal up to key order. */
  lemma {:induction false} CanonicalFormDecides(a: Json, b: Json)
    requires WellFormed(a) && WellFormed(b)
    ensures Canonical(a) == Canonical(b) <==> Same(a, b)
  {
    if Same(a, b) { SameHasOneForm(a, b); }
    if Canonical(a) == Canonical(b) { OneFormIsSame(a, b); }
  }

  // ---------------------------------------------------------------- idempotence

  /** The canonical form is a value equal to the original up to key order. */
  lemma {:induction false} CanonicalIsSame(a: Json)
    requires WellFormed(a)
    ensures WellFormed(Canonical(a)) && Same(a, Canonical(a))
    decreases a
  {
    match a
    case Arr(items) =>
      forall i | 0 <= i < |items|
        ensures Same(items[i], CanonicalItems(items)[i]) && WellFormed(CanonicalItems(items)[i])
      {
        ItemAt(items, i);
        CanonicalIsSame(items[i]);
      }
    case Obj(fields) =>
      var c := CanonicalFields(fields);
      var s := Sorting.SortBy(KeyLe, c);
      Sorting.SortByIsSortedPermutation(KeyLe, c);
      KeysStayDistinct(fields);
      SortedKeysDistinct(c);
      forall i | 0 <= i < |fields|
        ensures WellFormed(c[i].value)
        ensures var other := Get(s, fields[i].key); other.Some? && Same(fields[i].value, other.value)
      {
        FieldAt(fields, i);
        CanonicalIsSame(fields[i].value);
        assert c[i] in s;
        var j :| 0 <= j < |s| && s[j] == c[i];
        GetIs(s, j);
      }
    case _ =>
  }

  lemma {:induction false} SortedKeysDistinct(fields: seq<Field>)
    requires DistinctKeys(fields)
    ensures DistinctKeys(Sorting.SortBy(KeyLe, fields))
  {
    var s := Sorting.SortBy(KeyLe, fields);
    Sorting.SortByIsSortedPermutation(KeyLe, fields);
    Sorting.DistinctOfPermutation(fields, s);
    forall i, j | 0 <= i < j < |s| ensures s[i].key != s[j].key {
      assert s[i] in fields && s[j] in fields;
    }
  }

  lemma {:induction false} CanonicalIsIdempotent(a: Json)
    requires WellFormed(a)
    ensures Canonical(Canonical(a)) == Canonical(a)
  {
    CanonicalIsSame(a);
    SameHasOneForm(a, Canonical(a));
  }

  // ---------------------------------------------------------------- the program's order of steps

  lemma {:induction false} CanonicalOfInsert(f: Field, fields: seq<Field>)
    ensures CanonicalFields(Sorting.Insert(KeyLe, f, fields)) ==
            Sorting.Insert(KeyLe, Field(f.key, Canonical(f.value)), CanonicalFields(fields))
    decreases |fields|
  {
    if fields == [] || KeyLe(f, fields[0]) {
      assert ([f] + fields)[1..] == fields;
    } else {
      var rest := Sorting.Insert(KeyLe, f, fields[1..]);
      assert ([fields[0]] + rest)[1..] == rest;
      CanonicalOfInsert(f, fields[1..]);
      assert CanonicalFields(fields)[1..] == CanonicalFields(fields[1..]);
    }
  }

  /** Sorting the entries and then making each canonical gives the same object. */
  lemma {:induction false} SortThenMap(fields: seq<Field>)
    ensures CanonicalFields(Sorting.SortBy(KeyLe, fields)) == Sorting.SortBy(KeyLe, CanonicalFields(fields))
    decreases |fields|
  {
    if fields != [] {
      SortThenMap(fields[1..]);
      CanonicalOfInsert(fields[0], Sorting.SortBy(KeyLe, fields[1..]));
      assert CanonicalFields(fields)[1..] == CanonicalFields(fields[1..]);
    }
  }

  /** The keys of a canonical object ascend strictly by code points. */
  lemma {:induction false} CanonicalKeysAscend(fields: seq<Field>)
    requires DistinctKeys(fields)
    ensures var keys := Canonical(Obj(fields)).fields;
            forall i, j | 0 <= i < j < |keys| :: Precedes(CodePoints(keys[i].key), CodePoints(keys[j].key))
  {
    var keys := Canonical(Obj(fields)).fields;
    KeyOrderIsPreorder();
    KeysStayDistinct(fields);
    SortedKeysDistinct(CanonicalFields(fields));
    Sorting.SortByIsSortedPermutation(KeyLe, CanonicalFields(fields));
    forall i, j | 0 <= i < j < |keys| ensures Precedes(CodePoints(keys[i].key), CodePoints(keys[j].key)) {
      assert KeyLe(keys[i], keys[j]) && keys[i].key != keys[j].key;
      CompareLaws(keys[i].key, keys[j].key);
      CompareMeans(keys[i].key, keys[j].key);
    }
  }
}
