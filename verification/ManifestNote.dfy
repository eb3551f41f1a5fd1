/** Keeping the invoke-routing note in the prompt body, with the generated suffix. */
module ManifestNote {
  import opened Lines
  import opened ManifestMerge

  const NOTE_PREFIX := "> **Invoke routing:**"
  const ANCHOR := "for schemas."
  const NOTE_SUFFIX :=
    " Tier-4 reads (the catalog " + "returned by `adv_tool_catalog`) " + "also via tools.adv.* Code Mode; "
    + "invoke-only schemas are available " + "through the invoke facade."

  predicate IsFence(line: string) {
    Trim(line) == "---"
  }

  predicate IsNote(line: string) {
    NOTE_PREFIX <= line
  }

  /** The note up to and including its anchor; the whole note when it has none. */
  function BaseNote(line: string): string {
    var i := IndexOf(line, ANCHOR, 0);
    if i < 0 then line else line[..i + |ANCHOR|]
  }

  function FullNote(line: string): string {
    BaseNote(line) + NOTE_SUFFIX
  }

  // ---------------------------------------------------------------- positions

  type Test = string -> bool

  function FirstFrom(test: Test, ls: seq<string>, from: nat): (r: int)
    requires from <= |ls|
    ensures -1 <= r < |ls|
    ensures r == -1 ==> forall j | from <= j < |ls| :: !test(ls[j])
    ensures r >= 0 ==> from <= r && test(ls[r]) && forall j | from <= j < r :: !test(ls[j])
    decreases |ls| - from
  {
    if from == |ls| then -1 else if test(ls[from]) then from else FirstFrom(test, ls, from + 1)
  }

  /** The line closing the frontmatter, or -1. */
  function HeaderEnd(fence: Test, ls: seq<string>): (r: int)
    ensures -1 <= r < |ls|
    ensures r >= 0 ==> r >= 1 && fence(ls[0]) && fence(ls[r]) && forall j | 1 <= j < r :: !fence(ls[j])
  {
    if ls != [] && fence(ls[0]) then FirstFrom(fence, ls, 1) else -1
  }

  // ---------------------------------------------------------------- the rewrite

  function Inject(fence: Test, note: Test, full: string -> string, ls: seq<string>): seq<string> {
    var headerEnd, at := HeaderEnd(fence, ls), FirstFrom(note, ls, 0);
    if at < 0 then ls
    else if headerEnd >= 0 && at <= headerEnd then
      var without := ls[..at] + ls[at + 1..];
      var adjusted := if at < headerEnd then headerEnd - 1 else headerEnd;
      if adjusted + 1 > |without| then without + [full(ls[at])]
      else without[..adjusted + 1] + [full(ls[at])] + without[adjusted + 1..]
    else ls[at := full(ls[at])]
  }

  lemma {:induction false} InjectInHeader(fence: Test, note: Test, full: string -> string, ls: seq<string>)
    requires var e, at := HeaderEnd(fence, ls), FirstFrom(note, ls, 0); 0 <= at < e
    ensures var e, at := HeaderEnd(fence, ls), FirstFrom(note, ls, 0); var without := ls[..at] + ls[at + 1..];
            Inject(fence, note, full, ls) == without[..e] + [full(ls[at])] + without[e..]
  {
  }

  lemma {:induction false} InjectInBody(fence: Test, note: Test, full: string -> string, ls: seq<string>)
    requires var e, at := HeaderEnd(fence, ls), FirstFrom(note, ls, 0); at >= 0 && !(e >= 0 && at <= e)
    ensures var at := FirstFrom(note, ls, 0); Inject(fence, note, full, ls) == ls[at := full(ls[at])]
  {
  }

  /** The rewritten note is a note, and no note is a fence. */
  ghost predicate NoteLaws(fence: Test, note: Test, full: string -> string) {
    && (forall l | note(l) :: !fence(l) && note(full(l)))
  }

  function Header(fence: Test, ls: seq<string>): seq<string> {
    var e := HeaderEnd(fence, ls);
    if e < 0 then [] else ls[1..e]
  }

  /** A caller's check on the text before a run: the note has its anchor and the header holds at most one. */
  predicate NoteStable(fence: Test, note: Test, full: string -> string, ls: seq<string>) {
    var notes := Select(note, ls);
    notes == [] || (full(full(notes[0])) == full(notes[0]) && |Select(note, Header(fence, ls))| <= 1)
  }

  lemma {:induction false} FirstSelected(test: Test, ls: seq<string>, from: nat)
    requires from <= |ls|
    ensures var at := FirstFrom(test, ls, from); var s := Select(test, ls[from..]);
            if at < 0 then s == [] else s != [] && s[0] == ls[at]
    decreases |ls| - from
  {
    if from < |ls| {
      assert ls[from..][1..] == ls[from + 1..];
      if !test(ls[from]) { FirstSelected(test, ls, from + 1); }
    }
  }

  lemma {:induction false} FirstFromIs(test: Test, ls: seq<string>, from: nat, at: nat)
    requires from <= at < |ls| && test(ls[at])
    requires forall j | from <= j < at :: !test(ls[j])
    ensures FirstFrom(test, ls, from) == at
  {
  }

  /** A note inside the header leaves it and comes right after it. */
  lemma {:induction false} MovedNote(fence: Test, note: Test, full: string -> string, ls: seq<string>)
    returns (headerEnd: nat, at: nat, out: seq<string>)
    requires NoteLaws(fence, note, full)
    requires HeaderEnd(fence, ls) >= 0 && 0 <= FirstFrom(note, ls, 0) <= HeaderEnd(fence, ls)
    ensures headerEnd == HeaderEnd(fence, ls) && at == FirstFrom(note, ls, 0) && 1 <= at < headerEnd
    ensures out == Inject(fence, note, full, ls)
    ensures out == ls[..at] + ls[at + 1..headerEnd + 1] + [full(ls[at])] + ls[headerEnd + 1..]
    ensures HeaderEnd(fence, out) == headerEnd - 1
  {
    headerEnd, at := HeaderEnd(fence, ls), FirstFrom(note, ls, 0);
    assert at != headerEnd && at != 0;
    out := ls[..at] + ls[at + 1..headerEnd + 1] + [full(ls[at])] + ls[headerEnd + 1..];
    var without := ls[..at] + ls[at + 1..];
    assert without[..headerEnd] == ls[..at] + ls[at + 1..headerEnd + 1];
    assert without[headerEnd..] == ls[headerEnd + 1..];
    assert out[0] == ls[0] && out[headerEnd - 1] == ls[headerEnd];
    forall j | 1 <= j < headerEnd - 1 ensures !fence(out[j]) {
      assert out[j] == if j < at then ls[j] else ls[j + 1];
    }
    FirstFromIs(fence, out, 1, headerEnd - 1);
  }

  /** `out` begins with the first lines of `ls`, except the one at `at`. */
  ghost predicate ShiftedBy(ls: seq<string>, at: nat, h: nat, out: seq<string>) {
    && at < h < |ls| && h < |out|
    && forall j {:trigger out[j]} | 0 <= j < h :: out[j] == if j < at then ls[j] else ls[j + 1]
  }

  lemma {:induction false} MovedShape(fence: Test, note: Test, full: string -> string, ls: seq<string>)
    requires NoteLaws(fence, note, full)
    requires HeaderEnd(fence, ls) >= 0 && 0 <= FirstFrom(note, ls, 0) <= HeaderEnd(fence, ls)
    ensures var out := Inject(fence, note, full, ls);
            var h, at := HeaderEnd(fence, ls), FirstFrom(note, ls, 0);
            && ShiftedBy(ls, at, h, out) && out[h] == full(ls[at])
            && HeaderEnd(fence, out) == h - 1
  {
    var h, at, out := MovedNote(fence, note, full, ls);
  }

  lemma {:induction false} NoNotesAfterShift(note: Test, ls: seq<string>, at: nat, h: nat, out: seq<string>)
    requires ShiftedBy(ls, at, h, out) && !note(ls[h])
    requires forall j | 0 <= j < at :: !note(ls[j])
    requires forall j | at < j < h :: !note(ls[j])
    ensures forall j | 0 <= j < h :: !note(out[j])
  {
    forall j | 0 <= j < h ensures !note(out[j]) {
      assert out[j] == if j < at then ls[j] else ls[j + 1];
    }
  }

  lemma {:induction false} MovedTwice(fence: Test, note: Test, full: string -> string, ls: seq<string>)
    requires NoteLaws(fence, note, full)
    requires HeaderEnd(fence, ls) >= 0 && 0 <= FirstFrom(note, ls, 0) <= HeaderEnd(fence, ls)
    ensures var once := Inject(fence, note, full, ls);
            var n := ls[FirstFrom(note, ls, 0)];
            Inject(fence, note, full, once) == once <==>
            full(full(n)) == full(n) && |Select(note, Header(fence, ls))| <= 1
  {
    var headerEnd, at := HeaderEnd(fence, ls), FirstFrom(note, ls, 0);
    MovedShape(fence, note, full, ls);
    HeaderNotes(fence, note, ls);
    TwiceByShape(fence, note, full, ls, at, headerEnd, Inject(fence, note, full, ls));
  }

  lemma {:induction false} TwiceByShape(fence: Test, note: Test, full: string -> string, ls: seq<string>, at: nat,
                                        h: nat, once: seq<string>)
    requires NoteLaws(fence, note, full)
    requires ShiftedBy(ls, at, h, once) && once[h] == full(ls[at]) && HeaderEnd(fence, once) == h - 1
    requires note(ls[at]) && fence(ls[h]) && forall j | 0 <= j < at :: !note(ls[j])
    ensures Inject(fence, note, full, once) == once <==>
            full(full(ls[at])) == full(ls[at]) && forall j | at < j < h :: !note(ls[j])
  {
    assert !note(ls[h]);
    if forall j | at < j < h :: !note(ls[j]) {
      NoNotesAfterShift(note, ls, at, h, once);
      NoteAfterHeaderStays(fence, note, full, once, h);
    } else {
      var j :| at < j < h && note(ls[j]);
      assert once[j - 1] == ls[j];
      assert j - 1 != h - 1;
      SecondNoteMoves(fence, note, full, once, j - 1);
    }
  }

  /** A text with a note in its header is never left as it is: the header gets shorter. */
  lemma {:induction false} SecondNoteMoves(fence: Test, note: Test, full: string -> string, ls: seq<string>, j: nat)
    requires NoteLaws(fence, note, full)
    requires j < HeaderEnd(fence, ls) && note(ls[j])
    ensures Inject(fence, note, full, ls) != ls
  {
    assert 0 <= FirstFrom(note, ls, 0) <= j;
    MovedShape(fence, note, full, ls);
  }

  lemma {:induction false} NoteAfterHeaderStays(fence: Test, note: Test, full: string -> string, ls: seq<string>,
                                                at: nat)
    requires at < |ls| && note(ls[at]) && HeaderEnd(fence, ls) < at
    requires forall j | 0 <= j < at :: !note(ls[j])
    ensures Inject(fence, note, full, ls) == ls <==> full(ls[at]) == ls[at]
  {
    FirstFromIs(note, ls, 0, at);
    assert ls[at := full(ls[at])][at] == full(ls[at]);
  }

  lemma {:induction false} HeaderNotes(fence: Test, note: Test, ls: seq<string>)
    requires forall l | note(l) :: !fence(l)
    requires HeaderEnd(fence, ls) >= 0 && 0 <= FirstFrom(note, ls, 0) <= HeaderEnd(fence, ls)
    ensures var at, e := FirstFrom(note, ls, 0), HeaderEnd(fence, ls);
            |Select(note, Header(fence, ls))| <= 1 <==> forall j | at < j < e :: !note(ls[j])
  {
    var at, e := FirstFrom(note, ls, 0), HeaderEnd(fence, ls);
    assert at != e && at != 0;
    var a, c := ls[1..at], ls[at + 1..e];
    assert ls[1..e] == a + [ls[at]] + c;
    SelectConcat(note, a + [ls[at]], c);
    SelectConcat(note, a, [ls[at]]);
    SelectNone(note, a);
    SelectMembers(note, c);
    assert |Select(note, ls[1..e])| == 1 + |Select(note, c)|;
    if Select(note, c) == [] {
      forall j | at < j < e ensures !note(ls[j]) { assert ls[j] == c[j - at - 1]; }
    } else {
      var l := Select(note, c)[0];
      assert l in c && note(l);
      var i :| 0 <= i < |c| && c[i] == l;
      assert note(ls[at + 1 + i]);
    }
  }

  /** Rewriting the note twice is rewriting it once exactly for texts that pass the check. */
  lemma {:induction false} InjectTwice(fence: Test, note: Test, full: string -> string, ls: seq<string>)
    requires NoteLaws(fence, note, full)
    ensures var once := Inject(fence, note, full, ls);
            Inject(fence, note, full, once) == once <==> NoteStable(fence, note, full, ls)
  {
    var at, e := FirstFrom(note, ls, 0), HeaderEnd(fence, ls);
    FirstSelected(note, ls, 0);
    assert ls[0..] == ls;
    if at >= 0 {
      if e >= 0 && at <= e {
        MovedTwice(fence, note, full, ls);
      } else {
        var once := Inject(fence, note, full, ls);
        assert once == ls[at := full(ls[at])];
        FirstFromIs(note, once, 0, at);
        HeaderOfBodyNote(fence, note, full, ls);
        assert Inject(fence, note, full, once) == once[at := full(full(ls[at]))];
        assert once[at := full(full(ls[at]))][at] == full(full(ls[at]));
      }
    }
  }

  lemma {:induction false} HeaderOfBodyNote(fence: Test, note: Test, full: string -> string, ls: seq<string>)
    requires NoteLaws(fence, note, full)
    requires var at, e := FirstFrom(note, ls, 0), HeaderEnd(fence, ls); at >= 0 && !(e >= 0 && at <= e)
    ensures var at := FirstFrom(note, ls, 0);
            HeaderEnd(fence, ls[at := full(ls[at])]) == HeaderEnd(fence, ls)
            && |Select(note, Header(fence, ls))| <= 1
  {
    var at, e := FirstFrom(note, ls, 0), HeaderEnd(fence, ls);
    var once := ls[at := full(ls[at])];
    if e >= 0 {
      FirstFromIs(fence, once, 1, e);
      SelectNone(note, ls[1..e]);
    } else if fence(ls[0]) {
      assert at != 0;
      assert forall j | 1 <= j < |ls| :: !fence(once[j]);
    }
  }

  // ---------------------------------------------------------------- only the note line is touched

  lemma {:induction false} SelectUpdate(keep: string -> bool, ls: seq<string>, i: nat, l: string)
    requires i < |ls|
    ensures Select(keep, ls[i := l]) ==
            Select(keep, ls[..i]) + (if keep(l) then [l] else []) + Select(keep, ls[i + 1..])
  {
    assert ls[i := l] == ls[..i] + [l] + ls[i + 1..];
    SelectConcat(keep, ls[..i] + [l], ls[i + 1..]);
    SelectConcat(keep, ls[..i], [l]);
  }

  lemma {:induction false} SelectAround(keep: string -> bool, a: seq<string>, x: string, b: seq<string>)
    requires !keep(x)
    ensures Select(keep, a + [x] + b) == Select(keep, a) + Select(keep, b)
  {
    SelectConcat(keep, a + [x], b);
    SelectConcat(keep, a, [x]);
  }

  lemma {:induction false} MoveKeepsOthers(keep: string -> bool, ls: seq<string>, at: nat, h: nat, l: string)
    requires at < h < |ls| && !keep(ls[at]) && !keep(l)
    ensures Select(keep, ls[..at] + ls[at + 1..h + 1] + [l] + ls[h + 1..]) == Select(keep, ls)
  {
    var a, b, c := ls[..at], ls[at + 1..h + 1], ls[h + 1..];
    SelectAround(keep, a + b, l, c);
    SelectConcat(keep, a, b);
    SelectAround(keep, a, ls[at], ls[at + 1..]);
    SelectConcat(keep, b, c);
    SplitAround(ls, at, h);
  }

  lemma {:induction false} SplitAround(ls: seq<string>, at: nat, h: nat)
    requires at < h < |ls|
    ensures ls == ls[..at] + [ls[at]] + ls[at + 1..]
    ensures ls[at + 1..] == ls[at + 1..h + 1] + ls[h + 1..]
  {
  }

  /** Lines that are not notes stay, in order. */
  lemma {:induction false} InjectKeepsOthers(fence: Test, note: Test, full: string -> string, ls: seq<string>,
                                             keep: string -> bool)
    requires NoteLaws(fence, note, full) && forall l | note(l) :: !keep(l)
    ensures Select(keep, Inject(fence, note, full, ls)) == Select(keep, ls)
  {
    var at, e := FirstFrom(note, ls, 0), HeaderEnd(fence, ls);
    if at >= 0 {
      assert note(full(ls[at]));
      if e >= 0 && at <= e {
        var h, i, out := MovedNote(fence, note, full, ls);
        MoveKeepsOthers(keep, ls, i, h, full(ls[at]));
      } else {
        SelectUpdate(keep, ls, at, ls[at]);
        assert ls[at := ls[at]] == ls;
        SelectUpdate(keep, ls, at, full(ls[at]));
      }
    }
  }

  // ---------------------------------------------------------------- the check survives a run

  lemma {:induction false} SelectTwice(test: Test, keep: string -> bool, ls: seq<string>)
    requires forall l | test(l) :: keep(l)
    ensures Select(test, Select(keep, ls)) == Select(test, ls)
  {
    if ls != [] {
      SelectTwice(test, keep, ls[1..]);
      assert test(ls[0]) ==> keep(ls[0]);
      var rest := Select(keep, ls[1..]);
      assert Select(keep, ls) == if keep(ls[0]) then [ls[0]] + rest else rest;
      SelectCons(test, ls[0], rest);
    }
  }

  /** The lines before the first fence, when there is one. */
  function BeforeFence(fence: Test, ls: seq<string>): seq<string> {
    var e := FirstFrom(fence, ls, 0);
    if e < 0 then [] else ls[..e]
  }

  lemma {:induction false} FirstFromShift(test: Test, ls: seq<string>, from: nat)
    requires 0 < from <= |ls|
    ensures var r := FirstFrom(test, ls[1..], from - 1);
            FirstFrom(test, ls, from) == if r < 0 then -1 else r + 1
    decreases |ls| - from
  {
    if from < |ls| && !test(ls[from]) { FirstFromShift(test, ls, from + 1); }
  }

  lemma {:induction false} BeforeFenceCons(fence: Test, x: string, ls: seq<string>)
    requires !fence(x)
    ensures var found := FirstFrom(fence, ls, 0) >= 0;
            && BeforeFence(fence, [x] + ls) == (if found then [x] + BeforeFence(fence, ls) else [])
            && (FirstFrom(fence, [x] + ls, 0) >= 0 <==> found)
  {
    var all, e := [x] + ls, FirstFrom(fence, ls, 0);
    assert all[1..] == ls;
    FirstFromShift(fence, all, 1);
    if e >= 0 { assert all[..e + 1] == [x] + ls[..e]; }
  }

  lemma {:induction false} BeforeFenceSelected(fence: Test, keep: string -> bool, ls: seq<string>)
    requires forall l | fence(l) :: keep(l)
    ensures BeforeFence(fence, Select(keep, ls)) == Select(keep, BeforeFence(fence, ls))
    ensures FirstFrom(fence, Select(keep, ls), 0) < 0 <==> FirstFrom(fence, ls, 0) < 0
  {
    if ls != [] {
      var x, rest := ls[0], Select(keep, ls[1..]);
      assert Select(keep, ls) == (if keep(x) then [x] + rest else rest);
      if !fence(x) {
        BeforeFenceSelected(fence, keep, ls[1..]);
        assert ls == [x] + ls[1..];
        BeforeFenceCons(fence, x, ls[1..]);
        BeforeFenceCons(fence, x, rest);
        SelectCons(keep, x, BeforeFence(fence, ls[1..]));
      }
    }
  }

  lemma {:induction false} HeaderIsBeforeFence(fence: Test, ls: seq<string>)
    requires ls != [] && fence(ls[0])
    ensures Header(fence, ls) == BeforeFence(fence, ls[1..])
  {
    FirstFromShift(fence, ls, 1);
    var e := FirstFrom(fence, ls[1..], 0);
    if e >= 0 { assert ls[1..e + 1] == ls[1..][..e]; }
  }

  /** The check looks only at hand-owned lines and the first line. */
  lemma {:induction false} NoteStableByPlains(fence: Test, note: Test, full: string -> string, keep: string -> bool,
                           a: seq<string>, b: seq<string>)
    requires forall l | fence(l) || note(l) :: keep(l)
    requires a != [] && b != [] && Select(keep, a) == Select(keep, b)
    requires a[0] == b[0] || (!keep(a[0]) && !keep(b[0]))
    ensures NoteStable(fence, note, full, a) <==> NoteStable(fence, note, full, b)
  {
    SelectTwice(note, keep, a);
    SelectTwice(note, keep, b);
    if fence(a[0]) || fence(b[0]) {
      HeaderIsBeforeFence(fence, a);
      HeaderIsBeforeFence(fence, b);
      assert Select(keep, a)[1..] == Select(keep, a[1..]);
      assert Select(keep, b)[1..] == Select(keep, b[1..]);
      BeforeFenceSelected(fence, keep, a[1..]);
      BeforeFenceSelected(fence, keep, b[1..]);
      SelectTwice(note, keep, Header(fence, a));
      SelectTwice(note, keep, Header(fence, b));
    }
  }

  // ---------------------------------------------------------------- the program's own note

  lemma {:induction false} PrefixHasNoAnchor(line: string, i: nat)
    requires IsNote(line) && OccursAt(line, ANCHOR, i)
    ensures i >= |NOTE_PREFIX|
  {
    assert ANCHOR[0] == 'f';
    assert line[i..i + |ANCHOR|][0] == line[i];
    assert line[i] == 'f';
    assert forall j | 0 <= j < |NOTE_PREFIX| :: NOTE_PREFIX[j] != 'f' && line[j] == NOTE_PREFIX[j];
  }

  lemma {:induction false} NoteInk(line: string)
    requires IsNote(line)
    ensures Ink(line) == ">"
  {
    assert line[0] == NOTE_PREFIX[0] == '>';
  }

  lemma {:induction false} ProgramNoteLaws()
    ensures NoteLaws(IsFence, IsNote, FullNote)
  {
    forall l | IsNote(l) ensures !IsFence(l) && IsNote(FullNote(l)) {
      NoteInk(l);
      TrimInk(l);
      var i := IndexOf(l, ANCHOR, 0);
      IndexOfMeaning(l, ANCHOR, 0);
      if i >= 0 { PrefixHasNoAnchor(l, i); }
      assert NOTE_PREFIX <= BaseNote(l);
    }
  }
}
