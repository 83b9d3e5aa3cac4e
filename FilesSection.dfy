/**
 * The saved-notes list (src/components/orga-note/FilesSection.tsx): the rename guard around
 * `prompt`, the newest-first ordering that `savedNotes.sort(...)` applies in place, and the
 * ids the row buttons hand to `onLoadNote` / `onDeleteNote`. Each callback call is returned
 * as a value; the collection changes behind them are not part of this model.
 */
module FilesSection {
  import opened Wrappers
  import opened JsString
  import opened NoteTypes

  // ---------------------------------------------------------------------------------------
  // Renaming

  /** The arguments of one `onRenameNote(noteId, newName)` call. */
  datatype RenameCall = RenameCall(noteId: string, newName: string)

  /** `savedNotes.find(note => note.id === noteId)`, as an index: the first match, or |notes|. */
  function FindIndex(notes: seq<SavedNote>, noteId: string): (k: nat)
    ensures k <= |notes|
    ensures forall j :: 0 <= j < k ==> notes[j].id != noteId
    ensures k < |notes| ==> notes[k].id == noteId
    decreases |notes|
  {
    if notes == [] then 0
    else if notes[0].id == noteId then 0
    else 1 + FindIndex(notes[1..], noteId)
  }

  /** `currentNote?.name`, the text `prompt` starts from: the name of the first note with that id. */
  function PromptDefault(notes: seq<SavedNote>, noteId: string): (name: Option<string>)
    ensures name.None? <==> forall j :: 0 <= j < |notes| ==> notes[j].id != noteId
    ensures name.Some? ==> exists k :: 0 <= k < |notes| && notes[k].id == noteId && notes[k].name == name.value
    ensures name.Some? ==> name.value == notes[FindIndex(notes, noteId)].name
  {
    var k := FindIndex(notes, noteId);
    if k < |notes| then Some(notes[k].name) else None
  }

  /**
   * `handleRename`: `prompt` answers `None` when cancelled. A cancelled or blank answer makes
   * no call; any other answer calls `onRenameNote` once, with the note's id and the trimmed
   * answer, which is non-empty and has no whitespace at either end.
   */
  function HandleRename(savedNotes: seq<SavedNote>, noteId: string,
                        prompt: Option<string> -> Option<string>): (call: Option<RenameCall>)
    ensures var answer := prompt(PromptDefault(savedNotes, noteId));
            call.Some? <==> answer.Some? && !AllWhitespace(answer.value)
    ensures var answer := prompt(PromptDefault(savedNotes, noteId));
            call.Some? ==> call.value == RenameCall(noteId, Trim(answer.value))
    ensures call.Some? ==> call.value.newName != "" && Trimmed(call.value.newName)
  {
    var newName := prompt(PromptDefault(savedNotes, noteId));
    if newName.Some? && newName.value != "" && Trim(newName.value) != "" then
      Some(RenameCall(noteId, Trim(newName.value)))
    else
      None
  }

  // ---------------------------------------------------------------------------------------
  // Newest-first ordering

  /** The order the comparator `(a, b) => b.lastModified - a.lastModified` asks for. */
  predicate NewestFirst(notes: seq<SavedNote>) {
    forall i, j :: 0 <= i < j < |notes| ==> notes[i].lastModified >= notes[j].lastModified
  }

  /**
   * Places `x` behind every note at least as recent: `x` arrived last, so a stable sort keeps
   * it after the notes that tie with it.
   */
  function InsertByRecency(sorted: seq<SavedNote>, x: SavedNote): (r: seq<SavedNote>)
    ensures |r| == |sorted| + 1
    decreases |sorted|
  {
    if sorted == [] || sorted[|sorted| - 1].lastModified >= x.lastModified then
      sorted + [x]
    else
      InsertByRecency(sorted[..|sorted| - 1], x) + [sorted[|sorted| - 1]]
  }

  /** Insertion adds `x` and keeps every other note. */
  lemma {:induction false} InsertIsPermutation(sorted: seq<SavedNote>, x: SavedNote)
    ensures multiset(InsertByRecency(sorted, x)) == multiset(sorted) + multiset{x}
    decreases |sorted|
  {
    if sorted != [] && sorted[|sorted| - 1].lastModified < x.lastModified {
      var init := sorted[..|sorted| - 1];
      InsertIsPermutation(init, x);
      assert sorted == init + [sorted[|sorted| - 1]];
    }
  }

  /** The stable newest-first sort, as insertion sort over the notes in their given order. */
  function SortByRecency(notes: seq<SavedNote>): (sorted: seq<SavedNote>)
    ensures |sorted| == |notes|
    decreases |notes|
  {
    if notes == [] then []
    else InsertByRecency(SortByRecency(notes[..|notes| - 1]), notes[|notes| - 1])
  }

  /** The notes last modified at time `t`, in their order in `notes`. */
  function WithTimestamp(notes: seq<SavedNote>, t: int): seq<SavedNote>
    decreases |notes|
  {
    if notes == [] then []
    else
      var last := notes[|notes| - 1];
      WithTimestamp(notes[..|notes| - 1], t) + (if last.lastModified == t then [last] else [])
  }

  /** A timestamp's group holds exactly the notes of the list with that timestamp. */
  lemma {:induction false} WithTimestampMembers(notes: seq<SavedNote>, t: int, y: SavedNote)
    ensures y in WithTimestamp(notes, t) <==> y in notes && y.lastModified == t
    decreases |notes|
  {
    if notes != [] {
      var n := |notes|;
      WithTimestampMembers(notes[..n - 1], t, y);
      assert notes == notes[..n - 1] + [notes[n - 1]];
    }
  }

  /** Inserting into a newest-first list keeps it newest-first. */
  lemma {:induction false} InsertKeepsOrder(sorted: seq<SavedNote>, x: SavedNote)
    requires NewestFirst(sorted)
    ensures NewestFirst(InsertByRecency(sorted, x))
    decreases |sorted|
  {
    var n := |sorted|;
    if n > 0 && sorted[n - 1].lastModified < x.lastModified {
      var init := sorted[..n - 1];
      var last := sorted[n - 1];
      InsertKeepsOrder(init, x);
      InsertIsPermutation(init, x);
      var q := InsertByRecency(init, x);
      forall i | 0 <= i < |q| ensures q[i].lastModified >= last.lastModified {
        assert q[i] in multiset(q);
        if q[i] != x {
          assert q[i] in multiset(init);
          var j :| 0 <= j < |init| && init[j] == q[i];
        }
      }
      assert InsertByRecency(sorted, x) == q + [last];
    }
  }

  /** Appending one note extends its timestamp's group by that note. */
  lemma WithTimestampSnoc(notes: seq<SavedNote>, y: SavedNote, t: int)
    ensures WithTimestamp(notes + [y], t)
         == WithTimestamp(notes, t) + (if y.lastModified == t then [y] else [])
  {
    assert (notes + [y])[..|notes|] == notes;
  }

  /** Insertion moves `x` past notes of other timestamps only, so each timestamp's group keeps its order. */
  lemma {:induction false} InsertKeepsGroups(sorted: seq<SavedNote>, x: SavedNote, t: int)
    ensures WithTimestamp(InsertByRecency(sorted, x), t)
         == WithTimestamp(sorted, t) + (if x.lastModified == t then [x] else [])
    decreases |sorted|
  {
    var n := |sorted|;
    if n == 0 || sorted[n - 1].lastModified >= x.lastModified {
      WithTimestampSnoc(sorted, x, t);
    } else {
      var init, last := sorted[..n - 1], sorted[n - 1];
      var xs := if x.lastModified == t then [x] else [];
      var ls := if last.lastModified == t then [last] else [];
      calc {
        WithTimestamp(InsertByRecency(sorted, x), t);
        WithTimestamp(InsertByRecency(init, x) + [last], t);
        { WithTimestampSnoc(InsertByRecency(init, x), last, t); }
        WithTimestamp(InsertByRecency(init, x), t) + ls;
        { InsertKeepsGroups(init, x, t); }
        WithTimestamp(init, t) + xs + ls;
        { assert xs == [] || ls == []; }
        WithTimestamp(init, t) + ls + xs;
        { WithTimestampLast(sorted, t); }
        WithTimestamp(sorted, t) + xs;
      }
    }
  }

  /** `SortByRecency` orders newest first. */
  lemma {:induction false} SortIsNewestFirst(notes: seq<SavedNote>)
    ensures NewestFirst(SortByRecency(notes))
    decreases |notes|
  {
    if notes != [] {
      var n := |notes|;
      SortIsNewestFirst(notes[..n - 1]);
      InsertKeepsOrder(SortByRecency(notes[..n - 1]), notes[n - 1]);
    }
  }

  /** `SortByRecency` only reorders: the same notes, each as many times. */
  lemma {:induction false} SortIsPermutation(notes: seq<SavedNote>)
    ensures multiset(SortByRecency(notes)) == multiset(notes)
    decreases |notes|
  {
    if notes != [] {
      var n := |notes|;
      SortIsPermutation(notes[..n - 1]);
      InsertIsPermutation(SortByRecency(notes[..n - 1]), notes[n - 1]);
      assert notes == notes[..n - 1] + [notes[n - 1]];
    }
  }

  /** `SortByRecency` is stable: notes with equal `lastModified` keep their relative order. */
  lemma {:induction false} SortIsStable(notes: seq<SavedNote>, t: int)
    ensures WithTimestamp(SortByRecency(notes), t) == WithTimestamp(notes, t)
    decreases |notes|
  {
    if notes != [] {
      var n := |notes|;
      SortIsStable(notes[..n - 1], t);
      InsertKeepsGroups(SortByRecency(notes[..n - 1]), notes[n - 1], t);
    }
  }

  /** The last note of a non-empty list closes its timestamp's group. */
  lemma WithTimestampLast(notes: seq<SavedNote>, u: int)
    requires notes != []
    ensures var last := notes[|notes| - 1];
            WithTimestamp(notes, u)
            == WithTimestamp(notes[..|notes| - 1], u) + (if last.lastModified == u then [last] else [])
  {
  }

  /** The last note of a newest-first list is the oldest: nothing in it is older. */
  lemma LastIsOldest(a: seq<SavedNote>, y: SavedNote)
    requires NewestFirst(a) && y in a
    ensures y.lastModified >= a[|a| - 1].lastModified
  {
    var j :| 0 <= j < |a| && a[j] == y;
    if j < |a| - 1 {
      assert a[j].lastModified >= a[|a| - 1].lastModified;
    }
  }

  /** A note of `a` is in `b` when the two agree on that note's timestamp group. */
  lemma SharedByGroup(a: seq<SavedNote>, b: seq<SavedNote>, x: SavedNote)
    requires x in a
    requires WithTimestamp(a, x.lastModified) == WithTimestamp(b, x.lastModified)
    ensures x in b
  {
    WithTimestampMembers(a, x.lastModified, x);
    WithTimestampMembers(b, x.lastModified, x);
  }

  /**
   * Newest-first lists whose groups agree at the timestamps of their last notes end with the
   * same note.
   */
  lemma SameGroupsSameLast(a: seq<SavedNote>, b: seq<SavedNote>)
    requires a != [] && b != []
    requires NewestFirst(a) && NewestFirst(b)
    requires WithTimestamp(a, a[|a| - 1].lastModified) == WithTimestamp(b, a[|a| - 1].lastModified)
    requires WithTimestamp(a, b[|b| - 1].lastModified) == WithTimestamp(b, b[|b| - 1].lastModified)
    ensures a[|a| - 1] == b[|b| - 1]
  {
    var n, m := |a|, |b|;
    var x, y := a[n - 1], b[m - 1];
    SharedByGroup(a, b, x);
    LastIsOldest(b, x);
    SharedByGroup(b, a, y);
    LastIsOldest(a, y);
    var t := x.lastModified;
    SameLastOfGroup(a, b, t);
  }

  /** Lists with equal groups at the common timestamp `t` of their last notes end alike. */
  lemma SameLastOfGroup(a: seq<SavedNote>, b: seq<SavedNote>, t: int)
    requires a != [] && b != []
    requires a[|a| - 1].lastModified == t && b[|b| - 1].lastModified == t
    requires WithTimestamp(a, t) == WithTimestamp(b, t)
    ensures a[|a| - 1] == b[|b| - 1]
  {
    var x, y := a[|a| - 1], b[|b| - 1];
    WithTimestampLast(a, t);
    WithTimestampLast(b, t);
    var p, q := WithTimestamp(a[..|a| - 1], t), WithTimestamp(b[..|b| - 1], t);
    assert (p + [x])[|p|] == x;
    assert (q + [y])[|q|] == y;
  }

  /** Dropping the same last note from lists with equal timestamp groups keeps the groups equal. */
  lemma SameGroupsWithoutLast(a: seq<SavedNote>, b: seq<SavedNote>, u: int)
    requires a != [] && b != [] && a[|a| - 1] == b[|b| - 1]
    requires WithTimestamp(a, u) == WithTimestamp(b, u)
    ensures WithTimestamp(a[..|a| - 1], u) == WithTimestamp(b[..|b| - 1], u)
  {
    var x := a[|a| - 1];
    var p, q := WithTimestamp(a[..|a| - 1], u), WithTimestamp(b[..|b| - 1], u);
    WithTimestampLast(a, u);
    WithTimestampLast(b, u);
    if x.lastModified == u {
      assert p == (p + [x])[..|p|];
      assert q == (q + [x])[..|q|];
    } else {
      assert p + [] == p && q + [] == q;
    }
  }

  /**
   * Two newest-first lists with the same group of notes, in the same order, for every
   * timestamp are equal.
   */
  lemma {:induction false} StableOrderIsUnique(a: seq<SavedNote>, b: seq<SavedNote>)
    requires NewestFirst(a) && NewestFirst(b)
    requires forall t :: WithTimestamp(a, t) == WithTimestamp(b, t)
    ensures a == b
    decreases |a| + |b|
  {
    SameGroupsSameEmptiness(a, b);
    if a != [] {
      var x := a[|a| - 1];
      var a', b' := a[..|a| - 1], b[..|b| - 1];
      assert x == b[|b| - 1] by {
        assert WithTimestamp(a, x.lastModified) == WithTimestamp(b, x.lastModified);
        assert WithTimestamp(a, b[|b| - 1].lastModified) == WithTimestamp(b, b[|b| - 1].lastModified);
        SameGroupsSameLast(a, b);
      }
      forall u ensures WithTimestamp(a', u) == WithTimestamp(b', u) {
        SameGroupsWithoutLast(a, b, u);
      }
      StableOrderIsUnique(a', b');
      assert a == a' + [x];
      assert b == b' + [x];
    }
  }

  /** Lists with equal timestamp groups are both empty or both non-empty. */
  lemma SameGroupsSameEmptiness(a: seq<SavedNote>, b: seq<SavedNote>)
    requires forall t :: WithTimestamp(a, t) == WithTimestamp(b, t)
    ensures a == [] <==> b == []
  {
    if a != [] {
      assert a[0] in b by {
        assert WithTimestamp(a, a[0].lastModified) == WithTimestamp(b, a[0].lastModified);
        SharedByGroup(a, b, a[0]);
      }
    }
    if b != [] {
      assert b[0] in a by {
        assert WithTimestamp(a, b[0].lastModified) == WithTimestamp(b, b[0].lastModified);
        SharedByGroup(b, a, b[0]);
      }
    }
  }

  /**
   * Any stable newest-first sort of `notes` (the engine's own `Array.prototype.sort` is
   * stable) produces exactly `SortByRecency(notes)`.
   */
  lemma StableSortIsSortByRecency(notes: seq<SavedNote>, sorted: seq<SavedNote>)
    requires NewestFirst(sorted)
    requires forall t :: WithTimestamp(sorted, t) == WithTimestamp(notes, t)
    ensures sorted == SortByRecency(notes)
  {
    SortIsNewestFirst(notes);
    forall t ensures WithTimestamp(SortByRecency(notes), t) == WithTimestamp(notes, t) {
      SortIsStable(notes, t);
    }
    StableOrderIsUnique(sorted, SortByRecency(notes));
  }

  /** Removing the last note before `x` from the sorted prefix when it is older than `x`. */
  lemma InsertStep(sorted: seq<SavedNote>, x: SavedNote, j: nat)
    requires 0 < j <= |sorted| && sorted[j - 1].lastModified < x.lastModified
    ensures InsertByRecency(sorted[..j], x) + sorted[j..]
         == InsertByRecency(sorted[..j - 1], x) + sorted[j - 1..]
  {
    assert sorted[..j][..j - 1] == sorted[..j - 1];
    assert sorted[j - 1..] == [sorted[j - 1]] + sorted[j..];
  }

  /** The array of one insertion pass, on entry: the hole is at `i`. */
  lemma HoleAtEnd(a: seq<SavedNote>, i: nat)
    requires i < |a|
    ensures var sorted := a[..i];
            a == sorted[..i] + [a[i]] + sorted[i..] + a[i + 1..]
            && InsertByRecency(sorted, a[i]) == InsertByRecency(sorted[..i], a[i]) + sorted[i..]
  {
    assert a[..i][..i] == a[..i] && a[..i][i..] == [];
    assert a == a[..i] + [a[i]] + a[i + 1..];
  }

  /** The shift step on the sequence view: the note before the hole moves into it. */
  lemma ShiftRight(sorted: seq<SavedNote>, rest: seq<SavedNote>, j: nat, hole: SavedNote)
    requires 0 < j <= |sorted|
    ensures (sorted[..j] + [hole] + sorted[j..] + rest)[j - 1] == sorted[j - 1]
    ensures (sorted[..j] + [hole] + sorted[j..] + rest)[j := sorted[j - 1]]
         == sorted[..j - 1] + [sorted[j - 1]] + sorted[j - 1..] + rest
  {
    assert sorted[..j] == sorted[..j - 1] + [sorted[j - 1]];
    assert sorted[j - 1..] == [sorted[j - 1]] + sorted[j..];
  }

  /**
   * Filling the hole at `j` once the note before it is at least as recent as `x` (or there is
   * none) completes the insertion.
   */
  lemma FillHole(sorted: seq<SavedNote>, rest: seq<SavedNote>, j: nat, hole: SavedNote, x: SavedNote)
    requires j <= |sorted| && (j == 0 || sorted[j - 1].lastModified >= x.lastModified)
    requires InsertByRecency(sorted, x) == InsertByRecency(sorted[..j], x) + sorted[j..]
    ensures (sorted[..j] + [hole] + sorted[j..] + rest)[j := x] == InsertByRecency(sorted, x) + rest
  {
    assert InsertByRecency(sorted[..j], x) == sorted[..j] + [x];
  }

  /**
   * One pass of the insertion sort: `savedNotes[i]` moves left past the strictly older notes
   * of the sorted prefix `savedNotes[..i]`.
   */
  method InsertAt(savedNotes: array<SavedNote>, i: nat)
    requires i < savedNotes.Length
    modifies savedNotes
    ensures savedNotes[..] == InsertByRecency(old(savedNotes[..i]), old(savedNotes[i])) + old(savedNotes[i + 1..])
  {
    var x := savedNotes[i];
    ghost var sorted := savedNotes[..i];
    ghost var rest := savedNotes[i + 1..];
    HoleAtEnd(savedNotes[..], i);
    var j := i;
    while j > 0 && savedNotes[j - 1].lastModified < x.lastModified
      invariant 0 <= j <= i
      invariant savedNotes[..] == sorted[..j] + [savedNotes[j]] + sorted[j..] + rest
      invariant InsertByRecency(sorted, x) == InsertByRecency(sorted[..j], x) + sorted[j..]
    {
      ShiftRight(sorted, rest, j, savedNotes[j]);
      InsertStep(sorted, x, j);
      savedNotes[j] := savedNotes[j - 1];
      j := j - 1;
    }
    FillHole(sorted, rest, j, savedNotes[j], x);
    savedNotes[j] := x;
  }

  /** One outer step of the sort, on the sequence `SortByRecency(input[..i]) + input[i..]`. */
  lemma SortStep(input: seq<SavedNote>, i: nat)
    requires i < |input|
    ensures var done := SortByRecency(input[..i]);
            var s := done + input[i..];
            s[..i] == done && s[i] == input[i] && s[i + 1..] == input[i + 1..]
            && SortByRecency(input[..i + 1]) == InsertByRecency(done, input[i])
  {
    assert input[..i + 1][..i] == input[..i];
  }

  /**
   * `savedNotes.sort((a, b) => b.lastModified - a.lastModified)`, in place on the array the
   * list is rendered from: a stable insertion sort.
   */
  method SortNewestFirst(savedNotes: array<SavedNote>)
    modifies savedNotes
    ensures savedNotes[..] == SortByRecency(old(savedNotes[..]))
  {
    ghost var input := savedNotes[..];
    var i := 0;
    assert input[..0] == [] && input[0..] == input;
    while i < savedNotes.Length
      invariant 0 <= i <= savedNotes.Length
      invariant savedNotes[..] == SortByRecency(input[..i]) + input[i..]
    {
      SortStep(input, i);
      InsertAt(savedNotes, i);
      i := i + 1;
    }
    assert input[..i] == input && input[i..] == [];
  }

  /** The rows rendered for `notes`: row `i`'s load and delete buttons both pass its id. */
  function NoteRowIds(notes: seq<SavedNote>): (ids: seq<string>)
    ensures |ids| == |notes|
    ensures forall i :: 0 <= i < |notes| ==> ids[i] == notes[i].id
  {
    seq(|notes|, i requires 0 <= i < |notes| => notes[i].id)
  }

  /**
   * The rows rendered after the in-place sort: one per saved note, every saved note's id
   * among them, and no id that is not a saved note's.
   */
  lemma SortedRowsCoverNotes(notes: seq<SavedNote>)
    ensures |NoteRowIds(SortByRecency(notes))| == |notes|
    ensures forall n :: n in notes ==> n.id in NoteRowIds(SortByRecency(notes))
    ensures forall id :: id in NoteRowIds(SortByRecency(notes)) ==> exists n :: n in notes && n.id == id
  {
    SortIsPermutation(notes);
    var sorted := SortByRecency(notes);
    var rows := NoteRowIds(sorted);
    forall n | n in notes
      ensures n.id in rows
    {
      assert n in multiset(sorted);
      var i :| 0 <= i < |sorted| && sorted[i] == n;
      assert rows[i] == n.id;
    }
    forall id | id in rows
      ensures exists n :: n in notes && n.id == id
    {
      var i :| 0 <= i < |rows| && rows[i] == id;
      assert sorted[i] in multiset(notes);
    }
  }
}
