/** The list screen's derived view (`filteredNotes`): keep the notes whose
    title matches the search box, then sort a copy by date, newest first when
    the sort order is `desc` and oldest first otherwise.

    Date parsing, `new Date(x).getTime()`, is a parameter `time`: the model
    does not say how a stored date string becomes an instant. */
module IndexScreen {
  import opened JsValues
  import opened Text
  import opened Notes
  import StableSort

  /** `n.title.toLowerCase().includes(search.toLowerCase())`. The term is the
      search text as typed: surrounding spaces are part of it. */
  function TitleMatches(n: Note, search: string): (m: bool)
    ensures m <==> Contains(ToLower(n.title), ToLower(search))
  {
    Includes(ToLower(n.title), ToLower(search))
  }

  /** `list.filter(n => TitleMatches(n, search))`: the matching notes, in order,
      each as many times as it occurs in `notes`. */
  function KeepMatching(notes: seq<Note>, search: string): (r: seq<Note>)
    ensures |r| <= |notes|
    ensures forall n :: n in r ==> TitleMatches(n, search)
    ensures forall n :: multiset(r)[n] == if TitleMatches(n, search) then multiset(notes)[n] else 0
  {
    if notes == [] then []
    else
      assert notes == [notes[0]] + notes[1..];
      (if TitleMatches(notes[0], search) then [notes[0]] else []) + KeepMatching(notes[1..], search)
  }

  /** `filter` keeps the input order: filtering a concatenation filters each
      part and concatenates the results. */
  lemma {:induction false} KeepMatchingAppend(a: seq<Note>, b: seq<Note>, search: string)
    ensures KeepMatching(a + b, search) == KeepMatching(a, search) + KeepMatching(b, search)
    decreases |a|
  {
    if a == [] {
      assert a + b == b;
    } else {
      assert (a + b)[0] == a[0];
      assert (a + b)[1..] == a[1..] + b;
      KeepMatchingAppend(a[1..], b, search);
    }
  }

  /** Filtering, then taking the notes with one date, is the same as taking
      the notes with that date, then filtering. */
  lemma {:induction false} KeepMatchingWithKey(notes: seq<Note>, search: string, key: Note -> int, t: int)
    ensures StableSort.WithKey(KeepMatching(notes, search), key, t)
         == KeepMatching(StableSort.WithKey(notes, key, t), search)
    decreases |notes|
  {
    if notes != [] {
      var n, rest := notes[0], notes[1..];
      var kept := if TitleMatches(n, search) then [n] else [];
      var same := if key(n) == t then [n] else [];
      assert KeepMatching(notes, search) == kept + KeepMatching(rest, search);
      assert StableSort.WithKey(notes, key, t) == same + StableSort.WithKey(rest, key, t);
      StableSort.WithKeyAppend(kept, KeepMatching(rest, search), key, t);
      KeepMatchingWithKey(rest, search, key, t);
      KeepMatchingAppend(same, StableSort.WithKey(rest, key, t), search);
      if kept != [] {
        assert kept[1..] == [];
      }
      if same != [] {
        assert same[1..] == [];
      }
      assert StableSort.WithKey(kept, key, t) == KeepMatching(same, search);
    }
  }

  /** The search box filters only when `search.trim()` is non-empty. */
  predicate Searching(search: string) {
    Trim(search) != ""
  }

  /** The list before sorting: every note when the search box is blank,
      otherwise the matching ones. */
  function Filtered(notes: seq<Note>, search: string): (list: seq<Note>)
    ensures Blank(search) ==> list == notes
    ensures !Blank(search) ==> list == KeepMatching(notes, search)
  {
    if Searching(search) then KeepMatching(notes, search) else notes
  }

  /** `sortOrder === 'desc'`: any other value sorts oldest first. */
  predicate Descending(sortOrder: string) {
    sortOrder == "desc"
  }

  /** The sort key: `new Date(n.updatedAt || n.createdAt).getTime()`. */
  function SortKey(time: Option<string> -> int): (key: Note -> int)
    ensures forall n :: key(n) == time(if Truthy(n.updatedAt) then n.updatedAt else n.createdAt)
  {
    var key := n => time(DateKey(n));
    assert forall n :: key(n) == time(DateKey(n));
    key
  }

  /** `filteredNotes`: filter, then stably sort a copy by date. */
  function FilteredNotes(notes: seq<Note>, search: string, sortOrder: string,
                         time: Option<string> -> int): (r: seq<Note>)
    ensures |r| <= |notes|
    ensures forall n :: multiset(r)[n] ==
              if Blank(search) || Contains(ToLower(n.title), ToLower(search))
              then multiset(notes)[n] else 0
  {
    StableSort.Sort(Filtered(notes, search), SortKey(time), Descending(sortOrder))
  }

  /** A blank search box (empty or only white space) filters nothing out: the
      result is a rearrangement of all the notes. */
  lemma BlankSearchKeepsEveryNote(notes: seq<Note>, search: string, sortOrder: string,
                                  time: Option<string> -> int)
    requires Blank(search)
    ensures multiset(FilteredNotes(notes, search, sortOrder, time)) == multiset(notes)
  {
  }

  /** With a non-blank search every listed note's lower-cased title contains
      the lower-cased search text, spaces included. */
  lemma ListedNotesMatch(notes: seq<Note>, search: string, sortOrder: string,
                         time: Option<string> -> int)
    requires !Blank(search)
    ensures forall n :: n in FilteredNotes(notes, search, sortOrder, time) ==>
              Contains(ToLower(n.title), ToLower(search))
  {
    var list := Filtered(notes, search);
    forall n | n in FilteredNotes(notes, search, sortOrder, time)
      ensures Contains(ToLower(n.title), ToLower(search))
    {
      assert n in multiset(list);
    }
  }

  /** Newest first for `desc`, oldest first for any other sort order. */
  lemma ListOrderedByDate(notes: seq<Note>, search: string, sortOrder: string,
                          time: Option<string> -> int)
    ensures var r := FilteredNotes(notes, search, sortOrder, time);
            forall i, j :: 0 <= i < j < |r| ==>
              if sortOrder == "desc" then time(DateKey(r[i])) >= time(DateKey(r[j]))
              else time(DateKey(r[i])) <= time(DateKey(r[j]))
  {
    var key, desc := SortKey(time), Descending(sortOrder);
    var r := FilteredNotes(notes, search, sortOrder, time);
    StableSort.SortIsStableSort(Filtered(notes, search), key, desc);
    StableSort.SortedKeys(r, key, desc);
  }

  /** Notes with the same date are listed in their order in the collection:
      for every date, the listed notes with that date are exactly the
      collection's notes with that date that pass the filter, in order. */
  lemma ListIsStable(notes: seq<Note>, search: string, sortOrder: string,
                     time: Option<string> -> int)
    ensures forall t :: StableSort.WithKey(FilteredNotes(notes, search, sortOrder, time), SortKey(time), t)
                     == Filtered(StableSort.WithKey(notes, SortKey(time), t), search)
  {
    StableSort.SortIsStableSort(Filtered(notes, search), SortKey(time), Descending(sortOrder));
    forall t
      ensures StableSort.WithKey(Filtered(notes, search), SortKey(time), t)
           == Filtered(StableSort.WithKey(notes, SortKey(time), t), search)
    {
      KeepMatchingWithKey(notes, search, SortKey(time), t);
    }
  }

  /** Any engine whose `Array.prototype.sort` is stable, as ECMAScript 2019
      requires, produces exactly the modelled list. */
  lemma ListDeterminedBySortSpec(notes: seq<Note>, search: string, sortOrder: string,
                                 time: Option<string> -> int, out: seq<Note>)
    requires StableSort.IsStableSortOf(out, Filtered(notes, search), SortKey(time), Descending(sortOrder))
    ensures out == FilteredNotes(notes, search, sortOrder, time)
  {
    StableSort.SortDeterminedBySpec(Filtered(notes, search), out, SortKey(time), Descending(sortOrder));
  }

  /** Filtering a list whose notes all match keeps it as it is. */
  lemma {:induction false} KeepMatchingAllMatch(notes: seq<Note>, search: string)
    requires forall n :: n in notes ==> TitleMatches(n, search)
    ensures KeepMatching(notes, search) == notes
  {
    if notes != [] {
      KeepMatchingAllMatch(notes[1..], search);
      assert notes == [notes[0]] + notes[1..];
    }
  }

  /** Applying the view to its own output with the same search text and sort
      order gives the same list back. */
  lemma FilteredNotesIdempotent(notes: seq<Note>, search: string, sortOrder: string,
                                time: Option<string> -> int)
    ensures var r := FilteredNotes(notes, search, sortOrder, time);
            FilteredNotes(r, search, sortOrder, time) == r
  {
    var key, desc := SortKey(time), Descending(sortOrder);
    var r := FilteredNotes(notes, search, sortOrder, time);
    if Searching(search) {
      forall n | n in r
        ensures TitleMatches(n, search)
      {
        assert n in multiset(KeepMatching(notes, search));
      }
      KeepMatchingAllMatch(r, search);
    }
    StableSort.SortIsStableSort(Filtered(notes, search), key, desc);
    StableSort.SortOfSorted(r, key, desc);
  }

  /** Two notes with different dates and a blank search: `desc` lists the
      newer one first, `asc` the older one. */
  lemma NewerFirstScenario(older: Note, newer: Note, time: Option<string> -> int)
    requires time(DateKey(older)) < time(DateKey(newer))
    ensures FilteredNotes([older, newer], "", "desc", time) == [newer, older]
    ensures FilteredNotes([older, newer], "", "asc", time) == [older, newer]
  {
    var key := SortKey(time);
    assert key(older) < key(newer);
    assert Trim("") == "";
    assert StableSort.Sort([newer], key, true) == [newer];
    assert StableSort.Sort([newer], key, false) == [newer];
  }
}
