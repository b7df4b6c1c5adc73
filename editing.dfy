/** The entry-editing commands of the editor window: add, duplicate,
    rename and delete an entry of a list, and the result list of the
    search box. The answers of the dialogs a command opens are
    parameters. */
module ParEditing {
  import opened Wire
  import opened ParModel
  import opened ParText

  // ---------------------------------------------------------------------
  // What the commands compute
  // ---------------------------------------------------------------------

  /** The name a text dialog yields: nothing when it was cancelled or left
      blank, otherwise the answer stripped of surrounding whitespace. */
  function Accepted(answer: Option<string>): (r: Option<string>)
    ensures r.Some? ==> |r.value| > 0 && !IsSpace(r.value[0]) && !IsSpace(r.value[|r.value| - 1])
    ensures answer.None? ==> r.None?
  {
    if answer.None? || Strip(answer.value) == "" then None else Some(Strip(answer.value))
  }

  /** The zero value `_add_entry_to_list` gives a field of a given type. */
  function ZeroOf(f: Field): (z: Field)
    ensures z.Tag() == f.Tag()
  {
    match f
    case Int32(_) => Int32(0)
    case Float32(_) => Float32(0)
    case UInt32(_) => UInt32(0)
    case Str(_) => Str("")
    case Int32Array(_) => Int32Array([])
    case Float32Array(_) => Float32Array([])
    case UInt32Array(_) => UInt32Array([])
    case StrArray(_) => StrArray([])
  }

  /** A new entry: it takes the header bytes of the list's first entry and
      one zero field per field of it, or is empty when the list is. */
  function NewEntry(entries: seq<Entry>, name: string): (e: Entry)
    ensures e.name == name
    ensures |entries| == 0 ==> e == Entry(name, 0, 0, 0, [])
    ensures |entries| > 0 ==>
      && e.unknownByte == entries[0].unknownByte
      && e.unknownU16a == entries[0].unknownU16a
      && e.unknownU16b == entries[0].unknownU16b
      && |e.fields| == |entries[0].fields|
      && forall i :: 0 <= i < |e.fields| ==> e.fields[i] == ZeroOf(entries[0].fields[i])
  {
    if |entries| == 0 then Entry(name, 0, 0, 0, [])
    else
      var t := entries[0];
      Entry(name, t.unknownByte, t.unknownU16a, t.unknownU16b,
            seq(|t.fields|, i requires 0 <= i < |t.fields| => ZeroOf(t.fields[i])))
  }

  /** The string-field update of a renamed or duplicated entry. */
  function RenameField(f: Field, oldLower: string, newName: string): (r: Field)
    ensures r.Tag() == f.Tag()
    ensures !f.Str? ==> r == f
  {
    if f.Str? then Str(ReplaceFirstIgnoringCase(f.s, oldLower, newName)) else f
  }

  /** An entry under a new name: every string field that mentions the old
      name (ignoring case) has its first mention replaced by the new one. */
  function Renamed(e: Entry, newName: string): (r: Entry)
    ensures r.name == newName && |r.fields| == |e.fields|
    ensures r.unknownByte == e.unknownByte && r.unknownU16a == e.unknownU16a && r.unknownU16b == e.unknownU16b
    ensures forall i :: 0 <= i < |e.fields| ==> r.fields[i] == RenameField(e.fields[i], Lower(e.name), newName)
  {
    var oldLower := Lower(e.name);
    e.(name := newName,
       fields := seq(|e.fields|, i requires 0 <= i < |e.fields| => RenameField(e.fields[i], oldLower, newName)))
  }

  /** `list.insert(at, x)`. */
  function InsertAt<T>(xs: seq<T>, at: nat, x: T): (r: seq<T>)
    requires at <= |xs|
    ensures |r| == |xs| + 1 && r[at] == x
    ensures r[..at] == xs[..at] && r[at + 1..] == xs[at..]
  {
    xs[..at] + [x] + xs[at..]
  }

  /** `list.pop(at)`. */
  function RemoveAt<T>(xs: seq<T>, at: nat): (r: seq<T>)
    requires at < |xs|
    ensures |r| == |xs| - 1
    ensures r[..at] == xs[..at] && r[at..] == xs[at + 1..]
  {
    xs[..at] + xs[at + 1..]
  }

  /** A file with the entries of list `li` replaced. */
  function WithEntries(par: ParFile, li: nat, entries: seq<Entry>): (r: ParFile)
    requires li < |par.lists|
    ensures |r.lists| == |par.lists| && r.lists[li].entries == entries
    ensures r.lists[li].unknown1 == par.lists[li].unknown1 && r.lists[li].unknown2 == par.lists[li].unknown2
    ensures forall k :: 0 <= k < |par.lists| && k != li ==> r.lists[k] == par.lists[k]
    ensures r.version == par.version && r.wrapperHeader == par.wrapperHeader
    ensures r.wasCompressed == par.wasCompressed && r.trailing == par.trailing
  {
    par.(lists := par.lists[li := par.lists[li].(entries := entries)])
  }

  /** Every entry name in the file. */
  function NamesIn(lists: seq<ParList>, upTo: nat): set<string>
    requires upTo <= |lists|
  {
    set l, e | 0 <= l < upTo && 0 <= e < |lists[l].entries| :: lists[l].entries[e].name
  }

  // ---------------------------------------------------------------------
  // The loops of the commands
  // ---------------------------------------------------------------------

  /** The field loop of `_add_entry_to_list`: one zero value per field of
      the template. */
  method ZeroedFields(template: seq<Field>) returns (fields: seq<Field>)
    ensures |fields| == |template|
    ensures forall i :: 0 <= i < |template| ==> fields[i] == ZeroOf(template[i])
  {
    fields := [];
    var i := 0;
    while i < |template|
      invariant 0 <= i <= |template| && |fields| == i
      invariant forall k :: 0 <= k < i ==> fields[k] == ZeroOf(template[k])
    {
      fields := fields + [ZeroOf(template[i])];
      i := i + 1;
    }
  }

  /** The string-field loop of `_rename_entry` and `_duplicate_entry`. */
  method RenameStringFields(fields: seq<Field>, oldLower: string, newName: string) returns (out: seq<Field>)
    ensures |out| == |fields|
    ensures forall i :: 0 <= i < |fields| ==> out[i] == RenameField(fields[i], oldLower, newName)
  {
    out := fields;
    var i := 0;
    while i < |out|
      invariant 0 <= i <= |out| && |out| == |fields|
      invariant forall k :: 0 <= k < i ==> out[k] == RenameField(fields[k], oldLower, newName)
      invariant forall k :: i <= k < |out| ==> out[k] == fields[k]
    {
      if out[i].Str? && Contains(Lower(out[i].s), oldLower) {
        out := out[i := Str(ReplaceFirstIgnoringCase(out[i].s, oldLower, newName))];
      }
      i := i + 1;
    }
  }

  /** The name set `_duplicate_entry` builds to warn about a name that is
      already taken. */
  method CollectNames(lists: seq<ParList>) returns (names: set<string>)
    ensures forall n :: n in names <==>
      exists l, e :: 0 <= l < |lists| && 0 <= e < |lists[l].entries| && lists[l].entries[e].name == n
  {
    names := {};
    var l := 0;
    while l < |lists|
      invariant 0 <= l <= |lists|
      invariant names == NamesIn(lists, l)
    {
      var e := 0;
      while e < |lists[l].entries|
        invariant 0 <= e <= |lists[l].entries|
        invariant names == NamesIn(lists, l) + set k | 0 <= k < e :: lists[l].entries[k].name
      {
        names := names + {lists[l].entries[e].name};
        e := e + 1;
      }
      assert NamesIn(lists, l + 1) == NamesIn(lists, l) + set k | 0 <= k < |lists[l].entries| :: lists[l].entries[k].name;
      l := l + 1;
    }
  }

  // ---------------------------------------------------------------------
  // The editor window
  // ---------------------------------------------------------------------

  /** The part of the editor window the commands change: the open file
      (none before one is loaded) and the unsaved-changes flag. */
  class ParEditor {
    var par: Option<ParFile>
    var modified: bool

    constructor (par: Option<ParFile>)
      ensures this.par == par && !modified
    {
      this.par := par;
      modified := false;
    }

    /** _add_entry_to_list: appends a new entry named by the dialog's
        answer to list `li`. */
    method AddEntryToList(li: nat, answer: Option<string>)
      modifies this
      ensures old(par).None? || li >= |old(par).value.lists| || Accepted(answer).None? ==>
        par == old(par) && modified == old(modified)
      ensures old(par).Some? && li < |old(par).value.lists| && Accepted(answer).Some? ==>
        var entries := old(par).value.lists[li].entries;
        && par == Some(WithEntries(old(par).value, li, entries + [NewEntry(entries, Accepted(answer).value)]))
        && modified
    {
      if par.None? || li >= |par.value.lists| {
        return;
      }
      var name := Accepted(answer);
      if name.None? {
        return;
      }
      var pl := par.value.lists[li];
      var entry := Entry(name.value, 0, 0, 0, []);
      if |pl.entries| > 0 {
        var template := pl.entries[0];
        var fields := ZeroedFields(template.fields);
        entry := Entry(name.value, template.unknownByte, template.unknownU16a, template.unknownU16b, fields);
        assert fields == NewEntry(pl.entries, name.value).fields;
      }
      assert entry == NewEntry(pl.entries, name.value);
      par := Some(WithEntries(par.value, li, pl.entries + [entry]));
      modified := true;
    }

    /** _duplicate_entry: offers the suggested name for the copy of entry
        `ei` of list `li`; given the dialog's answer (and, when the name is
        already in use, the answer to the warning), inserts the renamed copy
        right after the original. */
    method DuplicateEntry(li: nat, ei: nat, answer: Option<string>, duplicateAnyway: bool)
      returns (offered: Option<string>)
      modifies this
      ensures old(par).None? || li >= |old(par).value.lists| || ei >= |old(par).value.lists[li].entries| ==>
        offered.None? && par == old(par) && modified == old(modified)
      ensures old(par).Some? && li < |old(par).value.lists| && ei < |old(par).value.lists[li].entries| ==>
        var p := old(par).value;
        var entries := p.lists[li].entries;
        && offered == Some(SuggestNextName(entries[ei].name))
        && (Accepted(answer).None? || (Accepted(answer).value in NamesIn(p.lists, |p.lists|) && !duplicateAnyway) ==>
              par == old(par) && modified == old(modified))
        && (Accepted(answer).Some? && (Accepted(answer).value !in NamesIn(p.lists, |p.lists|) || duplicateAnyway) ==>
              par == Some(WithEntries(p, li, InsertAt(entries, ei + 1, Renamed(entries[ei], Accepted(answer).value))))
              && modified)
    {
      offered := None;
      if par.None? || li >= |par.value.lists| {
        return;
      }
      var pl := par.value.lists[li];
      if ei >= |pl.entries| {
        return;
      }
      var src := pl.entries[ei];
      offered := Some(SuggestNextName(src.name));
      var name := Accepted(answer);
      if name.None? {
        return;
      }
      var taken := CollectNames(par.value.lists);
      if name.value in taken && !duplicateAnyway {
        return;
      }
      var fields := RenameStringFields(src.fields, Lower(src.name), name.value);
      var copy := Entry(name.value, src.unknownByte, src.unknownU16a, src.unknownU16b, fields);
      assert copy == Renamed(src, name.value);
      par := Some(WithEntries(par.value, li, InsertAt(pl.entries, ei + 1, copy)));
      modified := true;
    }

    /** _rename_entry: renames entry `ei` of list `li` to the dialog's
        answer and updates the string fields that mention the old name. A
        cancelled dialog, a blank answer or the old name changes nothing; an
        entry index past the end of the list raises before anything
        changes. */
    method RenameEntry(li: nat, ei: nat, answer: Option<string>)
      modifies this
      ensures var p := old(par);
        p.None? || li >= |p.value.lists| || ei >= |p.value.lists[li].entries|
        || Accepted(answer).None? || Accepted(answer).value == p.value.lists[li].entries[ei].name ==>
        par == old(par) && modified == old(modified)
      ensures var p := old(par);
        p.Some? && li < |p.value.lists| && ei < |p.value.lists[li].entries|
        && Accepted(answer).Some? && Accepted(answer).value != p.value.lists[li].entries[ei].name ==>
        var entries := p.value.lists[li].entries;
        && par == Some(WithEntries(p.value, li, entries[ei := Renamed(entries[ei], Accepted(answer).value)]))
        && modified
    {
      if par.None? || li >= |par.value.lists| {
        return;
      }
      var pl := par.value.lists[li];
      if ei >= |pl.entries| {
        return;   // IndexError
      }
      var entry := pl.entries[ei];
      var name := Accepted(answer);
      if name.None? || name.value == entry.name {
        return;
      }
      var fields := RenameStringFields(entry.fields, Lower(entry.name), name.value);
      var renamed := entry.(name := name.value, fields := fields);
      assert renamed == Renamed(entry, name.value);
      par := Some(WithEntries(par.value, li, pl.entries[ei := renamed]));
      modified := true;
    }

    /** _delete_entry: removes entry `ei` of list `li` once confirmed. */
    method DeleteEntry(li: nat, ei: nat, confirmed: bool)
      modifies this
      ensures var p := old(par);
        p.None? || li >= |p.value.lists| || ei >= |p.value.lists[li].entries| || !confirmed ==>
        par == old(par) && modified == old(modified)
      ensures var p := old(par);
        p.Some? && li < |p.value.lists| && ei < |p.value.lists[li].entries| && confirmed ==>
        par == Some(WithEntries(p.value, li, RemoveAt(p.value.lists[li].entries, ei))) && modified
    {
      if par.None? || li >= |par.value.lists| {
        return;
      }
      var pl := par.value.lists[li];
      if ei >= |pl.entries| || !confirmed {
        return;
      }
      par := Some(WithEntries(par.value, li, RemoveAt(pl.entries, ei)));
      modified := true;
    }
  }

  // ---------------------------------------------------------------------
  // What the commands guarantee
  // ---------------------------------------------------------------------

  /** A new entry has the type vector of the list's first entry, so the
      list stays uniform. */
  lemma NewEntryKeepsTypes(entries: seq<Entry>, name: string)
    requires |entries| > 0
    ensures var e := NewEntry(entries, name);
            forall i :: 0 <= i < |e.fields| ==> e.fields[i].Tag() == entries[0].fields[i].Tag()
  {
  }

  /** A renamed entry differs from the original only in its name and in
      the string fields that mentioned the old name. */
  lemma RenamedKeepsOthers(e: Entry, newName: string, i: nat)
    requires i < |e.fields|
    ensures !e.fields[i].Str? ==> Renamed(e, newName).fields[i] == e.fields[i]
    ensures e.fields[i].Str? && !Contains(Lower(e.fields[i].s), Lower(e.name)) ==>
              Renamed(e, newName).fields[i] == e.fields[i]
    ensures Renamed(e, newName).fields[i].Tag() == e.fields[i].Tag()
  {
  }

  /** Deleting a duplicate right after making it gives the list back. */
  lemma DeleteUndoesDuplicate(entries: seq<Entry>, ei: nat, copy: Entry)
    requires ei < |entries|
    ensures RemoveAt(InsertAt(entries, ei + 1, copy), ei + 1) == entries
  {
    var ins := InsertAt(entries, ei + 1, copy);
    assert ins[..ei + 1] == entries[..ei + 1];
    assert ins[ei + 2..] == entries[ei + 1..];
    assert entries == entries[..ei + 1] + entries[ei + 1..];
  }

  /** Deleting the last entry right after adding it gives the list back. */
  lemma DeleteUndoesAdd(entries: seq<Entry>, name: string)
    ensures RemoveAt(entries + [NewEntry(entries, name)], |entries|) == entries
  {
    var added := entries + [NewEntry(entries, name)];
    assert added[..|entries|] == entries;
  }

  // ---------------------------------------------------------------------
  // The search box
  // ---------------------------------------------------------------------

  /** An entry is found when the query occurs in its lower-cased name or in
      one of its lower-cased string fields. */
  predicate Matches(e: Entry, query: string)
  {
    || Contains(Lower(e.name), query)
    || exists i :: 0 <= i < |e.fields| && e.fields[i].Str? && Contains(Lower(e.fields[i].s), query)
  }

  /** The hits among the first `n` entries of list `li`, in order. */
  function ListHits(li: nat, entries: seq<Entry>, query: string, n: nat): seq<(nat, nat)>
    requires n <= |entries|
  {
    if n == 0 then []
    else ListHits(li, entries, query, n - 1) + (if Matches(entries[n - 1], query) then [(li, n - 1)] else [])
  }

  /** The hits in the first `n` lists, list by list. */
  function SearchHits(lists: seq<ParList>, query: string, n: nat): seq<(nat, nat)>
    requires n <= |lists|
  {
    if n == 0 then []
    else SearchHits(lists, query, n - 1) + ListHits(n - 1, lists[n - 1].entries, query, |lists[n - 1].entries|)
  }

  /** The field loop of the search: it stops at the first string field
      that contains the query. */
  method EntryMatches(e: Entry, query: string) returns (hit: bool)
    ensures hit == Matches(e, query)
  {
    if Contains(Lower(e.name), query) {
      return true;
    }
    var i := 0;
    while i < |e.fields|
      invariant 0 <= i <= |e.fields|
      invariant forall k :: 0 <= k < i ==> !(e.fields[k].Str? && Contains(Lower(e.fields[k].s), query))
    {
      if e.fields[i].Str? && Contains(Lower(e.fields[i].s), query) {
        return true;
      }
      i := i + 1;
    }
    return false;
  }

  /** The result list `_search_next` builds for a (stripped, lower-cased)
      query: the coordinates of every matching entry, list by list. */
  method SearchResults(par: ParFile, query: string) returns (results: seq<(nat, nat)>)
    ensures results == SearchHits(par.lists, query, |par.lists|)
  {
    results := [];
    var li := 0;
    while li < |par.lists|
      invariant 0 <= li <= |par.lists|
      invariant results == SearchHits(par.lists, query, li)
    {
      var hits := ListResults(li, par.lists[li].entries, query);
      results := results + hits;
      li := li + 1;
    }
  }

  /** The inner loop of the search, over the entries of list `li`. */
  method ListResults(li: nat, entries: seq<Entry>, query: string) returns (hits: seq<(nat, nat)>)
    ensures hits == ListHits(li, entries, query, |entries|)
  {
    hits := [];
    var ei := 0;
    while ei < |entries|
      invariant 0 <= ei <= |entries|
      invariant hits == ListHits(li, entries, query, ei)
    {
      var hit := EntryMatches(entries[ei], query);
      assert ListHits(li, entries, query, ei + 1)
             == ListHits(li, entries, query, ei) + (if hit then [(li, ei)] else []);
      if hit {
        hits := hits + [(li, ei)];
      }
      ei := ei + 1;
    }
  }

  /** (li, ei) comes before (lj, ej) in tree order. */
  predicate Before(a: (nat, nat), b: (nat, nat))
  {
    a.0 < b.0 || (a.0 == b.0 && a.1 < b.1)
  }

  predicate InTreeOrder(hits: seq<(nat, nat)>)
  {
    forall i, j :: 0 <= i < j < |hits| ==> Before(hits[i], hits[j])
  }

  lemma {:induction false} ListHitsMembers(li: nat, entries: seq<Entry>, query: string, n: nat)
    requires n <= |entries|
    ensures forall h :: h in ListHits(li, entries, query, n) <==>
              h.0 == li && h.1 < n && Matches(entries[h.1], query)
  {
    if n > 0 {
      ListHitsMembers(li, entries, query, n - 1);
    }
  }

  lemma {:induction false} ListHitsOrdered(li: nat, entries: seq<Entry>, query: string, n: nat)
    requires n <= |entries|
    ensures InTreeOrder(ListHits(li, entries, query, n))
  {
    if n > 0 {
      ListHitsOrdered(li, entries, query, n - 1);
      ListHitsCoords(li, entries, query, n - 1);
      var a := ListHits(li, entries, query, n - 1);
      var b: seq<(nat, nat)> := if Matches(entries[n - 1], query) then [(li, n - 1)] else [];
      assert forall x, y :: x in a && y in b ==> Before(x, y);
      ConcatInOrder(a, b);
    }
  }

  lemma {:induction false} ListHitsCoords(li: nat, entries: seq<Entry>, query: string, n: nat)
    requires n <= |entries|
    ensures forall h :: h in ListHits(li, entries, query, n) ==> h.0 == li && h.1 < n
  {
    if n > 0 {
      ListHitsCoords(li, entries, query, n - 1);
    }
  }

  lemma {:induction false} SearchHitsCoords(lists: seq<ParList>, query: string, n: nat)
    requires n <= |lists|
    ensures forall h :: h in SearchHits(lists, query, n) ==> h.0 < n
  {
    if n > 0 {
      SearchHitsCoords(lists, query, n - 1);
      var last := lists[n - 1].entries;
      ListHitsCoords(n - 1, last, query, |last|);
    }
  }

  /** Two ordered runs, the first wholly before the second, make one. */
  lemma {:induction false} ConcatInOrder(a: seq<(nat, nat)>, b: seq<(nat, nat)>)
    requires InTreeOrder(a) && InTreeOrder(b)
    requires forall x, y :: x in a && y in b ==> Before(x, y)
    ensures InTreeOrder(a + b)
  {
    var c := a + b;
    forall i, j | 0 <= i < j < |c|
      ensures Before(c[i], c[j])
    {
      if j < |a| {
        assert c[i] == a[i] && c[j] == a[j];
      } else if i >= |a| {
        assert c[i] == b[i - |a|] && c[j] == b[j - |a|];
      } else {
        assert c[i] == a[i] && a[i] in a;
        assert c[j] == b[j - |a|] && b[j - |a|] in b;
      }
    }
  }

  /** The search finds exactly the matching entries. */
  lemma {:induction false} SearchHitsMembers(lists: seq<ParList>, query: string, n: nat)
    requires n <= |lists|
    ensures forall h :: h in SearchHits(lists, query, n) <==>
              h.0 < n && h.1 < |lists[h.0].entries| && Matches(lists[h.0].entries[h.1], query)
  {
    if n > 0 {
      SearchHitsMembers(lists, query, n - 1);
      var last := lists[n - 1].entries;
      ListHitsMembers(n - 1, last, query, |last|);
    }
  }

  /** The search reports each hit once, in the order of the tree. */
  lemma {:induction false} SearchHitsOrdered(lists: seq<ParList>, query: string, n: nat)
    requires n <= |lists|
    ensures InTreeOrder(SearchHits(lists, query, n))
  {
    if n > 0 {
      SearchHitsOrdered(lists, query, n - 1);
      SearchHitsCoords(lists, query, n - 1);
      var last := lists[n - 1].entries;
      ListHitsOrdered(n - 1, last, query, |last|);
      ListHitsCoords(n - 1, last, query, |last|);
      var a, b := SearchHits(lists, query, n - 1), ListHits(n - 1, last, query, |last|);
      assert SearchHits(lists, query, n) == a + b;
      forall x, y | x in a && y in b
        ensures Before(x, y)
      {
        assert x.0 < n - 1 && y.0 == n - 1;
      }
      ConcatInOrder(a, b);
    }
  }
}
