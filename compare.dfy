/** The compare tab's diff: two loaded files are matched list by list (by
    position) and entry by entry (by name), and every difference becomes a
    record carrying coordinates into both files. */
module ParCompare {
  import opened Wire
  import opened ParModel

  // ---------------------------------------------------------------------
  // Field equality
  // ---------------------------------------------------------------------

  /** The two float comparisons `_cmp_fields_equal` makes, on 32-bit
      patterns: `close` is `abs(a - b) < 1e-7` for scalar floats, `same` is
      Python's `==` on the elements of float arrays. */
  datatype FloatCmp = FloatCmp(close: (u32, u32) -> bool, same: (u32, u32) -> bool)

  /** Both comparisons hold between a value and itself (no NaN). */
  ghost predicate Reflexive(fc: FloatCmp)
  {
    forall x :: fc.close(x, x) && fc.same(x, x)
  }

  /** _cmp_fields_equal. */
  function FieldsEqual(f1: Field, f2: Field, fc: FloatCmp): (r: bool)
    ensures r ==> f1.Tag() == f2.Tag()
  {
    if f1.Tag() != f2.Tag() then false
    else match (f1, f2)
      case (Float32(a), Float32(b)) => fc.close(a, b)
      case (Float32Array(a), Float32Array(b)) =>
        |a| == |b| && forall i :: 0 <= i < |a| ==> fc.same(a[i], b[i])
      case _ => f1 == f2
  }

  /** Fields of different types never compare equal; floats compare
      through `fc`, element by element for float arrays; everything else
      compares by value. */
  lemma FieldsEqualSpec(f1: Field, f2: Field, fc: FloatCmp)
    ensures f1.Tag() != f2.Tag() ==> !FieldsEqual(f1, f2, fc)
    ensures f1.Float32? && f2.Float32? ==> (FieldsEqual(f1, f2, fc) <==> fc.close(f1.bits, f2.bits))
    ensures f1.Float32Array? && f2.Float32Array? ==>
              (FieldsEqual(f1, f2, fc) <==> |f1.fa| == |f2.fa| && forall i :: 0 <= i < |f1.fa| ==> fc.same(f1.fa[i], f2.fa[i]))
    ensures !f1.Float32? && !f1.Float32Array? ==> (FieldsEqual(f1, f2, fc) <==> f1 == f2)
  {
  }

  lemma FieldsEqualReflexive(f: Field, fc: FloatCmp)
    requires Reflexive(fc)
    ensures FieldsEqual(f, f, fc)
  {
    if f.Float32? {
      assert fc.close(f.bits, f.bits);
    }
  }

  // ---------------------------------------------------------------------
  // Name order
  // ---------------------------------------------------------------------

  /** Python's `<` on strings: lexicographic by code point. */
  predicate StrLess(a: string, b: string)
  {
    if |a| == 0 then |b| > 0
    else if |b| == 0 then false
    else if a[0] != b[0] then a[0] < b[0]
    else StrLess(a[1..], b[1..])
  }

  lemma {:induction false} StrLessIrreflexive(a: string)
    ensures !StrLess(a, a)
  {
    if |a| > 0 {
      StrLessIrreflexive(a[1..]);
    }
  }

  lemma {:induction false} StrLessTransitive(a: string, b: string, c: string)
    requires StrLess(a, b) && StrLess(b, c)
    ensures StrLess(a, c)
  {
    if |a| > 0 && |b| > 0 && |c| > 0 && a[0] == b[0] && b[0] == c[0] {
      StrLessTransitive(a[1..], b[1..], c[1..]);
    }
  }

  lemma {:induction false} StrLessTotal(a: string, b: string)
    ensures a == b || StrLess(a, b) || StrLess(b, a)
  {
    if |a| > 0 && |b| > 0 && a[0] == b[0] {
      StrLessTotal(a[1..], b[1..]);
      if a[1..] == b[1..] {
        assert a == [a[0]] + a[1..] && b == [b[0]] + b[1..];
      }
    }
  }

  predicate StrictlySorted(names: seq<string>)
  {
    forall i, j :: 0 <= i < j < |names| ==> StrLess(names[i], names[j])
  }

  /** Inserts a name into a strictly sorted sequence, unless present. */
  function Insert(x: string, s: seq<string>): (r: seq<string>)
  {
    if |s| == 0 then [x]
    else if x == s[0] then s
    else if StrLess(x, s[0]) then [x] + s
    else [s[0]] + Insert(x, s[1..])
  }

  lemma {:induction false} InsertSpec(x: string, s: seq<string>)
    requires StrictlySorted(s)
    ensures StrictlySorted(Insert(x, s))
    ensures forall y :: y in Insert(x, s) <==> y in s || y == x
  {
    if |s| > 0 && x != s[0] && !StrLess(x, s[0]) {
      InsertSpec(x, s[1..]);
      StrLessTotal(x, s[0]);
      var r := Insert(x, s);
      assert r == [s[0]] + Insert(x, s[1..]);
      forall j | 0 < j < |r|
        ensures StrLess(r[0], r[j])
      {
        assert r[j] in Insert(x, s[1..]);
        if r[j] != x {
          var k :| 0 <= k < |s[1..]| && s[1..][k] == r[j];
          assert s[k + 1] == r[j];
        }
      }
    } else if |s| > 0 && x != s[0] {
      forall j | 0 < j < |s|
        ensures StrLess(x, s[j])
      {
        StrLessTransitive(x, s[0], s[j]);
      }
    }
  }

  /** `sorted(set(names))`. */
  function SortedUnique(names: seq<string>): seq<string>
  {
    if |names| == 0 then []
    else Insert(names[|names| - 1], SortedUnique(names[..|names| - 1]))
  }

  /** `sorted(set(names))` is strictly sorted and holds exactly the names. */
  lemma {:induction false} SortedUniqueSpec(names: seq<string>)
    ensures StrictlySorted(SortedUnique(names))
    ensures forall y :: y in SortedUnique(names) <==> y in names
  {
    if |names| > 0 {
      var init := names[..|names| - 1];
      SortedUniqueSpec(init);
      InsertSpec(names[|names| - 1], SortedUnique(init));
      assert names == init + [names[|names| - 1]];
    }
  }

  // ---------------------------------------------------------------------
  // Diff records
  // ---------------------------------------------------------------------

  datatype DiffKind = Changed | InputOnly | SourceOnly

  /** One row of the compare tab: what differs, where in the source and
      where in the input (-1 for a side that has nothing there). The
      display strings and the field label are not part of the model. */
  datatype Diff = Diff(
    kind: DiffKind,
    listIdx: nat,
    entryName: string,
    fieldIdx: int,
    srcLi: int, srcEi: int,
    inpLi: int, inpEi: int)

  /** `{e.name: (ei, e) for ei, e in enumerate(entries)}` over the first
      `n` entries: a later entry of the same name overwrites an earlier
      one. */
  function IndexByName(entries: seq<Entry>, n: nat): (m: map<string, nat>)
    requires n <= |entries|
    ensures forall name :: name in m ==> m[name] < n
  {
    if n == 0 then map[]
    else IndexByName(entries, n - 1)[entries[n - 1].name := n - 1]
  }

  /** The index maps each name to the last of the first `n` entries that
      carries it, and every such name is in the index. */
  lemma {:induction false} IndexByNameSpec(entries: seq<Entry>, n: nat)
    requires n <= |entries|
    ensures var m := IndexByName(entries, n);
            && (forall name :: name in m ==> m[name] < n && entries[m[name]].name == name)
            && (forall i :: 0 <= i < n ==> entries[i].name in m && i <= m[entries[i].name])
  {
    if n > 0 {
      IndexByNameSpec(entries, n - 1);
      var prev, key := IndexByName(entries, n - 1), entries[n - 1].name;
      var m := prev[key := n - 1];
      assert IndexByName(entries, n) == m;
      forall i | 0 <= i < n
        ensures entries[i].name in m && i <= m[entries[i].name]
      {
        if i < n - 1 && entries[i].name != key {
          assert m[entries[i].name] == prev[entries[i].name];
        }
      }
    }
  }

  function Names(entries: seq<Entry>): seq<string>
  {
    seq(|entries|, i requires 0 <= i < |entries| => entries[i].name)
  }

  /** One record per entry of a list that only one side has. */
  function OneSided(kind: DiffKind, li: nat, entries: seq<Entry>, n: nat): (r: seq<Diff>)
    requires kind != Changed && n <= |entries|
    ensures |r| == n
  {
    if n == 0 then []
    else
      var e := entries[n - 1];
      OneSided(kind, li, entries, n - 1) +
        [if kind == InputOnly then Diff(InputOnly, li, e.name, -1, -1, -1, li, n - 1)
         else Diff(SourceOnly, li, e.name, -1, li, n - 1, -1, -1)]
  }

  /** The field records of a name both lists have, for fields `0..n-1`. */
  function FieldDiffs(li: nat, name: string, sei: nat, se: Entry, iei: nat, ie: Entry, fc: FloatCmp, n: nat): seq<Diff>
  {
    if n == 0 then []
    else
      var fi := n - 1;
      FieldDiffs(li, name, sei, se, iei, ie, fc, n - 1) +
        (if fi < |se.fields| && fi < |ie.fields| && FieldsEqual(se.fields[fi], ie.fields[fi], fc) then []
         else [Diff(Changed, li, name, fi, li, sei, li, iei)])
  }

  function MaxLen(se: Entry, ie: Entry): nat
  {
    if |se.fields| < |ie.fields| then |ie.fields| else |se.fields|
  }

  /** The records of one name of two matched lists. */
  function NameDiffs(li: nat, name: string, srcs: seq<Entry>, inps: seq<Entry>, fc: FloatCmp): seq<Diff>
  {
    var sIdx, iIdx := IndexByName(srcs, |srcs|), IndexByName(inps, |inps|);
    if name in sIdx && name !in iIdx then
      [Diff(SourceOnly, li, name, -1, li, sIdx[name], -1, -1)]
    else if name in iIdx && name !in sIdx then
      [Diff(InputOnly, li, name, -1, -1, -1, li, iIdx[name])]
    else if name in sIdx && name in iIdx then
      var se, ie := srcs[sIdx[name]], inps[iIdx[name]];
      FieldDiffs(li, name, sIdx[name], se, iIdx[name], ie, fc, MaxLen(se, ie))
    else []
  }

  /** The records of the first `n` of `names`, in that order. It is
      defined through `NamesDiffsOnce` and `NamesDiffsNext`, so that a proof
      that mentions it sees its body only when it asks for it. */
  function NamesDiffs(li: nat, names: seq<string>, srcs: seq<Entry>, inps: seq<Entry>, fc: FloatCmp, n: nat): seq<Diff>
    requires n <= |names|
    decreases n, 2
  {
    NamesDiffsOnce(li, names, srcs, inps, fc, n)
  }

  function NamesDiffsOnce(li: nat, names: seq<string>, srcs: seq<Entry>, inps: seq<Entry>, fc: FloatCmp, n: nat): seq<Diff>
    requires n <= |names|
    decreases n, 1
  {
    NamesDiffsNext(li, names, srcs, inps, fc, n)
  }

  function NamesDiffsNext(li: nat, names: seq<string>, srcs: seq<Entry>, inps: seq<Entry>, fc: FloatCmp, n: nat): seq<Diff>
    requires n <= |names|
    decreases n, 0
  {
    if n == 0 then []
    else NamesDiffs(li, names, srcs, inps, fc, n - 1) + NameDiffs(li, names[n - 1], srcs, inps, fc)
  }

  /** The names of two matched lists, in sorted order. */
  function AllNames(srcs: seq<Entry>, inps: seq<Entry>): seq<string>
  {
    SortedUnique(Names(srcs) + Names(inps))
  }

  function MatchedDiffs(li: nat, srcs: seq<Entry>, inps: seq<Entry>, fc: FloatCmp): seq<Diff>
  {
    var names := AllNames(srcs, inps);
    NamesDiffs(li, names, srcs, inps, fc, |names|)
  }

  /** The records of list index `li`. */
  function ListDiffs(src: ParFile, inp: ParFile, li: nat, fc: FloatCmp): seq<Diff>
    requires li < |src.lists| || li < |inp.lists|
  {
    if li >= |src.lists| then
      OneSided(InputOnly, li, inp.lists[li].entries, |inp.lists[li].entries|)
    else if li >= |inp.lists| then
      OneSided(SourceOnly, li, src.lists[li].entries, |src.lists[li].entries|)
    else MatchedDiffs(li, src.lists[li].entries, inp.lists[li].entries, fc)
  }

  function MaxLists(src: ParFile, inp: ParFile): nat
  {
    if |src.lists| < |inp.lists| then |inp.lists| else |src.lists|
  }

  /** The records of list indexes `0..n-1`; split like `NamesDiffs`. */
  function DiffsUpTo(src: ParFile, inp: ParFile, fc: FloatCmp, n: nat): seq<Diff>
    requires n <= MaxLists(src, inp)
    decreases n, 2
  {
    DiffsUpToOnce(src, inp, fc, n)
  }

  function DiffsUpToOnce(src: ParFile, inp: ParFile, fc: FloatCmp, n: nat): seq<Diff>
    requires n <= MaxLists(src, inp)
    decreases n, 1
  {
    DiffsUpToNext(src, inp, fc, n)
  }

  function DiffsUpToNext(src: ParFile, inp: ParFile, fc: FloatCmp, n: nat): seq<Diff>
    requires n <= MaxLists(src, inp)
    decreases n, 0
  {
    if n == 0 then []
    else DiffsUpTo(src, inp, fc, n - 1) + ListDiffs(src, inp, n - 1, fc)
  }

  /** The records `_cmp_run_compare` produces. A file compared with
      itself yields none, provided the float comparisons hold between a
      value and itself. */
  function Diffs(src: ParFile, inp: ParFile, fc: FloatCmp): (r: seq<Diff>)
    ensures src == inp && Reflexive(fc) ==> r == []
  {
    DiffsOfSelf(src, inp, fc);
    DiffsUpTo(src, inp, fc, MaxLists(src, inp))
  }

  // ---------------------------------------------------------------------
  // The loops of _cmp_run_compare
  // ---------------------------------------------------------------------

  /** The name index loop. */
  method BuildIndex(entries: seq<Entry>) returns (m: map<string, nat>)
    ensures m == IndexByName(entries, |entries|)
  {
    m := map[];
    var ei := 0;
    while ei < |entries|
      invariant 0 <= ei <= |entries| && m == IndexByName(entries, ei)
    {
      m := m[entries[ei].name := ei];
      ei := ei + 1;
    }
  }

  /** The loop over a list that only one side has. */
  method OneSidedRecords(kind: DiffKind, li: nat, entries: seq<Entry>) returns (recs: seq<Diff>)
    requires kind != Changed
    ensures recs == OneSided(kind, li, entries, |entries|)
  {
    recs := [];
    var ei := 0;
    while ei < |entries|
      invariant 0 <= ei <= |entries| && recs == OneSided(kind, li, entries, ei)
    {
      var e := entries[ei];
      if kind == InputOnly {
        recs := recs + [Diff(InputOnly, li, e.name, -1, -1, -1, li, ei)];
      } else {
        recs := recs + [Diff(SourceOnly, li, e.name, -1, li, ei, -1, -1)];
      }
      ei := ei + 1;
    }
  }

  /** The field loop for a name both lists have. */
  method FieldRecords(li: nat, name: string, sei: nat, se: Entry, iei: nat, ie: Entry, fc: FloatCmp)
    returns (recs: seq<Diff>)
    ensures recs == FieldDiffs(li, name, sei, se, iei, ie, fc, MaxLen(se, ie))
  {
    recs := [];
    var maxFields := MaxLen(se, ie);
    var fi := 0;
    while fi < maxFields
      invariant 0 <= fi <= maxFields && recs == FieldDiffs(li, name, sei, se, iei, ie, fc, fi)
    {
      if !(fi < |se.fields| && fi < |ie.fields| && FieldsEqual(se.fields[fi], ie.fields[fi], fc)) {
        recs := recs + [Diff(Changed, li, name, fi, li, sei, li, iei)];
      }
      fi := fi + 1;
    }
  }

  /** The name loop for two lists both sides have. */
  method MatchedRecords(li: nat, srcs: seq<Entry>, inps: seq<Entry>, fc: FloatCmp) returns (recs: seq<Diff>)
    ensures recs == MatchedDiffs(li, srcs, inps, fc)
  {
    var sIdx := BuildIndex(srcs);
    var iIdx := BuildIndex(inps);
    var names := AllNames(srcs, inps);
    recs := [];
    assert NamesDiffs(li, names, srcs, inps, fc, 0) == NamesDiffsNext(li, names, srcs, inps, fc, 0);
    var k := 0;
    while k < |names|
      invariant 0 <= k <= |names| && recs == NamesDiffs(li, names, srcs, inps, fc, k)
    {
      var name := names[k];
      var inSrc, inInp := name in sIdx, name in iIdx;
      if inSrc && !inInp {
        recs := recs + [Diff(SourceOnly, li, name, -1, li, sIdx[name], -1, -1)];
      } else if inInp && !inSrc {
        recs := recs + [Diff(InputOnly, li, name, -1, -1, -1, li, iIdx[name])];
      } else if inSrc && inInp {
        var fields := FieldRecords(li, name, sIdx[name], srcs[sIdx[name]], iIdx[name], inps[iIdx[name]], fc);
        recs := recs + fields;
      }
      assert NamesDiffs(li, names, srcs, inps, fc, k + 1) == NamesDiffsNext(li, names, srcs, inps, fc, k + 1);
      k := k + 1;
    }
  }

  /** The body of the list loop: one list index. */
  method ListRecords(src: ParFile, inp: ParFile, li: nat, fc: FloatCmp) returns (recs: seq<Diff>)
    requires li < |src.lists| || li < |inp.lists|
    ensures recs == ListDiffs(src, inp, li, fc)
  {
    if li >= |src.lists| {
      recs := OneSidedRecords(InputOnly, li, inp.lists[li].entries);
    } else if li >= |inp.lists| {
      recs := OneSidedRecords(SourceOnly, li, src.lists[li].entries);
    } else {
      recs := MatchedRecords(li, src.lists[li].entries, inp.lists[li].entries, fc);
    }
  }

  /** The list loop of _cmp_run_compare. */
  method CompareFiles(src: ParFile, inp: ParFile, fc: FloatCmp) returns (recs: seq<Diff>)
    ensures recs == Diffs(src, inp, fc)
  {
    recs := [];
    assert DiffsUpTo(src, inp, fc, 0) == DiffsUpToNext(src, inp, fc, 0);
    var maxLists := MaxLists(src, inp);
    var li := 0;
    while li < maxLists
      invariant 0 <= li <= maxLists && recs == DiffsUpTo(src, inp, fc, li)
    {
      var more := ListRecords(src, inp, li, fc);
      recs := recs + more;
      assert DiffsUpTo(src, inp, fc, li + 1) == DiffsUpToNext(src, inp, fc, li + 1);
      li := li + 1;
    }
  }

  // ---------------------------------------------------------------------
  // A file compared with itself
  // ---------------------------------------------------------------------

  lemma {:induction false} FieldDiffsSelf(li: nat, name: string, k: nat, e: Entry, fc: FloatCmp, n: nat)
    requires Reflexive(fc) && n <= |e.fields|
    ensures |FieldDiffs(li, name, k, e, k, e, fc, n)| == 0
  {
    if n > 0 {
      FieldDiffsSelf(li, name, k, e, fc, n - 1);
      FieldsEqualReflexive(e.fields[n - 1], fc);
    }
  }

  lemma NameDiffsSelf(li: nat, name: string, es: seq<Entry>, fc: FloatCmp)
    requires Reflexive(fc) && name in IndexByName(es, |es|)
    ensures |NameDiffs(li, name, es, es, fc)| == 0
  {
    var idx := IndexByName(es, |es|);
    IndexByNameSpec(es, |es|);
    var e := es[idx[name]];
    FieldDiffsSelf(li, name, idx[name], e, fc, |e.fields|);
  }

  lemma {:induction false} NamesDiffsSelf(li: nat, names: seq<string>, es: seq<Entry>, fc: FloatCmp, n: nat)
    requires Reflexive(fc) && n <= |names|
    requires forall k :: 0 <= k < |names| ==> names[k] in IndexByName(es, |es|)
    ensures |NamesDiffs(li, names, es, es, fc, n)| == 0
  {
    if n > 0 {
      NamesDiffsSelf(li, names, es, fc, n - 1);
      NameDiffsSelf(li, names[n - 1], es, fc);
    }
    assert NamesDiffs(li, names, es, es, fc, n) == NamesDiffsNext(li, names, es, es, fc, n);
  }

  lemma AllNamesIndexed(es: seq<Entry>)
    ensures var names := AllNames(es, es);
            forall k :: 0 <= k < |names| ==> names[k] in IndexByName(es, |es|)
  {
    var names := AllNames(es, es);
    IndexByNameSpec(es, |es|);
    SortedUniqueSpec(Names(es) + Names(es));
    forall k | 0 <= k < |names|
      ensures names[k] in IndexByName(es, |es|)
    {
      assert names[k] in Names(es) + Names(es);
      var i :| 0 <= i < |es| && Names(es)[i] == names[k];
    }
  }

  lemma ListSelf(f: ParFile, li: nat, fc: FloatCmp)
    requires Reflexive(fc) && li < |f.lists|
    ensures |ListDiffs(f, f, li, fc)| == 0
  {
    var es := f.lists[li].entries;
    AllNamesIndexed(es);
    NamesDiffsSelf(li, AllNames(es, es), es, fc, |AllNames(es, es)|);
  }

  lemma {:induction false} DiffsUpToSelf(f: ParFile, fc: FloatCmp, n: nat)
    requires Reflexive(fc) && n <= |f.lists|
    ensures |DiffsUpTo(f, f, fc, n)| == 0
  {
    if n > 0 {
      DiffsUpToSelf(f, fc, n - 1);
      ListSelf(f, n - 1, fc);
    }
    assert DiffsUpTo(f, f, fc, n) == DiffsUpToNext(f, f, fc, n);
  }

  lemma DiffsOfSelf(src: ParFile, inp: ParFile, fc: FloatCmp)
    ensures src == inp && Reflexive(fc) ==> |DiffsUpTo(src, inp, fc, MaxLists(src, inp))| == 0
  {
    if src == inp && Reflexive(fc) {
      DiffsUpToSelf(src, fc, |src.lists|);
    }
  }

  // ---------------------------------------------------------------------
  // What every record means
  // ---------------------------------------------------------------------

  predicate HasName(entries: seq<Entry>, name: string)
  {
    exists i :: 0 <= i < |entries| && entries[i].name == name
  }

  /** `i` is the last entry of `entries` with its name: the one the name
      index keeps. */
  predicate LastWithName(entries: seq<Entry>, i: int)
  {
    0 <= i < |entries| && forall j :: i < j < |entries| ==> entries[j].name != entries[i].name
  }

  /** A changed record points at the same list on both sides, at the last
      entry of its name on each side, and at a field that one of the two
      entries lacks or that differs between them. */
  predicate SoundChanged(src: ParFile, inp: ParFile, fc: FloatCmp, r: Diff)
  {
    var li := r.listIdx;
    && r.srcLi == li && r.inpLi == li
    && li < |src.lists| && li < |inp.lists|
    && LastWithName(src.lists[li].entries, r.srcEi)
    && LastWithName(inp.lists[li].entries, r.inpEi)
    && src.lists[li].entries[r.srcEi].name == r.entryName
    && inp.lists[li].entries[r.inpEi].name == r.entryName
    && var se, ie := src.lists[li].entries[r.srcEi], inp.lists[li].entries[r.inpEi];
       && 0 <= r.fieldIdx < MaxLen(se, ie)
       && !(r.fieldIdx < |se.fields| && r.fieldIdx < |ie.fields| &&
            FieldsEqual(se.fields[r.fieldIdx], ie.fields[r.fieldIdx], fc))
  }

  /** An input-only record points at an entry of the input only; when the
      source has that list, it is the last entry of its name and the
      source list has no entry of that name. */
  predicate SoundInputOnly(src: ParFile, inp: ParFile, r: Diff)
  {
    var li := r.listIdx;
    && r.fieldIdx == -1 && r.srcLi == -1 && r.srcEi == -1 && r.inpLi == li
    && li < |inp.lists|
    && 0 <= r.inpEi < |inp.lists[li].entries|
    && inp.lists[li].entries[r.inpEi].name == r.entryName
    && (li < |src.lists| ==>
          LastWithName(inp.lists[li].entries, r.inpEi) && !HasName(src.lists[li].entries, r.entryName))
  }

  /** The mirror image of `SoundInputOnly`. */
  predicate SoundSourceOnly(src: ParFile, inp: ParFile, r: Diff)
  {
    var li := r.listIdx;
    && r.fieldIdx == -1 && r.inpLi == -1 && r.inpEi == -1 && r.srcLi == li
    && li < |src.lists|
    && 0 <= r.srcEi < |src.lists[li].entries|
    && src.lists[li].entries[r.srcEi].name == r.entryName
    && (li < |inp.lists| ==>
          LastWithName(src.lists[li].entries, r.srcEi) && !HasName(inp.lists[li].entries, r.entryName))
  }

  predicate Sound(src: ParFile, inp: ParFile, fc: FloatCmp, r: Diff)
  {
    match r.kind
    case Changed => SoundChanged(src, inp, fc, r)
    case InputOnly => SoundInputOnly(src, inp, r)
    case SourceOnly => SoundSourceOnly(src, inp, r)
  }

  /** What the name index says about the entries it was built from. */
  lemma IndexLookup(entries: seq<Entry>, name: string)
    ensures var m := IndexByName(entries, |entries|);
            && (name in m ==> LastWithName(entries, m[name]) && entries[m[name]].name == name)
            && (name in m <==> HasName(entries, name))
  {
    var m := IndexByName(entries, |entries|);
    IndexByNameSpec(entries, |entries|);
    if name in m {
      forall j | m[name] < j < |entries|
        ensures entries[j].name != name
      {
        assert j <= m[entries[j].name];
      }
    }
    if HasName(entries, name) {
      var i :| 0 <= i < |entries| && entries[i].name == name;
    }
  }

  /** The index keeps exactly the last entry of each name. */
  lemma IndexOfLast(entries: seq<Entry>, i: nat)
    requires LastWithName(entries, i)
    ensures var m := IndexByName(entries, |entries|);
            entries[i].name in m && m[entries[i].name] == i
  {
    IndexByNameSpec(entries, |entries|);
  }

  lemma {:induction false} FieldDiffsShape(li: nat, name: string, sei: nat, se: Entry, iei: nat, ie: Entry, fc: FloatCmp, n: nat)
    ensures forall r :: r in FieldDiffs(li, name, sei, se, iei, ie, fc, n) ==>
              && r == Diff(Changed, li, name, r.fieldIdx, li, sei, li, iei)
              && 0 <= r.fieldIdx < n
              && !(r.fieldIdx < |se.fields| && r.fieldIdx < |ie.fields| &&
                   FieldsEqual(se.fields[r.fieldIdx], ie.fields[r.fieldIdx], fc))
  {
    if n > 0 {
      FieldDiffsShape(li, name, sei, se, iei, ie, fc, n - 1);
    }
  }

  lemma {:induction false} OneSidedShape(kind: DiffKind, li: nat, entries: seq<Entry>, n: nat)
    requires kind != Changed && n <= |entries|
    ensures var recs := OneSided(kind, li, entries, n);
            forall i :: 0 <= i < n ==>
              recs[i] == if kind == InputOnly then Diff(InputOnly, li, entries[i].name, -1, -1, -1, li, i)
                         else Diff(SourceOnly, li, entries[i].name, -1, li, i, -1, -1)
  {
    if n > 0 {
      OneSidedShape(kind, li, entries, n - 1);
    }
  }

  lemma NameDiffsSound(src: ParFile, inp: ParFile, fc: FloatCmp, li: nat, name: string)
    requires li < |src.lists| && li < |inp.lists|
    ensures forall r :: r in NameDiffs(li, name, src.lists[li].entries, inp.lists[li].entries, fc) ==>
              Sound(src, inp, fc, r) && r.listIdx == li && r.entryName == name
  {
    var srcs, inps := src.lists[li].entries, inp.lists[li].entries;
    var sIdx, iIdx := IndexByName(srcs, |srcs|), IndexByName(inps, |inps|);
    IndexLookup(srcs, name);
    IndexLookup(inps, name);
    if name in sIdx && name in iIdx {
      var se, ie := srcs[sIdx[name]], inps[iIdx[name]];
      FieldDiffsShape(li, name, sIdx[name], se, iIdx[name], ie, fc, MaxLen(se, ie));
    }
  }

  lemma {:induction false} NamesDiffsSound(src: ParFile, inp: ParFile, fc: FloatCmp, li: nat, names: seq<string>, n: nat)
    requires li < |src.lists| && li < |inp.lists| && n <= |names|
    ensures forall r :: r in NamesDiffs(li, names, src.lists[li].entries, inp.lists[li].entries, fc, n) ==>
              Sound(src, inp, fc, r) && r.listIdx == li
  {
    var srcs, inps := src.lists[li].entries, inp.lists[li].entries;
    assert NamesDiffs(li, names, srcs, inps, fc, n) == NamesDiffsNext(li, names, srcs, inps, fc, n);
    if n > 0 {
      NamesDiffsSound(src, inp, fc, li, names, n - 1);
      NameDiffsSound(src, inp, fc, li, names[n - 1]);
    }
  }

  lemma ListDiffsSound(src: ParFile, inp: ParFile, fc: FloatCmp, li: nat)
    requires li < |src.lists| || li < |inp.lists|
    ensures forall r :: r in ListDiffs(src, inp, li, fc) ==> Sound(src, inp, fc, r) && r.listIdx == li
  {
    if li >= |src.lists| {
      var es := inp.lists[li].entries;
      OneSidedShape(InputOnly, li, es, |es|);
    } else if li >= |inp.lists| {
      var es := src.lists[li].entries;
      OneSidedShape(SourceOnly, li, es, |es|);
    } else {
      var names := AllNames(src.lists[li].entries, inp.lists[li].entries);
      NamesDiffsSound(src, inp, fc, li, names, |names|);
    }
  }

  lemma {:induction false} DiffsUpToSound(src: ParFile, inp: ParFile, fc: FloatCmp, n: nat)
    requires n <= MaxLists(src, inp)
    ensures forall r :: r in DiffsUpTo(src, inp, fc, n) ==> Sound(src, inp, fc, r) && r.listIdx < n
  {
    assert DiffsUpTo(src, inp, fc, n) == DiffsUpToNext(src, inp, fc, n);
    if n > 0 {
      DiffsUpToSound(src, inp, fc, n - 1);
      ListDiffsSound(src, inp, fc, n - 1);
    }
  }

  /** Every record the comparison produces describes a real difference
      between the two files, with coordinates that are valid in them. */
  lemma DiffsSound(src: ParFile, inp: ParFile, fc: FloatCmp)
    ensures forall r :: r in Diffs(src, inp, fc) ==> Sound(src, inp, fc, r)
  {
    DiffsUpToSound(src, inp, fc, MaxLists(src, inp));
  }

  // ---------------------------------------------------------------------
  // Every difference is reported
  // ---------------------------------------------------------------------

  lemma {:induction false} FieldDiffsHas(li: nat, name: string, sei: nat, se: Entry, iei: nat, ie: Entry, fc: FloatCmp, fi: nat, n: nat)
    requires fi < n
    requires !(fi < |se.fields| && fi < |ie.fields| && FieldsEqual(se.fields[fi], ie.fields[fi], fc))
    ensures Diff(Changed, li, name, fi, li, sei, li, iei) in FieldDiffs(li, name, sei, se, iei, ie, fc, n)
  {
    if fi < n - 1 {
      FieldDiffsHas(li, name, sei, se, iei, ie, fc, fi, n - 1);
    }
  }

  lemma {:induction false} OneSidedHas(kind: DiffKind, li: nat, entries: seq<Entry>, i: nat)
    requires kind != Changed && i < |entries|
    ensures (if kind == InputOnly then Diff(InputOnly, li, entries[i].name, -1, -1, -1, li, i)
             else Diff(SourceOnly, li, entries[i].name, -1, li, i, -1, -1))
            in OneSided(kind, li, entries, |entries|)
  {
    OneSidedShape(kind, li, entries, |entries|);
    var recs := OneSided(kind, li, entries, |entries|);
    assert recs[i] in recs;
  }

  lemma {:induction false} NamesDiffsHas(li: nat, names: seq<string>, srcs: seq<Entry>, inps: seq<Entry>, fc: FloatCmp, k: nat, n: nat, r: Diff)
    requires k < n <= |names| && r in NameDiffs(li, names[k], srcs, inps, fc)
    ensures r in NamesDiffs(li, names, srcs, inps, fc, n)
  {
    assert NamesDiffs(li, names, srcs, inps, fc, n) == NamesDiffsNext(li, names, srcs, inps, fc, n);
    if k < n - 1 {
      NamesDiffsHas(li, names, srcs, inps, fc, k, n - 1, r);
    }
  }

  lemma MatchedHas(li: nat, srcs: seq<Entry>, inps: seq<Entry>, fc: FloatCmp, name: string, r: Diff)
    requires HasName(srcs, name) || HasName(inps, name)
    requires r in NameDiffs(li, name, srcs, inps, fc)
    ensures r in MatchedDiffs(li, srcs, inps, fc)
  {
    var all := Names(srcs) + Names(inps);
    if HasName(srcs, name) {
      var i :| 0 <= i < |srcs| && srcs[i].name == name;
      assert all[i] == name;
    } else {
      var i :| 0 <= i < |inps| && inps[i].name == name;
      assert all[|srcs| + i] == name;
    }
    assert name in all;
    SortedUniqueSpec(all);
    var names := AllNames(srcs, inps);
    assert name in names;
    var k :| 0 <= k < |names| && names[k] == name;
    NamesDiffsHas(li, names, srcs, inps, fc, k, |names|, r);
  }

  lemma {:induction false} DiffsUpToHas(src: ParFile, inp: ParFile, fc: FloatCmp, li: nat, n: nat, r: Diff)
    requires li < n <= MaxLists(src, inp) && r in ListDiffs(src, inp, li, fc)
    ensures r in DiffsUpTo(src, inp, fc, n)
  {
    var prev, last := DiffsUpTo(src, inp, fc, n - 1), ListDiffs(src, inp, n - 1, fc);
    assert DiffsUpTo(src, inp, fc, n) == DiffsUpToNext(src, inp, fc, n) == prev + last;
    if li < n - 1 {
      DiffsUpToHas(src, inp, fc, li, n - 1, r);
      assert r in prev;
    } else {
      assert r in last;
    }
  }

  lemma ChangedComplete(src: ParFile, inp: ParFile, fc: FloatCmp, r: Diff)
    requires r.kind == Changed && SoundChanged(src, inp, fc, r)
    ensures r in Diffs(src, inp, fc)
  {
    var li := r.listIdx;
    var srcs, inps := src.lists[li].entries, inp.lists[li].entries;
    IndexOfLast(srcs, r.srcEi);
    IndexOfLast(inps, r.inpEi);
    var se, ie := srcs[r.srcEi], inps[r.inpEi];
    FieldDiffsHas(li, r.entryName, r.srcEi, se, r.inpEi, ie, fc, r.fieldIdx, MaxLen(se, ie));
    assert HasName(srcs, r.entryName);
    MatchedHas(li, srcs, inps, fc, r.entryName, r);
    DiffsUpToHas(src, inp, fc, li, MaxLists(src, inp), r);
  }

  lemma InputOnlyComplete(src: ParFile, inp: ParFile, fc: FloatCmp, r: Diff)
    requires r.kind == InputOnly && SoundInputOnly(src, inp, r)
    ensures r in Diffs(src, inp, fc)
  {
    var li := r.listIdx;
    var inps := inp.lists[li].entries;
    if li >= |src.lists| {
      OneSidedHas(InputOnly, li, inps, r.inpEi);
    } else {
      var srcs := src.lists[li].entries;
      IndexOfLast(inps, r.inpEi);
      IndexLookup(srcs, r.entryName);
      assert HasName(inps, r.entryName);
      MatchedHas(li, srcs, inps, fc, r.entryName, r);
    }
    DiffsUpToHas(src, inp, fc, li, MaxLists(src, inp), r);
  }

  lemma SourceOnlyComplete(src: ParFile, inp: ParFile, fc: FloatCmp, r: Diff)
    requires r.kind == SourceOnly && SoundSourceOnly(src, inp, r)
    ensures r in Diffs(src, inp, fc)
  {
    var li := r.listIdx;
    var srcs := src.lists[li].entries;
    if li >= |inp.lists| {
      OneSidedHas(SourceOnly, li, srcs, r.srcEi);
    } else {
      var inps := inp.lists[li].entries;
      IndexOfLast(srcs, r.srcEi);
      IndexLookup(inps, r.entryName);
      assert HasName(srcs, r.entryName);
      MatchedHas(li, srcs, inps, fc, r.entryName, r);
    }
    DiffsUpToHas(src, inp, fc, li, MaxLists(src, inp), r);
  }

  /** The comparison reports exactly the differences `Sound` describes:
      every record is one, and every one is a record. */
  lemma DiffsExact(src: ParFile, inp: ParFile, fc: FloatCmp, r: Diff)
    ensures r in Diffs(src, inp, fc) <==> Sound(src, inp, fc, r)
  {
    DiffsSound(src, inp, fc);
    match r.kind
    case Changed =>
      if SoundChanged(src, inp, fc, r) {
        ChangedComplete(src, inp, fc, r);
      }
    case InputOnly =>
      if SoundInputOnly(src, inp, r) {
        InputOnlyComplete(src, inp, fc, r);
      }
    case SourceOnly =>
      if SoundSourceOnly(src, inp, r) {
        SourceOnlyComplete(src, inp, fc, r);
      }
  }

  // ---------------------------------------------------------------------
  // Record order
  // ---------------------------------------------------------------------

  /** Records come list by list... */
  predicate InListOrder(recs: seq<Diff>)
  {
    forall i, j :: 0 <= i < j < |recs| ==> recs[i].listIdx <= recs[j].listIdx
  }

  /** ...and, within two matched lists, name by name in sorted order. */
  predicate InNameOrder(recs: seq<Diff>)
  {
    forall i, j :: 0 <= i < j < |recs| ==>
      recs[i].entryName == recs[j].entryName || StrLess(recs[i].entryName, recs[j].entryName)
  }

  lemma NameDiffsNamed(li: nat, name: string, srcs: seq<Entry>, inps: seq<Entry>, fc: FloatCmp)
    ensures forall r :: r in NameDiffs(li, name, srcs, inps, fc) ==> r.entryName == name
  {
    var sIdx, iIdx := IndexByName(srcs, |srcs|), IndexByName(inps, |inps|);
    if name in sIdx && name in iIdx {
      var se, ie := srcs[sIdx[name]], inps[iIdx[name]];
      FieldDiffsShape(li, name, sIdx[name], se, iIdx[name], ie, fc, MaxLen(se, ie));
    }
  }

  lemma {:induction false} NamesDiffsOrdered(li: nat, names: seq<string>, srcs: seq<Entry>, inps: seq<Entry>, fc: FloatCmp, n: nat)
    requires StrictlySorted(names) && n <= |names|
    ensures InNameOrder(NamesDiffs(li, names, srcs, inps, fc, n))
    ensures forall r :: r in NamesDiffs(li, names, srcs, inps, fc, n) ==> r.entryName in names[..n]
  {
    assert NamesDiffs(li, names, srcs, inps, fc, n) == NamesDiffsNext(li, names, srcs, inps, fc, n);
    if n > 0 {
      var prev, last := NamesDiffs(li, names, srcs, inps, fc, n - 1), NameDiffs(li, names[n - 1], srcs, inps, fc);
      var recs := prev + last;
      assert NamesDiffs(li, names, srcs, inps, fc, n) == recs;
      NamesDiffsOrdered(li, names, srcs, inps, fc, n - 1);
      NameDiffsNamed(li, names[n - 1], srcs, inps, fc);
      forall i, j | 0 <= i < j < |recs|
        ensures recs[i].entryName == recs[j].entryName || StrLess(recs[i].entryName, recs[j].entryName)
      {
        if j < |prev| {
          assert recs[i] == prev[i] && recs[j] == prev[j];
        } else if i >= |prev| {
          assert recs[i] == last[i - |prev|] && recs[j] == last[j - |prev|];
        } else {
          assert recs[i] == prev[i] && recs[j] == last[j - |prev|];
          assert prev[i] in prev;
          var k :| 0 <= k < n - 1 && names[..n - 1][k] == recs[i].entryName;
          assert names[k] == recs[i].entryName;
        }
      }
      forall r | r in recs
        ensures r.entryName in names[..n]
      {
        if r in prev {
          var k :| 0 <= k < n - 1 && names[..n - 1][k] == r.entryName;
          assert names[..n][k] == r.entryName;
        } else {
          assert names[..n][n - 1] == r.entryName;
        }
      }
    }
  }

  /** The records of two matched lists are in name order. */
  lemma MatchedOrdered(li: nat, srcs: seq<Entry>, inps: seq<Entry>, fc: FloatCmp)
    ensures InNameOrder(MatchedDiffs(li, srcs, inps, fc))
  {
    var names := AllNames(srcs, inps);
    SortedUniqueSpec(Names(srcs) + Names(inps));
    NamesDiffsOrdered(li, names, srcs, inps, fc, |names|);
  }

  lemma {:induction false} DiffsUpToOrdered(src: ParFile, inp: ParFile, fc: FloatCmp, n: nat)
    requires n <= MaxLists(src, inp)
    ensures InListOrder(DiffsUpTo(src, inp, fc, n))
    ensures forall r :: r in DiffsUpTo(src, inp, fc, n) ==> r.listIdx < n
  {
    assert DiffsUpTo(src, inp, fc, n) == DiffsUpToNext(src, inp, fc, n);
    if n > 0 {
      var prev, last := DiffsUpTo(src, inp, fc, n - 1), ListDiffs(src, inp, n - 1, fc);
      assert DiffsUpTo(src, inp, fc, n) == prev + last;
      DiffsUpToOrdered(src, inp, fc, n - 1);
      ListDiffsSound(src, inp, fc, n - 1);
      AppendListInOrder(prev, last, n - 1);
    }
  }

  /** The records of one list, appended after those of the lists before
      it, keep the list order. */
  lemma AppendListInOrder(prev: seq<Diff>, last: seq<Diff>, li: nat)
    requires InListOrder(prev) && forall r :: r in prev ==> r.listIdx < li
    requires forall r :: r in last ==> r.listIdx == li
    ensures InListOrder(prev + last)
    ensures forall r :: r in prev + last ==> r.listIdx <= li
  {
    var recs := prev + last;
    forall i, j | 0 <= i < j < |recs|
      ensures recs[i].listIdx <= recs[j].listIdx
    {
      if j < |prev| {
        assert recs[i] == prev[i] && recs[j] == prev[j];
      } else if i >= |prev| {
        assert recs[i] == last[i - |prev|] && recs[j] == last[j - |prev|];
        assert recs[i] in last && recs[j] in last;
      } else {
        assert recs[i] == prev[i] && recs[j] == last[j - |prev|];
        assert recs[i] in prev && recs[j] in last;
      }
    }
  }

  /** Records come in list order, as the list loop produces them. */
  lemma DiffsOrdered(src: ParFile, inp: ParFile, fc: FloatCmp)
    ensures InListOrder(Diffs(src, inp, fc))
  {
    DiffsUpToOrdered(src, inp, fc, MaxLists(src, inp));
  }
}
