/** The merge of the compare tab: the selected records are applied, in
    order, to the source file. A changed record copies one field of the
    input entry over the source entry's field; an input-only record copies
    the whole input entry into the source list, unless that list already
    has an entry of that name. Source-only records are never applied. */
module ParMerge {
  import opened Wire
  import opened ParModel
  import opened ParCompare

  // ---------------------------------------------------------------------
  // Padding
  // ---------------------------------------------------------------------

  /** Python's reading of index `i` into a list of length `len`: a
      negative index counts from the end. Python raises IndexError exactly
      when the result is outside `0..len-1`. */
  function PyIndex(len: nat, i: int): int
  {
    if i < 0 then len + i else i
  }

  /** `while len(fields) <= fi: fields.append(ParField(0, 0))`. */
  function PadFields(fields: seq<Field>, fi: int): (r: seq<Field>)
    ensures |r| == if fi < |fields| then |fields| else fi + 1
    ensures fi < |r| && r[..|fields|] == fields
    ensures forall k :: |fields| <= k < |r| ==> r[k] == ZERO_FIELD
  {
    if fi < |fields| then fields else fields + seq(fi + 1 - |fields|, _ => ZERO_FIELD)
  }

  /** `while len(src.lists) <= ili: src.lists.append(ParList())`. */
  function PadLists(lists: seq<ParList>, li: nat): (r: seq<ParList>)
    ensures |r| == if li < |lists| then |lists| else li + 1
    ensures li < |r| && r[..|lists|] == lists
    ensures forall k :: |lists| <= k < |r| ==> r[k] == EMPTY_LIST
  {
    if li < |lists| then lists else lists + seq(li + 1 - |lists|, _ => EMPTY_LIST)
  }

  /** The field padding loop. */
  method PadFieldsLoop(fields: seq<Field>, fi: int) returns (r: seq<Field>)
    ensures r == PadFields(fields, fi)
  {
    r := fields;
    while |r| <= fi
      invariant r[..|fields|] == fields
      invariant |fields| <= |r| && (|r| > |fields| ==> |r| <= fi + 1)
      invariant forall k :: |fields| <= k < |r| ==> r[k] == ZERO_FIELD
      decreases fi - |r|
    {
      r := r + [ZERO_FIELD];
    }
  }

  /** The list padding loop. */
  method PadListsLoop(lists: seq<ParList>, li: nat) returns (r: seq<ParList>)
    ensures r == PadLists(lists, li)
  {
    r := lists;
    while |r| <= li
      invariant r[..|lists|] == lists
      invariant |lists| <= |r| && (|r| > |lists| ==> |r| <= li + 1)
      invariant forall k :: |lists| <= k < |r| ==> r[k] == EMPTY_LIST
      decreases li - |r|
    {
      r := r + [EMPTY_LIST];
    }
  }

  // ---------------------------------------------------------------------
  // One record
  // ---------------------------------------------------------------------

  /** Entry `ei` of list `li` replaced by `e`. */
  function SetEntry(par: ParFile, li: nat, ei: nat, e: Entry): ParFile
    requires li < |par.lists| && ei < |par.lists[li].entries|
  {
    var pl := par.lists[li];
    par.(lists := par.lists[li := pl.(entries := pl.entries[ei := e])])
  }

  /** The guards of the changed branch: both entries exist and the input
      entry has field `fieldIdx`. */
  predicate ChangedApplies(src: ParFile, inp: ParFile, d: Diff)
  {
    && 0 <= d.srcLi < |src.lists| && 0 <= d.srcEi < |src.lists[d.srcLi].entries|
    && 0 <= d.inpLi < |inp.lists| && 0 <= d.inpEi < |inp.lists[d.inpLi].entries|
    && d.fieldIdx < |inp.lists[d.inpLi].entries[d.inpEi].fields|
  }

  /** The changed branch. The result is the new source and whether
      `changed_count` rises, or None when Python raises IndexError (only
      for a negative field index that reaches past the start of a list). */
  function ApplyChanged(src: ParFile, inp: ParFile, d: Diff): Option<(ParFile, bool)>
  {
    if !ChangedApplies(src, inp, d) then Some((src, false))
    else
      var se, ie := src.lists[d.srcLi].entries[d.srcEi], inp.lists[d.inpLi].entries[d.inpEi];
      var padded := PadFields(se.fields, d.fieldIdx);
      var ri, wi := PyIndex(|ie.fields|, d.fieldIdx), PyIndex(|padded|, d.fieldIdx);
      if ri < 0 || wi < 0 then None
      else Some((SetEntry(src, d.srcLi, d.srcEi, se.(fields := padded[wi := ie.fields[ri]])), true))
  }

  /** The guards of the input-only branch. */
  predicate InputOnlyApplies(inp: ParFile, d: Diff)
  {
    d.inpLi >= 0 && d.inpEi >= 0 && d.inpLi < |inp.lists|
  }

  /** The input-only branch. The entry index is not checked against the
      input list, so one past its end raises IndexError (None). */
  function ApplyInputOnly(src: ParFile, inp: ParFile, d: Diff): Option<(ParFile, bool)>
  {
    if !InputOnlyApplies(inp, d) then Some((src, false))
    else if d.inpEi >= |inp.lists[d.inpLi].entries| then None
    else
      var ie := inp.lists[d.inpLi].entries[d.inpEi];
      var lists := PadLists(src.lists, d.inpLi);
      var target := lists[d.inpLi];
      if HasName(target.entries, ie.name) then Some((src.(lists := lists), false))
      else Some((src.(lists := lists[d.inpLi := target.(entries := target.entries + [ie])]), true))
  }

  /** One selected record; a source-only record has no branch. */
  function Apply(src: ParFile, inp: ParFile, d: Diff): (r: Option<(ParFile, bool)>)
    ensures d.kind == SourceOnly ==> r == Some((src, false))
  {
    match d.kind
    case Changed => ApplyChanged(src, inp, d)
    case InputOnly => ApplyInputOnly(src, inp, d)
    case SourceOnly => Some((src, false))
  }

  /** The record loop's body: the changed branch with its padding loop, or
      the input-only branch with its padding loop. */
  method ApplyRecord(src: ParFile, inp: ParFile, d: Diff) returns (r: Option<(ParFile, bool)>)
    ensures r == Apply(src, inp, d)
  {
    r := Some((src, false));
    if d.kind == Changed {
      if !ChangedApplies(src, inp, d) {
        return;
      }
      var se, ie := src.lists[d.srcLi].entries[d.srcEi], inp.lists[d.inpLi].entries[d.inpEi];
      var fields := PadFieldsLoop(se.fields, d.fieldIdx);
      var ri, wi := PyIndex(|ie.fields|, d.fieldIdx), PyIndex(|fields|, d.fieldIdx);
      if ri < 0 || wi < 0 {
        return None;
      }
      fields := fields[wi := ie.fields[ri]];
      r := Some((SetEntry(src, d.srcLi, d.srcEi, se.(fields := fields)), true));
    } else if d.kind == InputOnly {
      if !InputOnlyApplies(inp, d) {
        return;
      }
      if d.inpEi >= |inp.lists[d.inpLi].entries| {
        return None;
      }
      var ie := inp.lists[d.inpLi].entries[d.inpEi];
      var lists := PadListsLoop(src.lists, d.inpLi);
      var target := lists[d.inpLi];
      var taken := false;
      var k := 0;
      while k < |target.entries|
        invariant 0 <= k <= |target.entries|
        invariant taken <==> exists j :: 0 <= j < k && target.entries[j].name == ie.name
      {
        if target.entries[k].name == ie.name {
          taken := true;
        }
        k := k + 1;
      }
      if taken {
        r := Some((src.(lists := lists), false));
      } else {
        r := Some((src.(lists := lists[d.inpLi := target.(entries := target.entries + [ie])]), true));
      }
    }
  }

  // ---------------------------------------------------------------------
  // The record loop
  // ---------------------------------------------------------------------

  /** Where the loop stands: the source so far, the two counters, and
      whether a record raised (which ends the loop with the records before
      it applied). */
  datatype Outcome = Outcome(par: ParFile, changed: nat, added: nat, failed: bool)

  /** The first `n` records applied to `src`. */
  function MergeUpTo(src: ParFile, inp: ParFile, recs: seq<Diff>, n: nat): (o: Outcome)
    requires n <= |recs|
    ensures o.changed + o.added <= n
  {
    if n == 0 then Outcome(src, 0, 0, false)
    else
      var prev := MergeUpTo(src, inp, recs, n - 1);
      if prev.failed then prev
      else
        var d := recs[n - 1];
        match Apply(prev.par, inp, d)
        case None => prev.(failed := true)
        case Some((p, counted)) =>
          Outcome(p,
            prev.changed + (if counted && d.kind == Changed then 1 else 0),
            prev.added + (if counted && d.kind == InputOnly then 1 else 0),
            false)
  }

  function MergeAll(src: ParFile, inp: ParFile, recs: seq<Diff>): (o: Outcome)
    ensures o.changed + o.added <= |recs|
  {
    MergeUpTo(src, inp, recs, |recs|)
  }

  /** The apply loop of _cmp_merge over the selected records. */
  method MergeRecords(src: ParFile, inp: ParFile, recs: seq<Diff>) returns (o: Outcome)
    ensures o == MergeAll(src, inp, recs)
  {
    o := Outcome(src, 0, 0, false);
    var k := 0;
    while k < |recs|
      invariant 0 <= k <= |recs| && o == MergeUpTo(src, inp, recs, k) && !o.failed
    {
      var d := recs[k];
      var r := ApplyRecord(o.par, inp, d);
      if r.None? {
        o := o.(failed := true);
        FailureSticks(src, inp, recs, k + 1, |recs|);
        return;
      }
      var counted := r.value.1;
      o := Outcome(r.value.0,
        o.changed + (if counted && d.kind == Changed then 1 else 0),
        o.added + (if counted && d.kind == InputOnly then 1 else 0),
        false);
      k := k + 1;
    }
  }

  /** Once a record has raised, the later records change nothing. */
  lemma {:induction false} FailureSticks(src: ParFile, inp: ParFile, recs: seq<Diff>, k: nat, n: nat)
    requires k <= n <= |recs| && MergeUpTo(src, inp, recs, k).failed
    ensures MergeUpTo(src, inp, recs, n) == MergeUpTo(src, inp, recs, k)
  {
    if k < n {
      FailureSticks(src, inp, recs, k, n - 1);
    }
  }

  // ---------------------------------------------------------------------
  // What one record does
  // ---------------------------------------------------------------------

  /** `q` is `p` with field `w` of entry `ei` of list `li` set to `f`,
      the entry padded with zero fields up to `w` first; nothing else
      differs. */
  predicate OnlyFieldSet(p: ParFile, q: ParFile, li: nat, ei: nat, w: nat, f: Field)
    requires li < |p.lists| && ei < |p.lists[li].entries|
  {
    && q.(lists := p.lists) == p
    && |q.lists| == |p.lists|
    && (forall l :: 0 <= l < |p.lists| && l != li ==> q.lists[l] == p.lists[l])
    && q.lists[li].(entries := p.lists[li].entries) == p.lists[li]
    && |q.lists[li].entries| == |p.lists[li].entries|
    && (forall e :: 0 <= e < |p.lists[li].entries| && e != ei ==> q.lists[li].entries[e] == p.lists[li].entries[e])
    && var before, after := p.lists[li].entries[ei], q.lists[li].entries[ei];
       && after.(fields := before.fields) == before
       && |after.fields| == (if w < |before.fields| then |before.fields| else w + 1)
       && after.fields[w] == f
       && (forall k :: 0 <= k < |after.fields| && k != w ==>
             after.fields[k] == if k < |before.fields| then before.fields[k] else ZERO_FIELD)
  }

  /** A changed record whose guards fail changes nothing. Otherwise field
      `fieldIdx` of the source entry (counted from the end when negative)
      receives the input entry's field, the entry is padded first, nothing
      else changes and `changed_count` rises; a negative index that
      reaches past the start of either field list raises instead. */
  lemma ChangedEffect(src: ParFile, inp: ParFile, d: Diff)
    ensures !ChangedApplies(src, inp, d) ==> ApplyChanged(src, inp, d) == Some((src, false))
    ensures ChangedApplies(src, inp, d) ==>
      var se, ie := src.lists[d.srcLi].entries[d.srcEi], inp.lists[d.inpLi].entries[d.inpEi];
      var ri, wi := PyIndex(|ie.fields|, d.fieldIdx), PyIndex(|se.fields|, d.fieldIdx);
      && (ApplyChanged(src, inp, d).None? <==> ri < 0 || wi < 0)
      && (ApplyChanged(src, inp, d).Some? ==>
            && ApplyChanged(src, inp, d).value.1
            && OnlyFieldSet(src, ApplyChanged(src, inp, d).value.0, d.srcLi, d.srcEi, wi, ie.fields[ri]))
  {
    if ChangedApplies(src, inp, d) {
      var se, ie := src.lists[d.srcLi].entries[d.srcEi], inp.lists[d.inpLi].entries[d.inpEi];
      var padded := PadFields(se.fields, d.fieldIdx);
      assert PyIndex(|padded|, d.fieldIdx) == PyIndex(|se.fields|, d.fieldIdx);
    }
  }

  /** An input-only record whose guards fail changes nothing; one whose
      entry index is past the input list raises. Otherwise the source gets
      empty lists up to the target list, and the input entry is appended
      to the target list exactly when no entry there has its name, which
      is when `added_count` rises. Nothing else changes. */
  lemma InputOnlyEffect(src: ParFile, inp: ParFile, d: Diff)
    ensures !InputOnlyApplies(inp, d) ==> ApplyInputOnly(src, inp, d) == Some((src, false))
    ensures InputOnlyApplies(inp, d) ==>
      (ApplyInputOnly(src, inp, d).None? <==> d.inpEi >= |inp.lists[d.inpLi].entries|)
    ensures InputOnlyApplies(inp, d) && ApplyInputOnly(src, inp, d).Some? ==>
      var li, ie := d.inpLi, inp.lists[d.inpLi].entries[d.inpEi];
      var p, counted := ApplyInputOnly(src, inp, d).value.0, ApplyInputOnly(src, inp, d).value.1;
      var before := if li < |src.lists| then src.lists[li] else EMPTY_LIST;
      && p.(lists := src.lists) == src
      && |p.lists| == (if li < |src.lists| then |src.lists| else li + 1)
      && (forall l :: 0 <= l < |p.lists| && l != li ==>
            p.lists[l] == if l < |src.lists| then src.lists[l] else EMPTY_LIST)
      && p.lists[li].(entries := before.entries) == before
      && (counted <==> !HasName(before.entries, ie.name))
      && p.lists[li].entries == before.entries + (if counted then [ie] else [])
  {
  }

  /** Applying a record a second time leaves the source as the first
      application left it; an input-only record adds nothing the second
      time. */
  lemma ApplyTwice(src: ParFile, inp: ParFile, d: Diff)
    requires Apply(src, inp, d).Some?
    ensures var p := Apply(src, inp, d).value.0;
            && Apply(p, inp, d).Some? && Apply(p, inp, d).value.0 == p
            && (d.kind == InputOnly ==> !Apply(p, inp, d).value.1)
  {
    var p := Apply(src, inp, d).value.0;
    match d.kind
    case Changed =>
      ChangedEffect(src, inp, d);
      if ChangedApplies(src, inp, d) {
        var li, ei := d.srcLi, d.srcEi;
        var ie := inp.lists[d.inpLi].entries[d.inpEi];
        var se := src.lists[li].entries[ei];
        var w := PyIndex(|se.fields|, d.fieldIdx);
        var f := ie.fields[PyIndex(|ie.fields|, d.fieldIdx)];
        assert OnlyFieldSet(src, p, li, ei, w, f);
        var ne := p.lists[li].entries[ei];
        assert PadFields(ne.fields, d.fieldIdx) == ne.fields;
        assert PyIndex(|ne.fields|, d.fieldIdx) == w;
        assert ne.fields[w := f] == ne.fields;
        assert ne.(fields := ne.fields) == ne;
        assert p.lists[li].entries[ei := ne] == p.lists[li].entries;
        assert p.lists[li := p.lists[li].(entries := p.lists[li].entries)] == p.lists;
        assert SetEntry(p, li, ei, ne) == p;
      }
    case InputOnly =>
      InputOnlyEffect(src, inp, d);
      InputOnlyEffect(p, inp, d);
      if InputOnlyApplies(inp, d) {
        var ie := inp.lists[d.inpLi].entries[d.inpEi];
        var target := p.lists[d.inpLi].entries;
        var before := if d.inpLi < |src.lists| then src.lists[d.inpLi] else EMPTY_LIST;
        if !HasName(before.entries, ie.name) {
          assert target[|target| - 1] == ie;
        } else {
          var j :| 0 <= j < |before.entries| && before.entries[j].name == ie.name;
          assert target[j] == before.entries[j];
        }
        assert HasName(target, ie.name);
        assert PadLists(p.lists, d.inpLi) == p.lists;
      }
    case SourceOnly =>
  }

  /** Merging a record the comparison produced never raises. Afterwards
      a fresh comparison no longer reports it, unless it is a changed
      record for a field the input entry lacks, which the merge skips. */
  lemma MergeResolves(src: ParFile, inp: ParFile, fc: FloatCmp, d: Diff)
    requires Reflexive(fc) && d in Diffs(src, inp, fc) && d.kind != SourceOnly
    ensures Apply(src, inp, d).Some?
    ensures d.kind == Changed && !ChangedApplies(src, inp, d) ==> Apply(src, inp, d) == Some((src, false))
    ensures d.kind == InputOnly || ChangedApplies(src, inp, d) ==>
              d !in Diffs(Apply(src, inp, d).value.0, inp, fc)
  {
    DiffsExact(src, inp, fc, d);
    if d.kind == Changed {
      ChangedEffect(src, inp, d);
      if ChangedApplies(src, inp, d) {
        var p := Apply(src, inp, d).value.0;
        var li, fi := d.listIdx, d.fieldIdx;
        var ie := inp.lists[li].entries[d.inpEi];
        assert OnlyFieldSet(src, p, li, d.srcEi, fi, ie.fields[fi]);
        FieldsEqualReflexive(ie.fields[fi], fc);
        assert !SoundChanged(p, inp, fc, d);
        DiffsExact(p, inp, fc, d);
      }
    } else {
      InputOnlyEffect(src, inp, d);
      var p := Apply(src, inp, d).value.0;
      var li := d.listIdx;
      var ie := inp.lists[li].entries[d.inpEi];
      var target := p.lists[li].entries;
      var before := if li < |src.lists| then src.lists[li] else EMPTY_LIST;
      assert target[|target| - 1] == ie;
      DiffsExact(p, inp, fc, d);
    }
  }

  // ---------------------------------------------------------------------
  // Merging twice
  // ---------------------------------------------------------------------

  /** `q` has at least the lists and entries of `p`, with the same names at
      the same places: the merge only pads and appends. */
  predicate Grows(p: ParFile, q: ParFile)
  {
    && |p.lists| <= |q.lists|
    && forall l :: 0 <= l < |p.lists| ==>
         && |p.lists[l].entries| <= |q.lists[l].entries|
         && forall e :: 0 <= e < |p.lists[l].entries| ==> q.lists[l].entries[e].name == p.lists[l].entries[e].name
  }

  lemma GrowsTransitive(p: ParFile, q: ParFile, r: ParFile)
    requires Grows(p, q) && Grows(q, r)
    ensures Grows(p, r)
  {
  }

  lemma GrowsKeepsName(p: ParFile, q: ParFile, l: nat, name: string)
    requires Grows(p, q) && l < |p.lists| && HasName(p.lists[l].entries, name)
    ensures HasName(q.lists[l].entries, name)
  {
    var e :| 0 <= e < |p.lists[l].entries| && p.lists[l].entries[e].name == name;
    assert q.lists[l].entries[e].name == name;
  }

  /** No record removes or renames anything. */
  lemma ApplyGrows(p: ParFile, inp: ParFile, d: Diff)
    requires Apply(p, inp, d).Some?
    ensures Grows(p, Apply(p, inp, d).value.0)
  {
    var q := Apply(p, inp, d).value.0;
    match d.kind
    case Changed =>
      ChangedEffect(p, inp, d);
      if ChangedApplies(p, inp, d) {
        var ie := inp.lists[d.inpLi].entries[d.inpEi];
        var se := p.lists[d.srcLi].entries[d.srcEi];
        assert OnlyFieldSet(p, q, d.srcLi, d.srcEi, PyIndex(|se.fields|, d.fieldIdx), ie.fields[PyIndex(|ie.fields|, d.fieldIdx)]);
      }
    case InputOnly =>
      InputOnlyEffect(p, inp, d);
      if InputOnlyApplies(inp, d) {
        var li := d.inpLi;
        forall l | 0 <= l < |p.lists|
          ensures |p.lists[l].entries| <= |q.lists[l].entries|
          ensures forall e :: 0 <= e < |p.lists[l].entries| ==> q.lists[l].entries[e].name == p.lists[l].entries[e].name
        {
          if l == li {
            var before := p.lists[li];
            assert q.lists[li].entries[..|before.entries|] == before.entries;
          }
        }
      }
    case SourceOnly =>
  }

  /** The input entry of an input-only record exists, and an entry of its
      name is in the target list of `par`. */
  predicate Placed(par: ParFile, inp: ParFile, d: Diff)
    requires InputOnlyApplies(inp, d)
  {
    && d.inpEi < |inp.lists[d.inpLi].entries|
    && d.inpLi < |par.lists|
    && HasName(par.lists[d.inpLi].entries, inp.lists[d.inpLi].entries[d.inpEi].name)
  }

  predicate PlacedUpTo(par: ParFile, inp: ParFile, recs: seq<Diff>, n: nat)
    requires n <= |recs|
  {
    forall k :: 0 <= k < n && recs[k].kind == InputOnly && InputOnlyApplies(inp, recs[k]) ==>
      Placed(par, inp, recs[k])
  }

  lemma PlacedGrows(p: ParFile, q: ParFile, inp: ParFile, recs: seq<Diff>, n: nat)
    requires n <= |recs| && PlacedUpTo(p, inp, recs, n) && Grows(p, q)
    ensures PlacedUpTo(q, inp, recs, n)
  {
    forall k | 0 <= k < n && recs[k].kind == InputOnly && InputOnlyApplies(inp, recs[k])
      ensures Placed(q, inp, recs[k])
    {
      var d := recs[k];
      GrowsKeepsName(p, q, d.inpLi, inp.lists[d.inpLi].entries[d.inpEi].name);
    }
  }

  /** A merge that ran past record `n` ran past the records before it,
      and record `n` applied to what they made. */
  lemma MergeStep(src: ParFile, inp: ParFile, recs: seq<Diff>, n: nat)
    requires 0 < n <= |recs| && !MergeUpTo(src, inp, recs, n).failed
    ensures !MergeUpTo(src, inp, recs, n - 1).failed
    ensures Apply(MergeUpTo(src, inp, recs, n - 1).par, inp, recs[n - 1]).Some?
    ensures MergeUpTo(src, inp, recs, n).par
            == Apply(MergeUpTo(src, inp, recs, n - 1).par, inp, recs[n - 1]).value.0
  {
  }

  /** A merge that ran to the end only grew the source. */
  lemma {:induction false} MergeGrows(src: ParFile, inp: ParFile, recs: seq<Diff>, n: nat)
    requires n <= |recs| && !MergeUpTo(src, inp, recs, n).failed
    ensures Grows(src, MergeUpTo(src, inp, recs, n).par)
  {
    if n > 0 {
      MergeStep(src, inp, recs, n);
      var prev := MergeUpTo(src, inp, recs, n - 1).par;
      MergeGrows(src, inp, recs, n - 1);
      ApplyGrows(prev, inp, recs[n - 1]);
      GrowsTransitive(src, prev, MergeUpTo(src, inp, recs, n).par);
    }
  }

  /** A merge that ran to the end left an entry of each input-only
      record's name in its target list. */
  lemma {:induction false} FirstPass(src: ParFile, inp: ParFile, recs: seq<Diff>, n: nat)
    requires n <= |recs| && !MergeUpTo(src, inp, recs, n).failed
    ensures PlacedUpTo(MergeUpTo(src, inp, recs, n).par, inp, recs, n)
  {
    if n > 0 {
      MergeStep(src, inp, recs, n);
      var prev := MergeUpTo(src, inp, recs, n - 1).par;
      var d := recs[n - 1];
      var q := MergeUpTo(src, inp, recs, n).par;
      FirstPass(src, inp, recs, n - 1);
      ApplyGrows(prev, inp, d);
      PlacedGrows(prev, q, inp, recs, n - 1);
      if d.kind == InputOnly && InputOnlyApplies(inp, d) {
        ApplyPlaces(prev, inp, d);
      }
      forall k | 0 <= k < n && recs[k].kind == InputOnly && InputOnlyApplies(inp, recs[k])
        ensures Placed(q, inp, recs[k])
      {
      }
    }
  }

  /** After an input-only record, its target list has an entry of its
      name. */
  lemma ApplyPlaces(p: ParFile, inp: ParFile, d: Diff)
    requires d.kind == InputOnly && InputOnlyApplies(inp, d) && Apply(p, inp, d).Some?
    ensures Placed(Apply(p, inp, d).value.0, inp, d)
  {
    InputOnlyEffect(p, inp, d);
    var q := Apply(p, inp, d).value.0;
    var ie := inp.lists[d.inpLi].entries[d.inpEi];
    var target := q.lists[d.inpLi].entries;
    var before := if d.inpLi < |p.lists| then p.lists[d.inpLi] else EMPTY_LIST;
    if !HasName(before.entries, ie.name) {
      assert target[|target| - 1] == ie;
    } else {
      var j :| 0 <= j < |before.entries| && before.entries[j].name == ie.name;
      assert target[j] == before.entries[j];
    }
  }

  /** No changed record has a negative field index: true of every record
      the comparison produces. */
  predicate NoNegativeField(recs: seq<Diff>)
  {
    forall k :: 0 <= k < |recs| && recs[k].kind == Changed ==> recs[k].fieldIdx >= 0
  }

  lemma {:induction false} SecondPass(par: ParFile, inp: ParFile, recs: seq<Diff>, n: nat)
    requires n <= |recs| && PlacedUpTo(par, inp, recs, |recs|) && NoNegativeField(recs)
    ensures var o := MergeUpTo(par, inp, recs, n);
            !o.failed && o.added == 0 && Grows(par, o.par)
  {
    if n > 0 {
      SecondPass(par, inp, recs, n - 1);
      var prev := MergeUpTo(par, inp, recs, n - 1);
      var d := recs[n - 1];
      if d.kind == Changed {
        ChangedEffect(prev.par, inp, d);
      } else if d.kind == InputOnly {
        InputOnlyEffect(prev.par, inp, d);
        if InputOnlyApplies(inp, d) {
          assert Placed(par, inp, d);
          GrowsKeepsName(par, prev.par, d.inpLi, inp.lists[d.inpLi].entries[d.inpEi].name);
        }
      }
      ApplyGrows(prev.par, inp, d);
      GrowsTransitive(par, prev.par, Apply(prev.par, inp, d).value.0);
    }
  }

  /** Merging the same records again into the merged source raises
      nothing and adds no entry, provided the first merge ran to the end
      and no changed record counts from the end. */
  lemma MergeTwiceAddsNothing(src: ParFile, inp: ParFile, recs: seq<Diff>)
    requires NoNegativeField(recs) && !MergeAll(src, inp, recs).failed
    ensures var again := MergeAll(MergeAll(src, inp, recs).par, inp, recs);
            !again.failed && again.added == 0
  {
    FirstPass(src, inp, recs, |recs|);
    SecondPass(MergeAll(src, inp, recs).par, inp, recs, |recs|);
  }

  // ---------------------------------------------------------------------
  // Merging the records of a comparison twice
  // ---------------------------------------------------------------------

  /** No record raises: no changed record counts from the end, and every
      input-only record whose guards hold names an entry of the input. */
  predicate Safe(inp: ParFile, recs: seq<Diff>)
  {
    forall k :: 0 <= k < |recs| ==>
      && (recs[k].kind == Changed ==> recs[k].fieldIdx >= 0)
      && (recs[k].kind == InputOnly && InputOnlyApplies(inp, recs[k]) ==>
            recs[k].inpEi < |inp.lists[recs[k].inpLi].entries|)
  }

  /** The entry of a changed record exists in the source. */
  predicate InSource(src: ParFile, d: Diff)
  {
    0 <= d.srcLi < |src.lists| && 0 <= d.srcEi < |src.lists[d.srcLi].entries|
  }

  /** Every changed record names an entry of the source, and two changed
      records for the same source entry copy from the same input entry. */
  predicate OneInputPerEntry(src: ParFile, recs: seq<Diff>)
  {
    && (forall k :: 0 <= k < |recs| && recs[k].kind == Changed ==> InSource(src, recs[k]))
    && forall j, k ::
         (0 <= j < |recs| && 0 <= k < |recs| && recs[j].kind == Changed && recs[k].kind == Changed &&
          recs[j].srcLi == recs[k].srcLi && recs[j].srcEi == recs[k].srcEi) ==>
         recs[j].inpLi == recs[k].inpLi && recs[j].inpEi == recs[k].inpEi
  }

  /** A changed record whose guards hold in `p` has nothing left to copy:
      the source entry already has the input entry's field. */
  predicate Resolved(p: ParFile, inp: ParFile, d: Diff)
  {
    ChangedApplies(p, inp, d) && d.fieldIdx >= 0 ==>
      var se, ie := p.lists[d.srcLi].entries[d.srcEi], inp.lists[d.inpLi].entries[d.inpEi];
      d.fieldIdx < |se.fields| && se.fields[d.fieldIdx] == ie.fields[d.fieldIdx]
  }

  predicate ResolvedUpTo(p: ParFile, inp: ParFile, recs: seq<Diff>, n: nat)
    requires n <= |recs|
  {
    forall k :: 0 <= k < n && recs[k].kind == Changed ==> Resolved(p, inp, recs[k])
  }

  /** Safe records never raise, whatever source they are applied to. */
  lemma {:induction false} SafeNeverFails(p: ParFile, inp: ParFile, recs: seq<Diff>, n: nat)
    requires n <= |recs| && Safe(inp, recs)
    ensures !MergeUpTo(p, inp, recs, n).failed
  {
    if n > 0 {
      SafeNeverFails(p, inp, recs, n - 1);
      var d := recs[n - 1];
      var prev := MergeUpTo(p, inp, recs, n - 1).par;
      if d.kind == Changed {
        ChangedEffect(prev, inp, d);
      } else if d.kind == InputOnly {
        InputOnlyEffect(prev, inp, d);
      }
    }
  }

  /** After a changed record, its own field has been copied. */
  lemma ApplyResolves(p: ParFile, inp: ParFile, d: Diff)
    requires d.kind == Changed && d.fieldIdx >= 0 && Apply(p, inp, d).Some?
    ensures Resolved(Apply(p, inp, d).value.0, inp, d)
  {
    ChangedEffect(p, inp, d);
    if ChangedApplies(p, inp, d) {
      var ie := inp.lists[d.inpLi].entries[d.inpEi];
      assert OnlyFieldSet(p, Apply(p, inp, d).value.0, d.srcLi, d.srcEi, d.fieldIdx, ie.fields[d.fieldIdx]);
    }
  }

  /** A record keeps an earlier changed record resolved, unless it copies
      into the same source entry from another input entry. */
  lemma ResolvedStep(p: ParFile, inp: ParFile, e: Diff, d: Diff)
    requires Apply(p, inp, e).Some? && d.kind == Changed && InSource(p, d) && Resolved(p, inp, d)
    requires e.kind == Changed ==> e.fieldIdx >= 0
    requires e.kind == Changed && e.srcLi == d.srcLi && e.srcEi == d.srcEi ==>
               e.inpLi == d.inpLi && e.inpEi == d.inpEi
    ensures Resolved(Apply(p, inp, e).value.0, inp, d)
  {
    var q := Apply(p, inp, e).value.0;
    ApplyGrows(p, inp, e);
    if ChangedApplies(q, inp, d) && d.fieldIdx >= 0 {
      assert ChangedApplies(p, inp, d);
      var li, ei, fi := d.srcLi, d.srcEi, d.fieldIdx;
      var before, after := p.lists[li].entries[ei], q.lists[li].entries[ei];
      if e.kind == Changed {
        ChangedEffect(p, inp, e);
        if ChangedApplies(p, inp, e) {
          var ie := inp.lists[e.inpLi].entries[e.inpEi];
          assert OnlyFieldSet(p, q, e.srcLi, e.srcEi, e.fieldIdx, ie.fields[e.fieldIdx]);
          if e.srcLi == li && e.srcEi == ei && e.fieldIdx != fi {
            assert after.fields[fi] == before.fields[fi];
          }
        }
      } else if e.kind == InputOnly {
        InputOnlyEffect(p, inp, e);
        if InputOnlyApplies(inp, e) && e.inpLi == li {
          assert q.lists[li].entries[ei] == (q.lists[li].entries[..|p.lists[li].entries|])[ei];
        }
      }
    }
  }

  /** A merge that ran to the end left every changed record whose entry
      the source had resolved. */
  lemma {:induction false} FirstPassResolves(src: ParFile, inp: ParFile, recs: seq<Diff>, n: nat)
    requires n <= |recs| && Safe(inp, recs) && OneInputPerEntry(src, recs)
    ensures !MergeUpTo(src, inp, recs, n).failed
    ensures ResolvedUpTo(MergeUpTo(src, inp, recs, n).par, inp, recs, n)
  {
    SafeNeverFails(src, inp, recs, n);
    if n > 0 {
      FirstPassResolves(src, inp, recs, n - 1);
      MergeStep(src, inp, recs, n);
      MergeGrows(src, inp, recs, n - 1);
      ResolvedAfter(MergeUpTo(src, inp, recs, n - 1).par, src, inp, recs, n);
    }
  }

  /** The step of `FirstPassResolves`: record `n - 1` applied to `prev`. */
  lemma ResolvedAfter(prev: ParFile, src: ParFile, inp: ParFile, recs: seq<Diff>, n: nat)
    requires 0 < n <= |recs| && Safe(inp, recs) && OneInputPerEntry(src, recs) && Grows(src, prev)
    requires ResolvedUpTo(prev, inp, recs, n - 1) && Apply(prev, inp, recs[n - 1]).Some?
    ensures ResolvedUpTo(Apply(prev, inp, recs[n - 1]).value.0, inp, recs, n)
  {
    var e := recs[n - 1];
    var q := Apply(prev, inp, e).value.0;
    forall k | 0 <= k < n && recs[k].kind == Changed
      ensures Resolved(q, inp, recs[k])
    {
      if k == n - 1 {
        ApplyResolves(prev, inp, e);
      } else {
        assert InSource(src, recs[k]);
        ResolvedStep(prev, inp, e, recs[k]);
      }
    }
  }

  /** A record whose work is already done leaves the source as it is, and
      an input-only record adds nothing. */
  lemma ApplyFixed(p: ParFile, inp: ParFile, d: Diff)
    requires d.kind == Changed ==> d.fieldIdx >= 0 && Resolved(p, inp, d)
    requires d.kind == InputOnly && InputOnlyApplies(inp, d) ==> Placed(p, inp, d)
    ensures Apply(p, inp, d).Some? && Apply(p, inp, d).value.0 == p
    ensures d.kind == InputOnly ==> !Apply(p, inp, d).value.1
  {
    if d.kind == Changed && ChangedApplies(p, inp, d) {
      var li, ei, fi := d.srcLi, d.srcEi, d.fieldIdx;
      var se := p.lists[li].entries[ei];
      assert PadFields(se.fields, fi) == se.fields;
      assert se.fields[fi := inp.lists[d.inpLi].entries[d.inpEi].fields[fi]] == se.fields;
      assert se.(fields := se.fields) == se;
      assert p.lists[li].entries[ei := se] == p.lists[li].entries;
      assert p.lists[li := p.lists[li].(entries := p.lists[li].entries)] == p.lists;
      assert SetEntry(p, li, ei, se) == p;
    } else if d.kind == InputOnly && InputOnlyApplies(inp, d) {
      assert PadLists(p.lists, d.inpLi) == p.lists;
    }
  }

  /** Merging into a source where every record's work is done changes
      nothing and adds nothing. */
  lemma {:induction false} SecondPassFixed(par: ParFile, inp: ParFile, recs: seq<Diff>, n: nat)
    requires n <= |recs| && Safe(inp, recs)
    requires PlacedUpTo(par, inp, recs, |recs|) && ResolvedUpTo(par, inp, recs, |recs|)
    ensures var o := MergeUpTo(par, inp, recs, n);
            !o.failed && o.par == par && o.added == 0
  {
    if n > 0 {
      SecondPassFixed(par, inp, recs, n - 1);
      ApplyFixed(par, inp, recs[n - 1]);
    }
  }

  /** Merging the same safe records a second time into the merged source
      leaves it as the first merge left it and adds no entry, provided
      every changed record names a source entry and each source entry
      takes its fields from one input entry. */
  lemma MergeTwiceSame(src: ParFile, inp: ParFile, recs: seq<Diff>)
    requires Safe(inp, recs) && OneInputPerEntry(src, recs)
    ensures var once := MergeAll(src, inp, recs);
            var again := MergeAll(once.par, inp, recs);
            && !once.failed && !again.failed
            && again.par == once.par && again.added == 0
  {
    FirstPassResolves(src, inp, recs, |recs|);
    FirstPass(src, inp, recs, |recs|);
    SecondPassFixed(MergeAll(src, inp, recs).par, inp, recs, |recs|);
  }
}
