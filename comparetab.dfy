/** The compare tab: a source and an input file, the records of their last
    comparison, the set of ticked records, and the two commands that change
    them (compare and merge). */
module ParCompareTab {
  import opened Wire
  import opened ParModel
  import opened ParCompare
  import opened ParMerge

  /** The ticked records among the first `n`, kept in record order. */
  function SelectedUpTo(diffs: seq<Diff>, checked: set<nat>, n: nat): seq<Diff>
    requires n <= |diffs|
  {
    if n == 0 then []
    else SelectedUpTo(diffs, checked, n - 1) + (if n - 1 in checked then [diffs[n - 1]] else [])
  }

  function Selection(diffs: seq<Diff>, checked: set<nat>): seq<Diff>
  {
    SelectedUpTo(diffs, checked, |diffs|)
  }

  /** A record is selected exactly when it sits at a ticked index. */
  lemma {:induction false} SelectedSpec(diffs: seq<Diff>, checked: set<nat>, n: nat)
    requires n <= |diffs|
    ensures |SelectedUpTo(diffs, checked, n)| <= n
    ensures forall r :: r in SelectedUpTo(diffs, checked, n) <==>
              exists i :: 0 <= i < n && i in checked && diffs[i] == r
  {
    if n > 0 {
      SelectedSpec(diffs, checked, n - 1);
      var sel := SelectedUpTo(diffs, checked, n);
      forall r | r in sel
        ensures exists i :: 0 <= i < n && i in checked && diffs[i] == r
      {
        if r !in SelectedUpTo(diffs, checked, n - 1) {
          assert diffs[n - 1] == r;
        }
      }
    }
  }

  /** The selection loop of _cmp_merge. */
  method SelectRecords(diffs: seq<Diff>, checked: set<nat>) returns (sel: seq<Diff>)
    ensures sel == Selection(diffs, checked)
  {
    sel := [];
    var i := 0;
    while i < |diffs|
      invariant 0 <= i <= |diffs| && sel == SelectedUpTo(diffs, checked, i)
    {
      if i in checked {
        sel := sel + [diffs[i]];
      }
      i := i + 1;
    }
  }

  /** The state of the compare tab that the compare and merge commands
      read and change. A loaded file is `Some`. */
  class CompareTab {
    var source: Option<ParFile>
    var input: Option<ParFile>
    var diffs: seq<Diff>
    var checked: set<nat>

    constructor (source: Option<ParFile>, input: Option<ParFile>)
      ensures this.source == source && this.input == input && diffs == [] && checked == {}
    {
      this.source := source;
      this.input := input;
      diffs := [];
      checked := {};
    }

    /** _cmp_load_source: a file that loaded replaces the source; the
        records and ticks of the last comparison are kept as they are. */
    method LoadSource(loaded: Option<ParFile>)
      modifies this
      ensures input == old(input) && diffs == old(diffs) && checked == old(checked)
      ensures source == if loaded.Some? then loaded else old(source)
    {
      if loaded.Some? {
        source := loaded;
      }
    }

    /** _cmp_load_input, the same for the input side. */
    method LoadInput(loaded: Option<ParFile>)
      modifies this
      ensures source == old(source) && diffs == old(diffs) && checked == old(checked)
      ensures input == if loaded.Some? then loaded else old(input)
    {
      if loaded.Some? {
        input := loaded;
      }
    }

    /** _cmp_run_compare: with both files loaded, replaces the records by
        those of a fresh comparison and unticks everything; otherwise only
        warns. */
    method RunCompare(fc: FloatCmp)
      modifies this
      ensures source == old(source) && input == old(input)
      ensures old(source).None? || old(input).None? ==> diffs == old(diffs) && checked == old(checked)
      ensures old(source).Some? && old(input).Some? ==>
                diffs == Diffs(source.value, input.value, fc) && checked == {}
    {
      if source.None? || input.None? {
        return;
      }
      diffs := CompareFiles(source.value, input.value, fc);
      checked := {};
    }

    /** _cmp_merge: with both files loaded, some records ticked and the
        merge confirmed, applies the ticked records to the source in
        record order and reports the two counters; `raised` tells that a
        record raised IndexError, which leaves the source as the records
        before it made it. The records are not recomputed. */
    method Merge(confirmed: bool) returns (changedCount: nat, addedCount: nat, raised: bool)
      modifies this
      ensures input == old(input) && diffs == old(diffs) && checked == old(checked)
      ensures old(source).None? || old(input).None? || |Selection(old(diffs), old(checked))| == 0 || !confirmed ==>
                source == old(source) && changedCount == 0 && addedCount == 0 && !raised
      ensures old(source).Some? && old(input).Some? && |Selection(old(diffs), old(checked))| > 0 && confirmed ==>
                var o := MergeAll(old(source).value, input.value, Selection(diffs, checked));
                source == Some(o.par) && changedCount == o.changed && addedCount == o.added && raised == o.failed
    {
      changedCount, addedCount, raised := 0, 0, false;
      if source.None? || input.None? {
        return;
      }
      var selected := SelectRecords(diffs, checked);
      if |selected| == 0 || !confirmed {
        return;
      }
      var o := MergeRecords(source.value, input.value, selected);
      source := Some(o.par);
      changedCount, addedCount, raised := o.changed, o.added, o.failed;
    }
  }

  /** Whatever is ticked after a comparison, no selected changed record
      counts from the end. */
  lemma SelectionFromCompare(src: ParFile, inp: ParFile, fc: FloatCmp, checked: set<nat>)
    ensures NoNegativeField(Selection(Diffs(src, inp, fc), checked))
  {
    var diffs := Diffs(src, inp, fc);
    var sel := Selection(diffs, checked);
    DiffsSound(src, inp, fc);
    SelectedSpec(diffs, checked, |diffs|);
    forall k | 0 <= k < |sel| && sel[k].kind == Changed
      ensures sel[k].fieldIdx >= 0
    {
      assert sel[k] in sel;
      var i :| 0 <= i < |diffs| && i in checked && diffs[i] == sel[k];
      assert diffs[i] in diffs;
    }
  }

  /** Every ticked record is a record of the comparison, so it describes
      a real difference between the two files. */
  lemma SelectionSound(src: ParFile, inp: ParFile, fc: FloatCmp, checked: set<nat>)
    ensures var sel := Selection(Diffs(src, inp, fc), checked);
            forall k :: 0 <= k < |sel| ==> Sound(src, inp, fc, sel[k])
  {
    var diffs := Diffs(src, inp, fc);
    var sel := Selection(diffs, checked);
    DiffsSound(src, inp, fc);
    SelectedSpec(diffs, checked, |diffs|);
    forall k | 0 <= k < |sel|
      ensures Sound(src, inp, fc, sel[k])
    {
      assert sel[k] in sel;
      var i :| 0 <= i < |diffs| && i in checked && diffs[i] == sel[k];
      assert diffs[i] in diffs;
    }
  }

  /** Two last entries of the same name are the same entry. */
  lemma LastWithNameUnique(entries: seq<Entry>, i: nat, j: nat)
    requires LastWithName(entries, i) && LastWithName(entries, j) && entries[i].name == entries[j].name
    ensures i == j
  {
  }

  /** Whatever is ticked after a comparison, the merge runs to the end,
      and merging the same selection again into the merged source leaves
      it unchanged and adds no entry. */
  lemma MergeIdempotent(src: ParFile, inp: ParFile, fc: FloatCmp, checked: set<nat>)
    ensures var sel := Selection(Diffs(src, inp, fc), checked);
            var once := MergeAll(src, inp, sel);
            var again := MergeAll(once.par, inp, sel);
            && !once.failed && !again.failed
            && again.par == once.par && again.added == 0
  {
    var sel := Selection(Diffs(src, inp, fc), checked);
    SelectionSound(src, inp, fc, checked);
    assert Safe(inp, sel);
    forall j, k | 0 <= j < |sel| && 0 <= k < |sel| && sel[j].kind == Changed && sel[k].kind == Changed &&
                  sel[j].srcLi == sel[k].srcLi && sel[j].srcEi == sel[k].srcEi
      ensures sel[j].inpLi == sel[k].inpLi && sel[j].inpEi == sel[k].inpEi
    {
      assert SoundChanged(src, inp, fc, sel[j]) && SoundChanged(src, inp, fc, sel[k]);
      var li := sel[j].listIdx;
      LastWithNameUnique(inp.lists[li].entries, sel[j].inpEi, sel[k].inpEi);
    }
    assert OneInputPerEntry(src, sel);
    MergeTwiceSame(src, inp, sel);
  }
}
