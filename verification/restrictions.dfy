/**
  The dietary-restriction selector of the modifier form: a fixed table of
  restriction ids and labels, a selection kept as a list of ids that is
  toggled one id at a time, and the comma-separated label string sent with a
  modification request.
 */
module Restrictions {
  import opened Outcomes
  import opened Text

  /** One selectable restriction: the id kept in the selection and the label
      shown on its button and sent to the model. */
  datatype Restriction = Restriction(id: string, labelText: string)

  /** The six restrictions the form offers, in button order. */
  const Table: seq<Restriction> := [
    Restriction("vegetarian", "Vegetarian"),
    Restriction("vegan", "Vegan"),
    Restriction("gluten-free", "Gluten-Free"),
    Restriction("dairy-free", "Dairy-Free"),
    Restriction("nut-free", "Nut-Free"),
    Restriction("low-carb", "Low-Carb")
  ]

  /** Separator between labels in the formatted string. */
  const LabelSeparator: string := ", "

  /** `Array.prototype.find` on the table: the label of the first entry whose
      id is `id`, if any. */
  function Find(table: seq<Restriction>, id: string): (r: Option<string>)
    ensures r.Some? ==> Restriction(id, r.value) in table
    ensures r.None? ==> forall k :: 0 <= k < |table| ==> table[k].id != id
    decreases |table|
  {
    if |table| == 0 then None
    else if table[0].id == id then Some(table[0].labelText)
    else
      var r := Find(table[1..], id);
      assert forall k :: 0 < k < |table| ==> table[k] == table[1..][k - 1];
      r
  }

  /** The label of a restriction id, or `None` for an id outside the table. */
  function LabelOf(id: string): (r: Option<string>)
    ensures r.Some? ==> r.value != ""
  {
    Find(Table, id)
  }

  /** `id` is one of the six ids of the table. */
  predicate IsKnown(id: string) {
    LabelOf(id).Some?
  }

  /** Every id of the selection is one of the table's. */
  predicate AllKnown(selection: seq<string>) {
    forall k :: 0 <= k < |selection| ==> IsKnown(selection[k])
  }

  /** No id occurs twice. */
  predicate NoDuplicates<T(==)>(s: seq<T>) {
    forall i, j :: 0 <= i < j < |s| ==> s[i] != s[j]
  }

  /** `a` is `b` with some entries left out and the rest in the same order. */
  predicate IsSubsequence<T(==)>(a: seq<T>, b: seq<T>)
    decreases |b|
  {
    |a| == 0 || (|b| > 0 && if a[0] == b[0] then IsSubsequence(a[1..], b[1..]) else IsSubsequence(a, b[1..]))
  }

  /** `Array.prototype.filter((r) => r !== id)`: every occurrence of `id`
      removed. */
  function Remove(s: seq<string>, id: string): (r: seq<string>)
    ensures id !in r
    ensures forall x :: x != id ==> multiset(r)[x] == multiset(s)[x]
    decreases |s|
  {
    if |s| == 0 then []
    else
      assert s == [s[0]] + s[1..];
      (if s[0] == id then [] else [s[0]]) + Remove(s[1..], id)
  }

  /** The state update of `toggleRestriction`: an id already selected is
      filtered out, any other id is appended. */
  function Toggle(selection: seq<string>, id: string): (r: seq<string>)
    ensures id in selection ==> id !in r && IsSubsequence(r, selection)
    ensures id in selection ==> forall x :: x != id ==> multiset(r)[x] == multiset(selection)[x]
    ensures id !in selection ==> |r| == |selection| + 1 && r[..|selection|] == selection && r[|selection|] == id
  {
    if id in selection then
      RemoveIsSubsequence(selection, id);
      Remove(selection, id)
    else
      selection + [id]
  }

  /** Filtering keeps the other ids in their original relative order. */
  lemma {:induction false} RemoveIsSubsequence(s: seq<string>, id: string)
    ensures IsSubsequence(Remove(s, id), s)
    decreases |s|
  {
    if |s| > 0 {
      var rest := Remove(s[1..], id);
      RemoveIsSubsequence(s[1..], id);
      if s[0] == id {
        assert Remove(s, id) == rest;
        if |rest| > 0 {
          assert rest[0] in rest;
        }
      } else {
        assert Remove(s, id) == [s[0]] + rest;
        assert Remove(s, id)[1..] == rest;
      }
    }
  }

  /** Filtering an id that does not occur changes nothing. */
  lemma {:induction false} RemoveAbsent(s: seq<string>, id: string)
    requires id !in s
    ensures Remove(s, id) == s
    decreases |s|
  {
    if |s| > 0 {
      assert s[0] != id;
      RemoveAbsent(s[1..], id);
      assert s == [s[0]] + s[1..];
    }
  }

  /** Filtering distributes over concatenation. */
  lemma {:induction false} RemoveAppend(a: seq<string>, b: seq<string>, id: string)
    ensures Remove(a + b, id) == Remove(a, id) + Remove(b, id)
    decreases |a|
  {
    if |a| == 0 {
      assert a + b == b;
    } else {
      var head := if a[0] == id then [] else [a[0]];
      ConsAppend(a, b);
      RemoveAppend(a[1..], b, id);
      SeqAssoc(head, Remove(a[1..], id), Remove(b, id));
    }
  }

  /** Toggling keeps the selection free of duplicates. */
  lemma ToggleKeepsNoDuplicates(selection: seq<string>, id: string)
    requires NoDuplicates(selection)
    ensures NoDuplicates(Toggle(selection, id))
  {
    var r := Toggle(selection, id);
    if id in selection {
      forall i, j | 0 <= i < j < |r|
        ensures r[i] != r[j]
      {
        if r[i] == r[j] {
          var x := r[i];
          assert multiset(r)[x] >= 2 by {
            assert r == r[..i] + [x] + r[i + 1..j] + [x] + r[j + 1..];
          }
          assert multiset(selection)[x] >= 2;
          CountTwiceHasDuplicate(selection, x);
        }
      }
    }
  }

  /** An element counted twice occurs at two different positions. */
  lemma {:induction false} CountTwiceHasDuplicate(s: seq<string>, x: string)
    requires multiset(s)[x] >= 2
    ensures !NoDuplicates(s)
    decreases |s|
  {
    assert s == [s[0]] + s[1..];
    if s[0] == x {
      assert x in s[1..];
      var j :| 0 <= j < |s[1..]| && s[1..][j] == x;
      assert s[0] == s[j + 1];
    } else {
      CountTwiceHasDuplicate(s[1..], x);
      var i, j :| 0 <= i < j < |s[1..]| && s[1..][i] == s[1..][j];
      assert s[i + 1] == s[j + 1];
    }
  }

  /** Toggling an id of the table keeps every selected id inside the table. */
  lemma ToggleKeepsKnown(selection: seq<string>, id: string)
    requires AllKnown(selection) && IsKnown(id)
    ensures AllKnown(Toggle(selection, id))
  {
    var r := Toggle(selection, id);
    if id in selection {
      forall x | x in r
        ensures x in selection
      {
        RemoveKeepsMembers(selection, id, x);
      }
      KnownWithin(r, selection);
    } else {
      assert r == selection + [id];
    }
  }

  /** A list whose ids all occur in a list of table ids holds only table
      ids. */
  lemma KnownWithin(a: seq<string>, b: seq<string>)
    requires AllKnown(b)
    requires forall x :: x in a ==> x in b
    ensures AllKnown(a)
  {
    forall k | 0 <= k < |a|
      ensures IsKnown(a[k])
    {
      assert a[k] in b;
    }
  }

  /** Filtering adds no id. */
  lemma {:induction false} RemoveKeepsMembers(s: seq<string>, id: string, x: string)
    requires x in Remove(s, id)
    ensures x in s
    decreases |s|
  {
    if s[0] == id || x != s[0] {
      RemoveKeepsMembers(s[1..], id, x);
    }
  }

  /** Toggling the same id twice gives back the same set of ids. */
  lemma ToggleTwiceSameMembers(selection: seq<string>, id: string)
    ensures forall x :: x in Toggle(Toggle(selection, id), id) <==> x in selection
  {
    var once := Toggle(selection, id);
    forall x
      ensures x in Toggle(once, id) <==> x in selection
    {
      if x != id {
        if id in selection {
          assert x in once <==> x in selection by {
            assert x in multiset(once) <==> x in multiset(selection);
          }
        } else {
          ToggleTwiceAbsent(selection, id);
        }
      }
    }
  }

  /** Toggling an absent id twice appends it and filters it out again. */
  lemma ToggleTwiceAbsent(selection: seq<string>, id: string)
    requires id !in selection
    ensures Toggle(Toggle(selection, id), id) == selection
  {
    assert Toggle(selection, id) == selection + [id];
    RemoveAbsent(selection, id);
    RemoveAppend(selection, [id], id);
    assert Remove([id], id) == [];
  }

  /** Toggling a present id twice filters it out and appends it at the end. */
  lemma ToggleTwicePresent(selection: seq<string>, id: string)
    requires id in selection
    ensures Toggle(Toggle(selection, id), id) == Remove(selection, id) + [id]
  {
  }

  /** Filtering `id` out and appending it once gives the list back exactly
      when `id` is its last entry and occurs nowhere else. */
  lemma MoveToEndIsIdentity(s: seq<string>, id: string)
    requires id in s
    ensures Remove(s, id) + [id] == s <==> (s[|s| - 1] == id && id !in s[..|s| - 1])
  {
    var init := s[..|s| - 1];
    if s[|s| - 1] == id && id !in init {
      assert s == init + [id];
      MoveLastIsIdentity(init, id);
    }
    var moved := Remove(s, id) + [id];
    if moved == s {
      assert moved[..|moved| - 1] == Remove(s, id);
    }
  }

  /** Appending an id absent from `init` and moving it to the end changes
      nothing. */
  lemma MoveLastIsIdentity(init: seq<string>, id: string)
    requires id !in init
    ensures Remove(init + [id], id) + [id] == init + [id]
  {
    RemoveAppend(init, [id], id);
    RemoveAbsent(init, id);
    assert Remove([id], id) == [];
  }

  /** Toggling the same id twice gives back the very same list exactly when
      the id was absent, or was the last entry and occurred nowhere else. */
  lemma ToggleTwiceRestoresOrder(selection: seq<string>, id: string)
    ensures Toggle(Toggle(selection, id), id) == selection
      <==> id !in selection || (selection[|selection| - 1] == id && id !in selection[..|selection| - 1])
  {
    if id !in selection {
      ToggleTwiceAbsent(selection, id);
    } else {
      ToggleTwicePresent(selection, id);
      MoveToEndIsIdentity(selection, id);
    }
  }

  /** With no duplicates, toggling twice restores the list exactly when the id
      was absent or was the last one selected. */
  lemma ToggleTwiceRestoresOrderNoDuplicates(selection: seq<string>, id: string)
    requires NoDuplicates(selection)
    ensures Toggle(Toggle(selection, id), id) == selection
      <==> id !in selection || selection[|selection| - 1] == id
  {
    ToggleTwiceRestoresOrder(selection, id);
  }

  /** `.map(find label).filter(Boolean)`: the labels of the selected ids, in
      selection order, with unknown ids (and empty labels) dropped. */
  function Labels(selection: seq<string>): (labels: seq<string>)
    ensures |labels| <= |selection|
    ensures forall k :: 0 <= k < |labels| ==> labels[k] != ""
    decreases |selection|
  {
    if |selection| == 0 then []
    else
      var head := LabelOf(selection[0]);
      var rest := Labels(selection[1..]);
      if head.Some? && head.value != "" then
        var labels := [head.value] + rest;
        assert forall k :: 0 < k < |labels| ==> labels[k] == rest[k - 1];
        labels
      else rest
  }

  /** The restriction string of `handleModifyRecipe`: the labels joined by
      `", "`. */
  function FormatRestrictions(selection: seq<string>): string {
    Join(LabelSeparator, Labels(selection))
  }

  /** On a selection of table ids, the labels are exactly one per id, in
      selection order. */
  lemma {:induction false} LabelsOfKnownSelection(selection: seq<string>)
    requires AllKnown(selection)
    ensures |Labels(selection)| == |selection|
    ensures forall k :: 0 <= k < |selection| ==> Labels(selection)[k] == LabelOf(selection[k]).value
    decreases |selection|
  {
    if |selection| > 0 {
      LabelsOfKnownSelection(selection[1..]);
      var rest := Labels(selection[1..]);
      assert Labels(selection) == [LabelOf(selection[0]).value] + rest;
      forall k | 0 < k < |selection|
        ensures Labels(selection)[k] == LabelOf(selection[k]).value
      {
        assert selection[k] == selection[1..][k - 1];
      }
    }
  }

  /** Label projection distributes over concatenation: selection order is
      kept. */
  lemma {:induction false} LabelsAppend(a: seq<string>, b: seq<string>)
    ensures Labels(a + b) == Labels(a) + Labels(b)
    decreases |a|
  {
    if |a| == 0 {
      assert a + b == b;
    } else {
      assert (a + b)[0] == a[0];
      assert (a + b)[1..] == a[1..] + b;
      LabelsAppend(a[1..], b);
    }
  }

  /** The formatted string is empty exactly when no selected id is in the
      table. */
  lemma {:induction false} FormatEmptyIffNoneKnown(selection: seq<string>)
    ensures FormatRestrictions(selection) == "" <==> forall k :: 0 <= k < |selection| ==> !IsKnown(selection[k])
    decreases |selection|
  {
    if |selection| > 0 {
      FormatEmptyIffNoneKnown(selection[1..]);
      var labels := Labels(selection);
      if IsKnown(selection[0]) {
        assert labels[0] == LabelOf(selection[0]).value;
        assert labels[0] <= FormatRestrictions(selection);
      } else {
        assert labels == Labels(selection[1..]);
        forall k | 0 < k < |selection|
          ensures selection[k] == selection[1..][k - 1]
        {
        }
      }
    }
  }

  /** The label string of a selection of table ids is their labels in
      selection order, joined by `", "`; nothing is selected gives `""`. */
  lemma FormatKnownSelection(selection: seq<string>)
    requires AllKnown(selection)
    ensures FormatRestrictions(selection) == Join(LabelSeparator, seq(|selection|, k requires 0 <= k < |selection| => LabelOf(selection[k]).value))
    ensures selection == [] ==> FormatRestrictions(selection) == ""
  {
    LabelsOfKnownSelection(selection);
    assert Labels(selection) == seq(|selection|, k requires 0 <= k < |selection| => LabelOf(selection[k]).value);
  }

  /** The label of each table id. */
  lemma TableLabels()
    ensures LabelOf("vegetarian") == Some("Vegetarian")
    ensures LabelOf("vegan") == Some("Vegan")
    ensures LabelOf("gluten-free") == Some("Gluten-Free")
    ensures LabelOf("dairy-free") == Some("Dairy-Free")
    ensures LabelOf("nut-free") == Some("Nut-Free")
    ensures LabelOf("low-carb") == Some("Low-Carb")
  {
    LabelOfFirstThree();
    LabelOfLastThree();
  }

  lemma LabelOfFirstThree()
    ensures LabelOf("vegetarian") == Some("Vegetarian")
    ensures LabelOf("vegan") == Some("Vegan")
    ensures LabelOf("gluten-free") == Some("Gluten-Free")
  {
  }

  lemma LabelOfLastThree()
    ensures LabelOf("dairy-free") == Some("Dairy-Free")
    ensures LabelOf("nut-free") == Some("Nut-Free")
    ensures LabelOf("low-carb") == Some("Low-Carb")
  {
    LabelOfEntry(3);
    LabelOfEntry(4);
    LabelOfEntry(5);
  }

  /** The lookup of a table entry's id finds that entry's label. */
  lemma LabelOfEntry(k: nat)
    requires k < |Table|
    ensures LabelOf(Table[k].id) == Some(Table[k].labelText)
  {
    var id := Table[k].id;
    var r := LabelOf(id);
    assert r.Some?;
    var j :| 0 <= j < |Table| && Table[j] == Restriction(id, r.value);
    TableIdsDistinct(j, k);
  }

  /** No two table entries share an id. */
  lemma TableIdsDistinct(i: nat, j: nat)
    requires i < |Table| && j < |Table| && Table[i].id == Table[j].id
    ensures i == j
  {
    var initials := seq(|Table|, k requires 0 <= k < |Table| => Table[k].id[0]);
    assert initials == ['v', 'v', 'g', 'd', 'n', 'l'];
    assert |Table[0].id| != |Table[1].id|;
  }

  /** An id that no table entry has has no label. */
  lemma UnknownHasNoLabel(id: string)
    requires forall k :: 0 <= k < |Table| ==> Table[k].id != id
    ensures LabelOf(id) == None
  {
  }

  /** The id `unknown` is none of the table's. */
  lemma UnknownNotInTable()
    ensures forall k :: 0 <= k < |Table| ==> Table[k].id != "unknown"
  {
    var lengths := seq(|Table|, k requires 0 <= k < |Table| => |Table[k].id|);
    assert lengths == [10, 5, 11, 10, 8, 8];
    assert forall k :: 0 <= k < |Table| ==> |Table[k].id| != |"unknown"|;
  }

  /** The label of one id as a list: one label, or none for an id outside
      the table. */
  function LabelList(id: string): seq<string> {
    if IsKnown(id) then [LabelOf(id).value] else []
  }

  /** The labels of a one-id selection. */
  lemma LabelsSingleton(id: string)
    ensures Labels([id]) == LabelList(id)
  {
    assert [id][1..] == [];
  }

  /** An id outside the table between two table ids is skipped, and the two
      labels keep their order. */
  lemma FormatSkipsUnknown(first: string, unknown: string, last: string)
    requires IsKnown(first) && !IsKnown(unknown) && IsKnown(last)
    ensures FormatRestrictions([first, unknown, last]) == LabelOf(first).value + LabelSeparator + LabelOf(last).value
  {
    LabelsSkipUnknown(first, unknown, last);
    JoinPair(LabelSeparator, LabelOf(first).value, LabelOf(last).value);
  }

  /** The labels of a known, an unknown and a known id are the two known
      labels. */
  lemma LabelsSkipUnknown(first: string, unknown: string, last: string)
    requires IsKnown(first) && !IsKnown(unknown) && IsKnown(last)
    ensures Labels([first, unknown, last]) == [LabelOf(first).value, LabelOf(last).value]
  {
    LabelsOfThree(first, unknown, last);
  }

  /** A three-id selection contributes each id's labels in turn. */
  lemma LabelsOfThree(first: string, unknown: string, last: string)
    ensures Labels([first, unknown, last]) == LabelList(first) + (LabelList(unknown) + LabelList(last))
  {
    LabelsOfTwo(unknown, last);
    LabelsCons(first, [unknown, last]);
    assert [first] + [unknown, last] == [first, unknown, last];
  }

  /** A two-id selection contributes each id's labels in turn. */
  lemma LabelsOfTwo(first: string, last: string)
    ensures Labels([first, last]) == LabelList(first) + LabelList(last)
  {
    LabelsSingleton(last);
    LabelsCons(first, [last]);
    assert [first] + [last] == [first, last];
  }

  /** The labels of a selection starting with `id`: the label of `id`, if it
      has one, then the labels of the rest. */
  lemma LabelsCons(id: string, rest: seq<string>)
    ensures Labels([id] + rest) == LabelList(id) + Labels(rest)
  {
    assert ([id] + rest)[1..] == rest;
  }

  /** The one-id selection `["vegan"]` formats to `Vegan`, and
      `["gluten-free", "unknown", "vegan"]` to `Gluten-Free, Vegan`. */
  lemma FormatExamples()
    ensures FormatRestrictions(["vegan"]) == "Vegan"
    ensures FormatRestrictions(["gluten-free", "unknown", "vegan"]) == "Gluten-Free" + LabelSeparator + "Vegan"
  {
    LabelOfFirstThree();
    assert Labels(["vegan"]) == ["Vegan"] by {
      LabelsSingleton("vegan");
    }
    UnknownNotInTable();
    UnknownHasNoLabel("unknown");
    FormatSkipsUnknown("gluten-free", "unknown", "vegan");
  }
}
