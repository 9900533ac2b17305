/**
 Radio-button groups of the default optional content configuration (the
 /RBGroups entry, section 8.11.4.3 of ISO 32000-1): the layers with a
 radio-button label are sorted by label, every run of two or more layers
 with one label becomes a group, and within a group at most one layer is
 left On.
 */
module RadioGroups {
  import opened Wrappers
  import opened PdfTokens
  import opened LayerModel

  // ---------------------------------------------------------------------------
  // The order of labels

  /** Ordinal (character code) lexicographic order on labels. */
  predicate LabelLe(a: string, b: string)
  {
    a == [] || (b != [] && (a[0] < b[0] || (a[0] == b[0] && LabelLe(a[1..], b[1..]))))
  }

  lemma LabelLeTotal(a: string, b: string)
    ensures LabelLe(a, b) || LabelLe(b, a)
  {
  }

  lemma LabelLeTransitive(a: string, b: string, c: string)
    requires LabelLe(a, b) && LabelLe(b, c)
    ensures LabelLe(a, c)
  {
  }

  lemma LabelLeAntisymmetric(a: string, b: string)
    requires LabelLe(a, b) && LabelLe(b, a)
    ensures a == b
  {
  }

  ghost predicate SortedByLabel(s: seq<Layer>)
  {
    forall i, j :: 0 <= i < j < |s| ==> LabelLe(s[i].radioButton, s[j].radioButton)
  }

  /**
   RadioButtons.Sort(): some permutation of the radio layers in label order.
   The comparer of the source is not part of this model; ties may come out
   in any order, and nothing below depends on how they are broken.
   */
  method SortByLabel(s: seq<Layer>) returns (r: seq<Layer>)
    ensures multiset(r) == multiset(s)
    ensures SortedByLabel(r)
  {
    r := [];
    for i := 0 to |s|
      invariant multiset(r) == multiset(s[..i])
      invariant SortedByLabel(r)
    {
      assert s[..i + 1] == s[..i] + [s[i]];
      r := InsertByLabel(r, s[i]);
    }
    assert s[..|s|] == s;
  }

  /** Inserts `x` into the label-sorted `r` after every layer whose label is not above its own. */
  method InsertByLabel(r: seq<Layer>, x: Layer) returns (r': seq<Layer>)
    requires SortedByLabel(r)
    ensures multiset(r') == multiset(r) + multiset{x}
    ensures SortedByLabel(r')
  {
    var j := 0;
    while j < |r| && LabelLe(r[j].radioButton, x.radioButton)
      invariant 0 <= j <= |r|
      invariant forall k :: 0 <= k < j ==> LabelLe(r[k].radioButton, x.radioButton)
    {
      j := j + 1;
    }
    forall k | j <= k < |r|
      ensures LabelLe(x.radioButton, r[k].radioButton)
    {
      LabelLeTotal(r[j].radioButton, x.radioButton);
      if k > j {
        LabelLeTransitive(x.radioButton, r[j].radioButton, r[k].radioButton);
      }
    }
    InsertKeepsSorted(r, j, x);
    assert r == r[..j] + r[j..];
    r' := r[..j] + [x] + r[j..];
  }

  lemma InsertKeepsSorted(r: seq<Layer>, j: nat, x: Layer)
    requires SortedByLabel(r) && j <= |r|
    requires forall k :: 0 <= k < j ==> LabelLe(r[k].radioButton, x.radioButton)
    requires forall k :: j <= k < |r| ==> LabelLe(x.radioButton, r[k].radioButton)
    ensures SortedByLabel(r[..j] + [x] + r[j..])
  {
    var t := r[..j] + [x] + r[j..];
    assert forall k :: 0 <= k < |t| ==> t[k] == if k < j then r[k] else if k == j then x else r[k - 1];
  }

  /** Layers with one label stand together: a label equal at both ends of a stretch is the label of the whole stretch. */
  ghost predicate Grouped(s: seq<Layer>)
  {
    forall i, j, k :: 0 <= i < j < k < |s| && s[i].radioButton == s[k].radioButton ==> s[j].radioButton == s[i].radioButton
  }

  /** Sorting by label groups equal labels together. */
  lemma SortedIsGrouped(s: seq<Layer>)
    requires SortedByLabel(s)
    ensures Grouped(s)
  {
    forall i, j, k | 0 <= i < j < k < |s| && s[i].radioButton == s[k].radioButton
      ensures s[j].radioButton == s[i].radioButton
    {
      LabelLeAntisymmetric(s[i].radioButton, s[j].radioButton);
    }
  }

  /** `i` starts a run: the label before it, if any, differs. */
  ghost predicate RunStart(s: seq<Layer>, i: nat)
  {
    i <= |s| && (0 < i < |s| ==> s[i - 1].radioButton != s[i].radioButton)
  }

  /** In a grouped list no layer before a run start shares a label with one from the run start on. */
  lemma RunStartSeparates(s: seq<Layer>, i: nat)
    requires Grouped(s) && RunStart(s, i)
    ensures forall j, k :: 0 <= j < i <= k < |s| ==> s[j].radioButton != s[k].radioButton
  {
    forall j, k | 0 <= j < i <= k < |s|
      ensures s[j].radioButton != s[k].radioButton
    {
    }
  }

  // ---------------------------------------------------------------------------
  // Which layer stays On

  /** Some layer before position k, with the same label, was On. */
  ghost predicate OnBefore(labels: seq<string>, states: seq<LayerState>, k: nat)
    requires |labels| == |states| && k < |states|
  {
    exists j :: 0 <= j < k && labels[j] == labels[k] && states[j] == On
  }

  /**
   The states after the radio-button pass over a label-sorted list: a layer
   that is On stays On only when no earlier layer with its label is On.
   */
  ghost function RadioPass(labels: seq<string>, states: seq<LayerState>): (r: seq<LayerState>)
    requires |labels| == |states|
    ensures |r| == |states|
  {
    seq(|states|, k requires 0 <= k < |states| => if states[k] == On && OnBefore(labels, states, k) then Off else states[k])
  }

  /** After the pass, no two layers with one label are both On. */
  lemma RadioAtMostOneOn(labels: seq<string>, states: seq<LayerState>, j: nat, k: nat)
    requires |labels| == |states| && j < k < |states| && labels[j] == labels[k]
    ensures RadioPass(labels, states)[j] == Off || RadioPass(labels, states)[k] == Off
  {
    if RadioPass(labels, states)[j] == On {
      assert states[j] == On;
    }
  }

  /**
   After the pass, every label that had a layer On still has one: the first
   layer with that label that was On.
   */
  lemma {:induction false} RadioKeepsFirstOn(labels: seq<string>, states: seq<LayerState>, i: nat) returns (k: nat)
    requires |labels| == |states| && i < |states| && states[i] == On
    ensures k <= i && labels[k] == labels[i] && states[k] == On
    ensures RadioPass(labels, states)[k] == On
    ensures forall j :: 0 <= j < k && labels[j] == labels[i] ==> states[j] == Off
    decreases i
  {
    if OnBefore(labels, states, i) {
      var j :| 0 <= j < i && labels[j] == labels[i] && states[j] == On;
      k := RadioKeepsFirstOn(labels, states, j);
    } else {
      k := i;
    }
  }

  /**
   The pass changes a state only from On to Off, and only for a layer that
   shares its label with another: a label held by one layer is left alone.
   */
  lemma RadioOnlyForcesOff(labels: seq<string>, states: seq<LayerState>, k: nat)
    requires |labels| == |states| && k < |states|
    requires RadioPass(labels, states)[k] != states[k]
    ensures states[k] == On && RadioPass(labels, states)[k] == Off
    ensures exists j :: 0 <= j < |labels| && j != k && labels[j] == labels[k]
  {
    var j :| 0 <= j < k && labels[j] == labels[k] && states[j] == On;
  }

  // ---------------------------------------------------------------------------
  // The /RBGroups array

  /** The end of the run of equal labels that starts at `i`, searched from `e` on. */
  function RunEnd(s: seq<Layer>, i: nat, e: nat): (r: nat)
    requires i < e <= |s|
    requires forall k :: i <= k < e ==> s[k].radioButton == s[i].radioButton
    ensures e <= r <= |s|
    ensures forall k :: i <= k < r ==> s[k].radioButton == s[i].radioButton
    ensures r < |s| ==> s[r].radioButton != s[i].radioButton
    decreases |s| - e
  {
    if e == |s| || s[e].radioButton != s[i].radioButton then e else RunEnd(s, i, e + 1)
  }

  /** The groups written for the runs from `i` on: one array per run of two or more layers. */
  function RBBody(s: seq<Layer>, i: nat): seq<Tok>
    requires i <= |s|
    decreases |s| - i
  {
    if i == |s| then []
    else
      var e := RunEnd(s, i, i + 1);
      (if e - i >= 2 then RefArray(Numbers(s[i..e])) else []) + RBBody(s, e)
  }

  /** The /RBGroups entry for the sorted radio layers `s`, omitted when there is no group. */
  function RBGroups(s: seq<Layer>): Option<seq<Tok>>
  {
    if |s| > 1 && RBBody(s, 0) != [] then Some([Open] + RBBody(s, 0) + [Close]) else None
  }

  /** Another layer of `s` has the label of `s[k]`. */
  ghost predicate Shared(s: seq<Layer>, k: nat)
    requires k < |s|
  {
    exists j :: 0 <= j < |s| && j != k && s[j].radioButton == s[k].radioButton
  }

  /** The object numbers of the layers from `i` on that share their label, in order. */
  ghost function SharedFrom(s: seq<Layer>, i: nat): seq<nat>
    requires i <= |s|
    decreases |s| - i
  {
    if i == |s| then [] else (if Shared(s, i) then [s[i].objectNumber] else []) + SharedFrom(s, i + 1)
  }

  /** The layers of `s` with the label of `s[i]` are exactly those of [i, e). */
  ghost predicate LabelClass(s: seq<Layer>, i: nat, e: nat)
    requires i < e <= |s|
  {
    forall j :: 0 <= j < |s| ==> (s[j].radioButton == s[i].radioButton <==> i <= j < e)
  }

  /** In a grouped list, a run is exactly the set of layers with its label. */
  lemma RunIsLabelClass(s: seq<Layer>, i: nat)
    requires Grouped(s) && RunStart(s, i) && i < |s|
    ensures LabelClass(s, i, RunEnd(s, i, i + 1))
  {
    var e := RunEnd(s, i, i + 1);
    RunStartSeparates(s, i);
    forall j | 0 <= j < |s|
      ensures s[j].radioButton == s[i].radioButton <==> i <= j < e
    {
      if j < i {
        assert s[j].radioButton != s[i].radioButton;
      }
    }
  }

  /** Inside a run [i, e) that holds every layer with its label, a layer is shared exactly when the run has two or more layers. */
  lemma {:induction false} SharedRun(s: seq<Layer>, i: nat, e: nat, k: nat)
    requires i < e <= |s| && i <= k <= e
    requires LabelClass(s, i, e)
    ensures SharedFrom(s, k) == (if e - i >= 2 then Numbers(s[k..e]) else []) + SharedFrom(s, e)
    decreases e - k
  {
    if k < e {
      SharedRun(s, i, e, k + 1);
      var rest := SharedFrom(s, k + 1);
      assert SharedFrom(s, k) == (if Shared(s, k) then [s[k].objectNumber] else []) + rest;
      if e - i >= 2 {
        var other := if k == i then i + 1 else i;
        assert s[other].radioButton == s[i].radioButton;
        assert s[k].radioButton == s[i].radioButton;
        assert Shared(s, k);
        NumbersCons(s, k, e);
        ConcatAssoc([s[k].objectNumber], Numbers(s[k + 1..e]), SharedFrom(s, e));
      } else {
        forall j | 0 <= j < |s| && j != k
          ensures s[j].radioButton != s[k].radioButton
        {
          assert s[k].radioButton == s[i].radioButton;
        }
        assert !Shared(s, k);
        assert [] + rest == rest;
      }
    } else {
      assert s[k..e] == [];
    }
  }

  /**
   The groups from a run start on reference exactly the layers that share
   their label with another, in sorted order, and are empty exactly when
   they reference nothing.
   */
  lemma {:induction false} RBBodyRefs(s: seq<Layer>, i: nat)
    requires Grouped(s) && RunStart(s, i)
    ensures RefsOf(RBBody(s, i)) == SharedFrom(s, i)
    ensures RBBody(s, i) == [] <==> SharedFrom(s, i) == []
    decreases |s| - i
  {
    if i < |s| {
      var e := RunEnd(s, i, i + 1);
      RBBodyRefs(s, e);
      RunIsLabelClass(s, i);
      SharedRun(s, i, e, i);
      RefsOfConcat(if e - i >= 2 then RefArray(Numbers(s[i..e])) else [], RBBody(s, e));
      if e - i >= 2 {
        RefArrayRefs(Numbers(s[i..e]));
      }
    }
  }

  /** No two layers of `s` carry the same label. */
  ghost predicate DistinctLabels(s: seq<Layer>)
  {
    forall j, k :: 0 <= j < k < |s| ==> s[j].radioButton != s[k].radioButton
  }

  /**
   /RBGroups references exactly the radio layers whose label another radio
   layer shares, in sorted order; a label held by a single layer never
   appears, and the entry is omitted exactly when no two layers share a
   label.
   */
  lemma RBGroupsRefs(s: seq<Layer>)
    requires Grouped(s)
    ensures RBGroups(s).Some? ==> RefsOf(RBGroups(s).value) == SharedFrom(s, 0)
    ensures RBGroups(s).None? <==> DistinctLabels(s)
  {
    RBBodyRefs(s, 0);
    SharedFromNone(s, 0);
    NoneSharedIffDistinctLabels(s);
    if RBGroups(s).Some? {
      RefsOfConcat([Open] + RBBody(s, 0), [Close]);
      RefsOfConcat([Open], RBBody(s, 0));
      assert RefsOf([Open]) == RefsOf([]);
      assert RefsOf([Close]) == RefsOf([]);
    }
  }

  /** Nothing from `i` on is shared exactly when no layer from `i` on has a label held by another. */
  lemma {:induction false} SharedFromNone(s: seq<Layer>, i: nat)
    requires i <= |s|
    ensures SharedFrom(s, i) == [] <==> forall k :: i <= k < |s| ==> !Shared(s, k)
    decreases |s| - i
  {
    if i < |s| {
      SharedFromNone(s, i + 1);
    }
  }

  /** No layer shares its label exactly when the labels are distinct. */
  lemma NoneSharedIffDistinctLabels(s: seq<Layer>)
    ensures (forall k :: 0 <= k < |s| ==> !Shared(s, k)) <==> DistinctLabels(s)
  {
    if DistinctLabels(s) {
      forall k | 0 <= k < |s|
        ensures !Shared(s, k)
      {
        forall j | 0 <= j < |s| && j != k
          ensures s[j].radioButton != s[k].radioButton
        {
          assert j < k ==> s[j].radioButton != s[k].radioButton;
          assert k < j ==> s[k].radioButton != s[j].radioButton;
        }
      }
    }
    if forall k :: 0 <= k < |s| ==> !Shared(s, k) {
      forall j, k | 0 <= j < k < |s|
        ensures s[j].radioButton != s[k].radioButton
      {
        assert !Shared(s, k);
      }
    }
  }

  // ---------------------------------------------------------------------------
  // The loop of the source

  /** Some layer in [ptr, q) was On. */
  ghost function OnWithin(states: seq<LayerState>, ptr: nat, q: nat): bool
    requires q <= |states|
    decreases q
  {
    if q <= ptr then false else OnWithin(states, ptr, q - 1) || states[q - 1] == On
  }

  lemma {:induction false} OnWithinExists(states: seq<LayerState>, ptr: nat, q: nat)
    requires q <= |states|
    ensures OnWithin(states, ptr, q) <==> exists j :: ptr <= j < q && states[j] == On
    decreases q
  {
    if q > ptr {
      OnWithinExists(states, ptr, q - 1);
    }
  }

  /** Over the run [ptr, ptr1), `after` keeps the first On layer and turns every later On layer Off. */
  ghost predicate RunForced(states: seq<LayerState>, after: seq<LayerState>, ptr: nat, ptr1: nat)
    requires ptr1 <= |states| == |after|
  {
    forall q :: ptr <= q < ptr1 ==> after[q] == if states[q] == On && OnWithin(states, ptr, q) then Off else states[q]
  }

  /** When [ptr, ptr1) holds exactly the layers with one label, the pass does on it what the run loop does. */
  lemma RunForcedByPass(s: seq<Layer>, states: seq<LayerState>, ptr: nat, ptr1: nat)
    requires |s| == |states| && ptr < ptr1 <= |states|
    requires LabelClass(s, ptr, ptr1)
    ensures RunForced(states, RadioPass(Labels(s), states), ptr, ptr1)
  {
    var labels := Labels(s);
    forall q | ptr <= q < ptr1
      ensures OnBefore(labels, states, q) <==> OnWithin(states, ptr, q)
    {
      OnWithinExists(states, ptr, q);
      if OnBefore(labels, states, q) {
        var j :| 0 <= j < q && labels[j] == labels[q] && states[j] == On;
        assert s[j].radioButton == s[ptr].radioButton;
      }
      if OnWithin(states, ptr, q) {
        var j :| ptr <= j < q && states[j] == On;
        assert labels[j] == labels[q];
      }
    }
  }

  /** One step of the run loop at `ptr2`, given whether an earlier layer of the run was On. */
  lemma ForceStep(states: seq<LayerState>, after: seq<LayerState>, ptr: nat, ptr1: nat, ptr2: nat, on: bool)
    requires ptr <= ptr2 < ptr1 <= |states| == |after|
    requires RunForced(states, after, ptr, ptr1) && on == OnWithin(states, ptr, ptr2)
    ensures after[ptr2] == if states[ptr2] == On && on then Off else states[ptr2]
    ensures (after[..ptr2] + states[ptr2..])[ptr2 := after[ptr2]] == after[..ptr2 + 1] + states[ptr2 + 1..]
  {
  }

  /**
   The run scan of the radio-button pass: for each run of two or more layers
   with one label it writes a group and forces every On layer after the
   first On one to Off. Layers with one label must stand together, as the
   preceding sort leaves them.
   */
  method ForceRadioRuns(rb: seq<Layer>) returns (rbArray: seq<Tok>)
    requires Grouped(rb) && Distinct(rb)
    modifies rb
    ensures rbArray == [Open] + RBBody(rb, 0)
    ensures StatesOf(rb) == RadioPass(Labels(rb), old(StatesOf(rb)))
  {
    ghost var states := StatesOf(rb);
    ghost var after := RadioPass(Labels(rb), states);
    rbArray := [Open];
    var end := |rb|;
    var ptr := 0;
    while ptr < end
      invariant 0 <= ptr <= end && RunStart(rb, ptr)
      invariant rbArray + RBBody(rb, ptr) == [Open] + RBBody(rb, 0)
      invariant forall q :: 0 <= q < |rb| ==> rb[q].state == if q < ptr then after[q] else states[q]
      decreases end - ptr
    {
      var ptr1 := RunLength(rb, ptr);
      RunStep(rb, states, ptr, ptr1);
      ghost var rest := RBBody(rb, ptr1);
      if ptr1 - ptr >= 2 {
        var group := ForceOneRun(rb, ptr, ptr1, states, after);
        ConcatAssoc(rbArray, group, rest);
        rbArray := rbArray + group;
      } else {
        assert [] + rest == rest;
      }
      ptr := ptr1;
    }
  }

  /** What the outer loop needs about one run [ptr, ptr1) of a grouped list. */
  lemma RunStep(rb: seq<Layer>, states: seq<LayerState>, ptr: nat, ptr1: nat)
    requires Grouped(rb) && RunStart(rb, ptr) && ptr < |rb| == |states|
    requires ptr1 == RunEnd(rb, ptr, ptr + 1)
    ensures RunStart(rb, ptr1)
    ensures RBBody(rb, ptr) == (if ptr1 - ptr >= 2 then RefArray(Numbers(rb[ptr..ptr1])) else []) + RBBody(rb, ptr1)
    ensures RunForced(states, RadioPass(Labels(rb), states), ptr, ptr1)
    ensures ptr1 - ptr < 2 ==> RadioPass(Labels(rb), states)[ptr] == states[ptr]
  {
    RunIsLabelClass(rb, ptr);
    RunForcedByPass(rb, states, ptr, ptr1);
    if ptr1 - ptr < 2 {
      ForceStep(states, RadioPass(Labels(rb), states), ptr, ptr1, ptr, false);
    }
  }

  /** The inner count of the source: the end of the run of equal labels that starts at `ptr`. */
  method RunLength(rb: seq<Layer>, ptr: nat) returns (ptr1: nat)
    requires ptr < |rb|
    ensures ptr1 == RunEnd(rb, ptr, ptr + 1)
  {
    ptr1 := ptr + 1;
    while ptr1 < |rb| && rb[ptr].radioButton == rb[ptr1].radioButton
      invariant ptr < ptr1 <= |rb|
      invariant forall k :: ptr <= k < ptr1 ==> rb[k].radioButton == rb[ptr].radioButton
    {
      ptr1 := ptr1 + 1;
    }
  }

  /**
   The inner loop over one run [ptr, ptr1) of two or more layers: it writes
   the group's array of references, keeps the first On layer On (`ptr3`
   remembers it) and sets every later On layer Off.
   */
  method ForceOneRun(rb: seq<Layer>, ptr: nat, ptr1: nat, ghost states: seq<LayerState>, ghost after: seq<LayerState>)
    returns (group: seq<Tok>)
    requires Distinct(rb) && ptr + 2 <= ptr1 <= |rb| == |states| == |after|
    requires RunForced(states, after, ptr, ptr1)
    requires forall q :: 0 <= q < |rb| ==> rb[q].state == if q < ptr then after[q] else states[q]
    modifies rb
    ensures group == RefArray(Numbers(rb[ptr..ptr1]))
    ensures forall q :: 0 <= q < |rb| ==> rb[q].state == if q < ptr1 then after[q] else states[q]
  {
    group := [Open];
    ghost var all := Numbers(rb[ptr..ptr1]);
    var ptr3 := -1;
    var ptr2 := ptr;
    while ptr2 < ptr1
      invariant ptr <= ptr2 <= ptr1
      invariant (ptr3 >= 0) == OnWithin(states, ptr, ptr2)
      invariant forall q :: 0 <= q < |rb| ==> rb[q].state == if q < ptr2 then after[q] else states[q]
      invariant group == [Open] + Spaced(all[..ptr2 - ptr])
    {
      group, ptr3 := ForceLayer(rb, ptr, ptr1, ptr2, ptr3, group, all, states, after);
      ghost var written := all[..ptr2 + 1 - ptr];
      ptr2 := ptr2 + 1;
      assert all[..ptr2 - ptr] == written;
    }
    assert all[..ptr2 - ptr] == all;
    ClosedArray(all);
    group := DropLast(group) + [Close];
  }

  /**
   The body of the inner loop for the layer at `ptr2`: its reference is
   written to the group; an On layer becomes the run's first On layer when
   there is none yet (`ptr3 < 0`), and is set Off otherwise.
   */
  method ForceLayer(rb: seq<Layer>, ptr: nat, ptr1: nat, ptr2: nat, ptr3: int, group: seq<Tok>,
                    ghost all: seq<nat>, ghost states: seq<LayerState>, ghost after: seq<LayerState>)
    returns (group': seq<Tok>, ptr3': int)
    requires ptr <= ptr2 < ptr1 <= |rb| == |states| == |after|
    requires all == Numbers(rb[ptr..ptr1]) && group == [Open] + Spaced(all[..ptr2 - ptr])
    requires RunForced(states, after, ptr, ptr1)
    requires Distinct(rb) && (ptr3 >= 0) == OnWithin(states, ptr, ptr2)
    requires forall q :: 0 <= q < |rb| ==> rb[q].state == if q < ptr2 then after[q] else states[q]
    modifies rb[ptr2]
    ensures forall q :: 0 <= q < |rb| ==> rb[q].state == if q < ptr2 + 1 then after[q] else states[q]
    ensures (ptr3' >= 0) == OnWithin(states, ptr, ptr2 + 1)
    ensures group' == [Open] + Spaced(all[..ptr2 + 1 - ptr])
  {
    SpacedStep(all, ptr2 - ptr);
    assert all[ptr2 - ptr] == rb[ptr2].objectNumber;
    group' := group + [Ref(rb[ptr2].objectNumber), Space];
    ForceStep(states, after, ptr, ptr1, ptr2, ptr3 >= 0);
    ptr3' := ptr3;
    if rb[ptr2].state == LayerState.On {
      if ptr3 < 0 {
        ptr3' := ptr2;
      } else {
        rb[ptr2].state := LayerState.Off;
      }
    }
    forall q | 0 <= q < |rb| && q != ptr2
      ensures rb[q] != rb[ptr2]
    {
      assert q < ptr2 ==> rb[q] != rb[ptr2];
      assert ptr2 < q ==> rb[ptr2] != rb[q];
    }
  }
}
