/**
 The entities of the optional-content (layer) model: a layer, the tokens of
 the layers panel display order, and the selections of layers the
 configuration dictionary lists.
 */
module LayerModel {
  datatype LayerState = On | Off

  datatype LockLayer = Unlocked | Locked

  datatype ListMode = AllPages | VisiblePages

  /**
   One optional content group. Its object number, lock flag and radio-button
   label are fixed while the dictionary is built; its visibility state is the
   one attribute the dictionary construction may change.
   */
  class Layer {
    const objectNumber: nat
    const locked: LockLayer
    const radioButton: string  // the empty string stands for a null label
    var state: LayerState

    constructor (objectNumber: nat, locked: LockLayer, radioButton: string, state: LayerState)
      ensures this.objectNumber == objectNumber && this.locked == locked
      ensures this.radioButton == radioButton && this.state == state
    {
      this.objectNumber := objectNumber;
      this.locked := locked;
      this.radioButton := radioButton;
      this.state := state;
    }
  }

  /** One token of the layers panel display order: a layer, the start of a (possibly untitled) group, or its end. */
  datatype OrderItem =
    | LayerItem(layer: Layer)
    | GroupStart(groupName: string)
    | GroupEnd

  /** .NET's char.IsWhiteSpace: the Unicode space separators, line and paragraph separators, and the white-space controls. */
  predicate IsWhiteSpace(c: char)
  {
    || c == ' ' || ('\t' <= c <= '\r') || c == '\U{85}' || c == '\U{A0}' || c == '\U{1680}'
    || ('\U{2000}' <= c <= '\U{200A}') || c == '\U{2028}' || c == '\U{2029}' || c == '\U{202F}'
    || c == '\U{205F}' || c == '\U{3000}'
  }

  /** string.IsNullOrWhiteSpace, with the empty string standing for null. */
  predicate IsNullOrWhiteSpace(s: string)
  {
    forall i :: 0 <= i < |s| ==> IsWhiteSpace(s[i])
  }

  /** A layer takes part in radio-button grouping when its label has a character other than white space. */
  predicate IsRadioMember(l: Layer)
  {
    !IsNullOrWhiteSpace(l.radioButton)
  }

  /** No layer appears twice. */
  ghost predicate Distinct(ls: seq<Layer>)
  {
    forall i, j :: 0 <= i < j < |ls| ==> ls[i] != ls[j]
  }

  function Numbers(ls: seq<Layer>): (ns: seq<nat>)
    ensures |ns| == |ls|
    ensures forall i :: 0 <= i < |ls| ==> ns[i] == ls[i].objectNumber
  {
    if ls == [] then [] else Numbers(ls[..|ls| - 1]) + [ls[|ls| - 1].objectNumber]
  }

  /** Extending a slice by one layer appends that layer's number. */
  lemma NumbersSnoc(ls: seq<Layer>, i: nat, j: nat)
    requires i <= j < |ls|
    ensures Numbers(ls[i..j + 1]) == Numbers(ls[i..j]) + [ls[j].objectNumber]
  {
    assert ls[i..j + 1][..j - i] == ls[i..j];
  }

  /** A slice's numbers are its first layer's number followed by the numbers of the rest. */
  lemma NumbersCons(ls: seq<Layer>, i: nat, j: nat)
    requires i < j <= |ls|
    ensures Numbers(ls[i..j]) == [ls[i].objectNumber] + Numbers(ls[i + 1..j])
  {
    var a, b := Numbers(ls[i..j]), [ls[i].objectNumber] + Numbers(ls[i + 1..j]);
    assert |a| == |b|;
    forall k | 0 <= k < |a|
      ensures a[k] == b[k]
    {
    }
  }

  function Labels(ls: seq<Layer>): (labels: seq<string>)
    ensures |labels| == |ls|
    ensures forall i :: 0 <= i < |ls| ==> labels[i] == ls[i].radioButton
  {
    if ls == [] then [] else Labels(ls[..|ls| - 1]) + [ls[|ls| - 1].radioButton]
  }

  function StatesOf(ls: seq<Layer>): (states: seq<LayerState>)
    reads ls
    ensures |states| == |ls|
    ensures forall i :: 0 <= i < |ls| ==> states[i] == ls[i].state
  {
    if ls == [] then [] else StatesOf(ls[..|ls| - 1]) + [ls[|ls| - 1].state]
  }

  /** The object numbers of the locked layers, in list order. */
  function LockedNumbers(ls: seq<Layer>): seq<nat>
  {
    if ls == [] then []
    else LockedNumbers(ls[..|ls| - 1]) + (if ls[|ls| - 1].locked == Locked then [ls[|ls| - 1].objectNumber] else [])
  }

  /** The object numbers of the layers that are currently Off, in list order. */
  function OffNumbers(ls: seq<Layer>): seq<nat>
    reads ls
  {
    if ls == [] then []
    else OffNumbers(ls[..|ls| - 1]) + (if ls[|ls| - 1].state == Off then [ls[|ls| - 1].objectNumber] else [])
  }

  /** The layers that take part in radio-button grouping, in list order. */
  function RadioMembers(ls: seq<Layer>): seq<Layer>
  {
    if ls == [] then []
    else RadioMembers(ls[..|ls| - 1]) + (if IsRadioMember(ls[|ls| - 1]) then [ls[|ls| - 1]] else [])
  }

  /** One more layer of a prefix: the filters of the prefix grow by at most that layer. */
  lemma PrefixSnoc(ls: seq<Layer>, i: nat)
    requires i < |ls|
    ensures Numbers(ls[..i + 1]) == Numbers(ls[..i]) + [ls[i].objectNumber]
    ensures LockedNumbers(ls[..i + 1]) == LockedNumbers(ls[..i]) + (if ls[i].locked == Locked then [ls[i].objectNumber] else [])
    ensures RadioMembers(ls[..i + 1]) == RadioMembers(ls[..i]) + (if IsRadioMember(ls[i]) then [ls[i]] else [])
  {
    assert ls[..i + 1][..i] == ls[..i];
  }

  /** One more layer of a prefix: the Off filter grows by at most that layer. */
  lemma OffPrefixSnoc(ls: seq<Layer>, i: nat)
    requires i < |ls|
    ensures OffNumbers(ls[..i + 1]) == OffNumbers(ls[..i]) + (if ls[i].state == Off then [ls[i].objectNumber] else [])
  {
    assert ls[..i + 1][..i] == ls[..i];
  }

  /** A number is listed as locked exactly when some layer of the list with that number is locked. */
  lemma {:induction false} LockedNumbersMembers(ls: seq<Layer>)
    ensures forall n :: n in LockedNumbers(ls) <==>
              exists i :: 0 <= i < |ls| && ls[i].locked == Locked && ls[i].objectNumber == n
    decreases |ls|
  {
    if ls != [] {
      var p := ls[..|ls| - 1];
      LockedNumbersMembers(p);
      assert forall i :: 0 <= i < |p| ==> p[i] == ls[i];
    }
  }

  /** A number is listed as Off exactly when some layer of the list with that number is Off. */
  lemma {:induction false} OffNumbersMembers(ls: seq<Layer>)
    ensures forall n :: n in OffNumbers(ls) <==>
              exists i :: 0 <= i < |ls| && ls[i].state == Off && ls[i].objectNumber == n
    decreases |ls|
  {
    if ls != [] {
      var p := ls[..|ls| - 1];
      OffNumbersMembers(p);
      assert forall i :: 0 <= i < |p| ==> p[i] == ls[i];
    }
  }

  /** The radio members are exactly the layers of the list with a non-blank label, each once. */
  lemma {:induction false} RadioMembersSubset(ls: seq<Layer>)
    requires Distinct(ls)
    ensures Distinct(RadioMembers(ls))
    ensures forall l :: l in RadioMembers(ls) <==> l in ls && IsRadioMember(l)
    decreases |ls|
  {
    if ls != [] {
      var p := ls[..|ls| - 1];
      assert ls == p + [ls[|ls| - 1]];
      RadioMembersSubset(p);
    }
  }

  /** A permutation of a list without repetitions has none either. */
  lemma DistinctPermutation(a: seq<Layer>, b: seq<Layer>)
    requires multiset(a) == multiset(b)
    requires Distinct(b)
    ensures Distinct(a)
  {
    DistinctCounts(b);
    forall i, j | 0 <= i < j < |a|
      ensures a[i] != a[j]
    {
      if a[i] == a[j] {
        TwiceCounted(a, i, j);
        assert false;
      }
    }
  }

  lemma {:induction false} DistinctCounts(b: seq<Layer>)
    requires Distinct(b)
    ensures forall l :: multiset(b)[l] <= 1
    decreases |b|
  {
    if b != [] {
      var p := b[..|b| - 1];
      assert b == p + [b[|b| - 1]];
      DistinctCounts(p);
    }
  }

  lemma TwiceCounted(a: seq<Layer>, i: nat, j: nat)
    requires i < j < |a| && a[i] == a[j]
    ensures multiset(a)[a[i]] >= 2
  {
    assert a == a[..i] + [a[i]] + a[i + 1..j] + [a[j]] + a[j + 1..];
  }
}
