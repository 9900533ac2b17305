/**
 The layers control object of a document: the list of optional content
 groups, the display order of the layers panel, and the construction of
 the optional content properties dictionary (section 8.11.4.2 of
 ISO 32000-1) with its default configuration (section 8.11.4.3).
 */
module PdfLayersModel {
  import opened Wrappers
  import opened PdfTokens
  import opened LayerModel
  import opened LayerOrder
  import opened RadioGroups

  /** The part of the document the layers control object registers with. */
  class Document {
    var layers: PdfLayers?

    constructor ()
      ensures layers == null
    {
      layers := null;
    }
  }

  /**
   The entries CreateDictionary writes: /OCGs of the properties dictionary,
   and /Name, /ListMode, /Locked, /Order, /RBGroups and /OFF of its default
   configuration dictionary /D. `None` stands for an entry that is not
   written.
   */
  datatype LayersDictionary = LayersDictionary(
    ocgs: seq<Tok>,
    name: string,
    listMode: ListMode,
    locked: Option<seq<Tok>>,
    order: seq<Tok>,
    rbGroups: Option<seq<Tok>>,
    off: Option<seq<Tok>>)

  /** The /OCGs array: every layer once, in list order (a lone ']' when there is no layer). */
  function OcgsEntry(ls: seq<Layer>): seq<Tok>
  {
    if ls == [] then [Close] else RefArray(Numbers(ls))
  }

  /** /OCGs lists every layer once, in list order; with at least one layer it is a well-formed array. */
  lemma OcgsEntryShape(ls: seq<Layer>)
    ensures RefsOf(OcgsEntry(ls)) == Numbers(ls)
    ensures ls != [] ==> IsArray(OcgsEntry(ls)) && Separated(OcgsEntry(ls))
  {
    if ls == [] {
      assert RefsOf([Close]) == RefsOf([]) + [];
    } else {
      RefArrayRefs(Numbers(ls));
      RefArrayIsArray(Numbers(ls));
      RefArraySeparated(Numbers(ls));
    }
  }

  class PdfLayers {
    var name: string
    var listMode: ListMode
    var layerList: seq<Layer>
    var orderList: seq<OrderItem>

    /** Every layer is registered once: each one is a new object when it is added. */
    ghost predicate Valid()
      reads this
    {
      Distinct(layerList)
    }

    constructor (name: string)
      ensures this.name == name && listMode == AllPages
      ensures layerList == [] && orderList == [] && Valid()
    {
      this.name := name;
      listMode := AllPages;
      layerList := [];
      orderList := [];
    }

    /**
     The public constructor: a document has at most one layers control
     object, so a second one is refused.
     */
    static method Create(document: Document, name: string) returns (r: Result<PdfLayers, string>)
      modifies document
      ensures old(document.layers) != null ==>
                r == Failure("PdfLayers is already defined") && document.layers == old(document.layers)
      ensures old(document.layers) == null ==>
                && r.Success? && fresh(r.value) && document.layers == r.value
                && r.value.name == name && r.value.listMode == AllPages
                && r.value.layerList == [] && r.value.orderList == [] && r.value.Valid()
    {
      if document.layers != null {
        return Failure("PdfLayers is already defined");
      }
      var layers := new PdfLayers(name);
      document.layers := layers;
      r := Success(layers);
    }

    /** A new layer registers itself at the end of the layer list. */
    method AddLayer(objectNumber: nat, locked: LockLayer, radioButton: string, state: LayerState) returns (layer: Layer)
      requires Valid()
      modifies this`layerList
      ensures fresh(layer) && layer.objectNumber == objectNumber && layer.locked == locked
      ensures layer.radioButton == radioButton && layer.state == state
      ensures layerList == old(layerList) + [layer] && Valid()
    {
      layer := new Layer(objectNumber, locked, radioButton, state);
      layerList := layerList + [layer];
    }

    /** Puts a layer next in the layers panel. */
    method DisplayOrder(layer: Layer)
      modifies this`orderList
      ensures orderList == old(orderList) + [LayerItem(layer)]
    {
      orderList := orderList + [LayerItem(layer)];
    }

    /** Opens a group in the layers panel, titled unless the name is empty. */
    method DisplayOrderStartGroup(groupName: string := "")
      modifies this`orderList
      ensures orderList == old(orderList) + [GroupStart(groupName)]
    {
      orderList := orderList + [GroupStart(groupName)];
    }

    /** Closes the innermost open group of the layers panel. */
    method DisplayOrderEndGroup()
      modifies this`orderList
      ensures orderList == old(orderList) + [GroupEnd]
    {
      orderList := orderList + [GroupEnd];
    }

    /**
     Builds the optional content properties. The radio-button layers are
     sorted by label into `sorted`, which the contract names since the order
     of equal labels is not fixed; every On layer of a label after the first
     one in that order is turned Off, and nothing else changes state.
     */
    method CreateDictionary() returns (d: LayersDictionary, ghost sorted: seq<Layer>)
      requires Valid()
      modifies layerList
      ensures layerList == old(layerList) && orderList == old(orderList)
      ensures d.ocgs == OcgsEntry(layerList)
      ensures d.name == name && d.listMode == listMode
      ensures d.locked == OptionalArray(LockedNumbers(layerList))
      ensures d.order == if orderList == [] then d.ocgs else OrderArray(orderList)
      ensures multiset(sorted) == multiset(RadioMembers(layerList)) && SortedByLabel(sorted)
      ensures forall i :: 0 <= i < |sorted| ==> sorted[i] in layerList
      ensures d.rbGroups == RBGroups(sorted)
      ensures StatesOf(sorted) == RadioPass(Labels(sorted), old(StatesOf(sorted)))
      ensures forall l :: l in layerList && !IsRadioMember(l) ==> l.state == old(l.state)
      ensures d.off == OptionalArray(OffNumbers(layerList))
    {
      var ls := layerList;
      var ocgs, locked, radioButtons := LayerEntries(ls);
      var order;
      if |orderList| == 0 {
        order := ocgs;
      } else {
        order := FlattenOrder(orderList);
      }
      var rbGroups, off;
      label beforeRadio:
      rbGroups, off, sorted := RadioEntries(ls, radioButtons);
      assert layerList == ls;
      assert old@beforeRadio(StatesOf(sorted)) == old(StatesOf(sorted));
      d := LayersDictionary(ocgs, name, listMode, locked, order, rbGroups, off);
    }
  }

  /** The /OCGs and /Locked entries, and the layers that take part in radio grouping. */
  method LayerEntries(ls: seq<Layer>) returns (ocgs: seq<Tok>, locked: Option<seq<Tok>>, radioButtons: seq<Layer>)
    ensures ocgs == OcgsEntry(ls)
    ensures locked == OptionalArray(LockedNumbers(ls))
    ensures radioButtons == RadioMembers(ls)
  {
    var allLayers, lockedLayers;
    allLayers, lockedLayers, radioButtons := CollectLayers(ls);
    ClosedArray(Numbers(ls));
    ocgs := DropLast(allLayers) + [Close];
    OptionalClosedArray(LockedNumbers(ls));
    lockedLayers := DropLast(lockedLayers);
    locked := if |lockedLayers| != 0 then Some(lockedLayers + [Close]) else None;
  }

  /** The radio-button pass over the radio members of `ls`, then the /OFF entry of the states it leaves. */
  method RadioEntries(ls: seq<Layer>, radioButtons: seq<Layer>) returns (rbGroups: Option<seq<Tok>>, off: Option<seq<Tok>>, ghost sorted: seq<Layer>)
    requires Distinct(ls) && radioButtons == RadioMembers(ls)
    modifies ls
    ensures multiset(sorted) == multiset(radioButtons) && SortedByLabel(sorted)
    ensures forall i :: 0 <= i < |sorted| ==> sorted[i] in ls
    ensures rbGroups == RBGroups(sorted)
    ensures StatesOf(sorted) == RadioPass(Labels(sorted), old(StatesOf(sorted)))
    ensures forall l :: l in ls && !IsRadioMember(l) ==> l.state == old(l.state)
    ensures off == OptionalArray(OffNumbers(ls))
  {
    RadioMembersSubset(ls);
    assert forall i :: 0 <= i < |radioButtons| ==> radioButtons[i] in ls;
    rbGroups, sorted := RadioButtonGroups(radioButtons);
    ghost var after := StatesOf(sorted);
    off := OffEntry(ls);
    assert StatesOf(sorted) == after;
  }

  /**
   The radio-button pass: with two or more radio layers, sort them by label,
   force the runs and write /RBGroups when some run has two or more layers.
   */
  method RadioButtonGroups(radioButtons: seq<Layer>) returns (rbGroups: Option<seq<Tok>>, ghost sorted: seq<Layer>)
    requires Distinct(radioButtons)
    modifies radioButtons
    ensures multiset(sorted) == multiset(radioButtons) && SortedByLabel(sorted)
    ensures forall i :: 0 <= i < |sorted| ==> sorted[i] in radioButtons
    ensures rbGroups == RBGroups(sorted)
    ensures StatesOf(sorted) == RadioPass(Labels(sorted), old(StatesOf(sorted)))
  {
    rbGroups := None;
    sorted := radioButtons;
    if |radioButtons| > 1 {
      var rb := SortByLabel(radioButtons);
      sorted := rb;
      DistinctPermutation(rb, radioButtons);
      SortedIsGrouped(rb);
      forall i | 0 <= i < |rb|
        ensures rb[i] in radioButtons
      {
        assert rb[i] in multiset(rb);
      }
      var rbArray := ForceRadioRuns(rb);
      if |rbArray| > 1 {
        rbGroups := Some(rbArray + [Close]);
      }
    }
  }

  /** The /OFF entry: the layers that are Off, in list order, omitted when there is none. */
  method OffEntry(ls: seq<Layer>) returns (off: Option<seq<Tok>>)
    ensures off == OptionalArray(OffNumbers(ls))
  {
    var offLayers := CollectOff(ls);
    OptionalClosedArray(OffNumbers(ls));
    offLayers := DropLast(offLayers);
    off := if |offLayers| != 0 then Some(offLayers + [Close]) else None;
  }

  /**
   The loop over the layer list: "n 0 R " for every layer, the same for
   every locked layer, and the layers that take part in radio grouping.
   */
  method CollectLayers(ls: seq<Layer>) returns (allLayers: seq<Tok>, lockedLayers: seq<Tok>, radioButtons: seq<Layer>)
    ensures allLayers == [Open] + Spaced(Numbers(ls))
    ensures lockedLayers == [Open] + Spaced(LockedNumbers(ls))
    ensures radioButtons == RadioMembers(ls)
  {
    allLayers, lockedLayers, radioButtons := [Open], [Open], [];
    for i := 0 to |ls|
      invariant allLayers == [Open] + Spaced(Numbers(ls[..i]))
      invariant lockedLayers == [Open] + Spaced(LockedNumbers(ls[..i]))
      invariant radioButtons == RadioMembers(ls[..i])
    {
      var layer := ls[i];
      PrefixSnoc(ls, i);
      AppendSpaced(Numbers(ls[..i]), layer.objectNumber);
      ConcatAssoc([Open], Spaced(Numbers(ls[..i])), [Ref(layer.objectNumber), Space]);
      allLayers := allLayers + [Ref(layer.objectNumber), Space];
      if layer.locked == Locked {
        AppendSpaced(LockedNumbers(ls[..i]), layer.objectNumber);
        ConcatAssoc([Open], Spaced(LockedNumbers(ls[..i])), [Ref(layer.objectNumber), Space]);
        lockedLayers := lockedLayers + [Ref(layer.objectNumber), Space];
      } else {
        assert LockedNumbers(ls[..i]) + [] == LockedNumbers(ls[..i]);
      }
      if !IsNullOrWhiteSpace(layer.radioButton) {
        radioButtons := radioButtons + [layer];
      }
    }
    assert ls[..|ls|] == ls;
  }

  /** The loop over the layer list after the radio pass: "n 0 R " for every layer that is Off. */
  method CollectOff(ls: seq<Layer>) returns (offLayers: seq<Tok>)
    ensures offLayers == [Open] + Spaced(OffNumbers(ls))
  {
    offLayers := [Open];
    for i := 0 to |ls|
      invariant offLayers == [Open] + Spaced(OffNumbers(ls[..i]))
    {
      var layer := ls[i];
      OffPrefixSnoc(ls, i);
      if layer.state == Off {
        AppendSpaced(OffNumbers(ls[..i]), layer.objectNumber);
        ConcatAssoc([Open], Spaced(OffNumbers(ls[..i])), [Ref(layer.objectNumber), Space]);
        offLayers := offLayers + [Ref(layer.objectNumber), Space];
      } else {
        assert OffNumbers(ls[..i]) + [] == OffNumbers(ls[..i]);
      }
    }
    assert ls[..|ls|] == ls;
  }
}
