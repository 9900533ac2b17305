/**
 A page of the document: the contents streams drawn on it, in the order
 they were added, and the /Contents and /Resources entries of the page
 object (section 7.7.3.3 of ISO 32000-1) written when the page is closed.
 */
module PdfPageModel {
  import opened Wrappers
  import opened PdfTokens
  import opened SortedResources

  /**
   A contents stream. Its object number is fixed; the page marks it as page
   contents when it is added, and its resource objects (by object number)
   are `None` while it uses none.
   */
  class Contents {
    const objectNumber: nat
    var pageContents: bool
    var resObjects: Option<seq<nat>>

    constructor (objectNumber: nat, resObjects: Option<seq<nat>>)
      ensures this.objectNumber == objectNumber && this.resObjects == resObjects
      ensures !pageContents
    {
      this.objectNumber := objectNumber;
      this.resObjects := resObjects;
      pageContents := false;
    }
  }

  /**
   The entries CloseObject adds to the page dictionary: none when no
   contents stream was added, otherwise /Contents and the resource objects
   handed to the resources dictionary builder (`None` when that is null).
   */
  datatype PageEntries =
    | NoEntries
    | Entries(contents: seq<Tok>, resources: Option<seq<nat>>)

  function ContentsNumbers(cs: seq<Contents>): (ns: seq<nat>)
    ensures |ns| == |cs|
    ensures forall i :: 0 <= i < |cs| ==> ns[i] == cs[i].objectNumber
  {
    if cs == [] then [] else ContentsNumbers(cs[..|cs| - 1]) + [cs[|cs| - 1].objectNumber]
  }

  /** The resource objects of a stream, as a set; a stream without resources contributes none. */
  ghost function ResourcesOf(c: Contents): set<nat>
    reads c
  {
    match c.resObjects
    case None => {}
    case Some(rs) => Elements(rs)
  }

  /** Every resource object used by some stream of `cs`. */
  ghost function ResourceUnion(cs: seq<Contents>): set<nat>
    reads set c | c in cs
  {
    if cs == [] then {} else ResourceUnion(cs[..|cs| - 1]) + ResourcesOf(cs[|cs| - 1])
  }

  /** A resource object is in the union exactly when some stream of the list uses it. */
  lemma {:induction false} ResourceUnionMembers(cs: seq<Contents>)
    ensures forall x :: x in ResourceUnion(cs) <==> exists i :: 0 <= i < |cs| && x in ResourcesOf(cs[i])
    decreases |cs|
  {
    if cs != [] {
      var p := cs[..|cs| - 1];
      ResourceUnionMembers(p);
      assert forall i :: 0 <= i < |p| ==> p[i] == cs[i];
    }
  }

  /**
   The union depends only on which streams there are: listing them in
   another order, or listing one twice, does not change it.
   */
  lemma ResourceUnionSameStreams(cs: seq<Contents>, ds: seq<Contents>)
    requires forall c :: c in cs <==> c in ds
    ensures ResourceUnion(cs) == ResourceUnion(ds)
  {
    ResourceUnionMembers(cs);
    ResourceUnionMembers(ds);
    forall x | x in ResourceUnion(cs)
      ensures x in ResourceUnion(ds)
    {
      var i :| 0 <= i < |cs| && x in ResourcesOf(cs[i]);
      assert cs[i] in ds;
      var j :| 0 <= j < |ds| && ds[j] == cs[i];
    }
    forall x | x in ResourceUnion(ds)
      ensures x in ResourceUnion(cs)
    {
      var j :| 0 <= j < |ds| && x in ResourcesOf(ds[j]);
      assert ds[j] in cs;
      var i :| 0 <= i < |cs| && cs[i] == ds[j];
    }
  }

  /**
   The merged resource list of a page is the one strictly sorted list of
   its resource union: any two lists that meet CloseObject's promise for
   streams that are the same up to order are equal.
   */
  lemma MergedResourcesUnique(cs: seq<Contents>, ds: seq<Contents>, r: seq<nat>, q: seq<nat>)
    requires forall c :: c in cs <==> c in ds
    requires StrictlySorted(r) && Elements(r) == ResourceUnion(cs)
    requires StrictlySorted(q) && Elements(q) == ResourceUnion(ds)
    ensures r == q
  {
    ResourceUnionSameStreams(cs, ds);
    StrictlySortedUnique(r, q);
  }

  class Page {
    var contentsArray: Option<seq<Contents>>

    /** The list of streams, once created, holds at least the stream it was created for. */
    ghost predicate Valid()
      reads this
    {
      contentsArray.Some? ==> contentsArray.value != []
    }

    constructor ()
      ensures contentsArray == None && Valid()
    {
      contentsArray := None;
    }

    /** Marks the stream as page contents and appends it, creating the list on first use. */
    method AddContents(contents: Contents)
      modifies this, contents
      ensures Valid()
      ensures contents.pageContents
      ensures contents.resObjects == old(contents.resObjects)
      ensures contentsArray == Some(old(if contentsArray.Some? then contentsArray.value else []) + [contents])
      ensures CurrentContents() == Some(contents)
    {
      contents.pageContents := true;
      if contentsArray.None? {
        contentsArray := Some([]);
      }
      contentsArray := Some(contentsArray.value + [contents]);
    }

    /** The stream added last, or `None` when there is none. */
    function CurrentContents(): (r: Option<Contents>)
      reads this
      ensures r.None? <==> contentsArray.None? || contentsArray.value == []
      ensures r.Some? ==> r.value in contentsArray.value
    {
      if contentsArray.None? || |contentsArray.value| == 0 then None
      else Some(contentsArray.value[|contentsArray.value| - 1])
    }

    /**
     Writes /Contents and collects the resources when the page is closed.
     One stream: the array of its one reference, and its own resource list
     as it is. Several streams: the array of their references in the order
     they were added, and the strictly sorted union of their resources.
     */
    method CloseObject() returns (e: PageEntries)
      ensures contentsArray.None? ==> e == NoEntries
      ensures contentsArray.Some? && |contentsArray.value| == 1 ==>
                e == Entries(RefArray([contentsArray.value[0].objectNumber]), contentsArray.value[0].resObjects)
      ensures contentsArray.Some? && |contentsArray.value| != 1 ==>
                && e.Entries?
                && e.contents == (if contentsArray.value == [] then [Close] else RefArray(ContentsNumbers(contentsArray.value)))
                && e.resources.Some?
                && StrictlySorted(e.resources.value)
                && Elements(e.resources.value) == ResourceUnion(contentsArray.value)
    {
      if contentsArray.None? {
        return NoEntries;
      }
      var cs := contentsArray.value;
      if |cs| == 1 {
        assert ContentsNumbers(cs) == [cs[0].objectNumber];
        return Entries(RefArray([cs[0].objectNumber]), cs[0].resObjects);
      }
      var contentsStr := ContentsReferences(cs);
      ClosedArray(ContentsNumbers(cs));
      contentsStr := DropLast(contentsStr) + [Close];
      var resObjects := MergeResources(cs);
      e := Entries(contentsStr, Some(resObjects));
    }
  }

  /** "[" followed by "n 0 R " for every stream, in order. */
  method ContentsReferences(cs: seq<Contents>) returns (t: seq<Tok>)
    ensures t == [Open] + Spaced(ContentsNumbers(cs))
  {
    t := [Open];
    for i := 0 to |cs|
      invariant t == [Open] + Spaced(ContentsNumbers(cs[..i]))
    {
      assert cs[..i + 1][..i] == cs[..i];
      AppendSpaced(ContentsNumbers(cs[..i]), cs[i].objectNumber);
      ConcatAssoc([Open], Spaced(ContentsNumbers(cs[..i])), [Ref(cs[i].objectNumber), Space]);
      t := t + [Ref(cs[i].objectNumber), Space];
    }
    assert cs[..|cs|] == cs;
  }

  /**
   The resource objects of all the streams, each once, in increasing
   order: every resource of every stream that has resources is searched for
   and inserted where it belongs unless it is already there.
   */
  method MergeResources(cs: seq<Contents>) returns (resObjects: seq<nat>)
    ensures StrictlySorted(resObjects)
    ensures Elements(resObjects) == ResourceUnion(cs)
  {
    resObjects := [];
    for i := 0 to |cs|
      invariant StrictlySorted(resObjects)
      invariant Elements(resObjects) == ResourceUnion(cs[..i])
    {
      assert cs[..i + 1][..i] == cs[..i];
      if cs[i].resObjects.Some? {
        var rs := cs[i].resObjects.value;
        ghost var before := Elements(resObjects);
        for j := 0 to |rs|
          invariant StrictlySorted(resObjects)
          invariant Elements(resObjects) == before + Elements(rs[..j])
        {
          assert Elements(rs[..j + 1]) == Elements(rs[..j]) + {rs[j]} by {
            assert rs[..j + 1] == rs[..j] + [rs[j]];
          }
          resObjects := InsertIfAbsent(resObjects, rs[j]);
        }
        assert rs[..|rs|] == rs;
      }
    }
    assert cs[..|cs|] == cs;
  }
}
