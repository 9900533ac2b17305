/**
 The /Order entry of the default optional content configuration (section
 8.11.4.3 of ISO 32000-1): the display-order tokens flattened, left to right,
 into one bracketed array whose nested arrays are the groups of the layers
 panel.
 */
module LayerOrder {
  import opened PdfTokens
  import opened LayerModel

  /** What one display-order token appends to the builder. */
  function Step(acc: seq<Tok>, item: OrderItem): (r: seq<Tok>)
    requires |acc| > 0
    ensures |r| > 0 && (acc[0] != Space ==> r[0] == acc[0])
  {
    if item.LayerItem? then acc + Tail(item) else TrimSpace(acc) + Tail(item)
  }

  /** The builder after the tokens `items`, starting from "[". */
  function Fold(items: seq<OrderItem>): (t: seq<Tok>)
    ensures |t| > 0 && t[0] == Open
  {
    if items == [] then [Open] else Step(Fold(items[..|items| - 1]), items[|items| - 1])
  }

  /** The /Order array written for a non-empty display-order list. */
  function OrderArray(items: seq<OrderItem>): seq<Tok>
  {
    TrimSpace(Fold(items)) + [Close]
  }

  function ItemRefs(x: OrderItem): seq<nat>
  {
    if x.LayerItem? then [x.layer.objectNumber] else []
  }

  function ItemTitles(x: OrderItem): seq<string>
  {
    if x.GroupStart? && x.groupName != "" then [x.groupName] else []
  }

  function ItemNest(x: OrderItem): int
  {
    match x
    case GroupStart(_) => 1
    case GroupEnd => -1
    case LayerItem(_) => 0
  }

  /** The object numbers of the layer tokens, in display order. */
  function LayerRefs(items: seq<OrderItem>): seq<nat>
  {
    if items == [] then [] else LayerRefs(items[..|items| - 1]) + ItemRefs(items[|items| - 1])
  }

  /** The non-empty group names, in display order. */
  function GroupTitles(items: seq<OrderItem>): seq<string>
  {
    if items == [] then [] else GroupTitles(items[..|items| - 1]) + ItemTitles(items[|items| - 1])
  }

  /** Group starts minus group ends: the nesting depth after `items`. */
  function Nest(items: seq<OrderItem>): int
  {
    if items == [] then 0 else Nest(items[..|items| - 1]) + ItemNest(items[|items| - 1])
  }

  /** No prefix of the tokens ends more groups than it starts. */
  ghost predicate NeverUnderflows(items: seq<OrderItem>)
  {
    forall j :: 0 <= j <= |items| ==> Nest(items[..j]) >= 0
  }

  /** Every group end closes an open group and every group is closed. */
  ghost predicate WellNested(items: seq<OrderItem>)
  {
    NeverUnderflows(items) && Nest(items) == 0
  }

  // ---------------------------------------------------------------------------
  // The loop of the source

  /** The flattening loop: one pass over the tokens, trimming a separator before every bracket. */
  method FlattenOrder(items: seq<OrderItem>) returns (t: seq<Tok>)
    ensures t == OrderArray(items)
  {
    t := [Open];
    for i := 0 to |items|
      invariant t == Fold(items[..i])
    {
      assert items[..i + 1][..i] == items[..i];
      match items[i]
      case LayerItem(layer) =>
        t := t + [Ref(layer.objectNumber), Space];
      case GroupStart(name) =>
        if t[|t| - 1] == Space {
          t := t[..|t| - 1];
        }
        t := t + [Open];
        if name != "" {
          t := t + [Title(name)];
        }
      case GroupEnd =>
        if t[|t| - 1] == Space {
          t := t[..|t| - 1];
        }
        t := t + [Close];
    }
    assert items[..|items|] == items;
    if t[|t| - 1] == Space {
      t := t[..|t| - 1];
    }
    t := t + [Close];
  }

  // ---------------------------------------------------------------------------
  // References, titles and depth

  /** Dropping a separator loses no reference and no title, and changes no depth. */
  lemma TrimSpaceRefs(t: seq<Tok>)
    requires |t| > 0
    ensures RefsOf(TrimSpace(t)) == RefsOf(t)
    ensures TitlesOf(TrimSpace(t)) == TitlesOf(t)
    ensures Depth(TrimSpace(t)) == Depth(t)
  {
  }

  /** What one token adds to the references, the titles and the depth of the builder. */
  lemma StepCounts(acc: seq<Tok>, x: OrderItem)
    requires |acc| > 0
    ensures RefsOf(Step(acc, x)) == RefsOf(acc) + ItemRefs(x)
    ensures TitlesOf(Step(acc, x)) == TitlesOf(acc) + ItemTitles(x)
    ensures Depth(Step(acc, x)) == Depth(acc) + ItemNest(x)
  {
    var tail := Tail(x);
    if x.LayerItem? {
      AppendCounts(acc, tail);
    } else {
      TrimSpaceRefs(acc);
      AppendCounts(TrimSpace(acc), tail);
    }
    TailCounts(x);
  }

  /** The tokens one display-order token appends after any separator trimming. */
  function Tail(x: OrderItem): seq<Tok>
  {
    match x
    case LayerItem(layer) => [Ref(layer.objectNumber), Space]
    case GroupStart(name) => [Open] + (if name != "" then [Title(name)] else [])
    case GroupEnd => [Close]
  }

  lemma TailCounts(x: OrderItem)
    ensures RefsOf(Tail(x)) == ItemRefs(x)
    ensures TitlesOf(Tail(x)) == ItemTitles(x)
    ensures Depth(Tail(x)) == ItemNest(x)
    ensures 0 < |Tail(x)| <= 2 && Delta(Tail(x)[0]) == ItemNest(x)
    ensures forall k :: 1 <= k < |Tail(x)| ==> Delta(Tail(x)[k]) == 0
  {
    var b := Tail(x);
    assert b[..0] == [];
    if |b| == 2 {
      assert b[..1] == [b[0]];
    }
    match x {
      case LayerItem(layer) =>
        assert RefsOf([Ref(layer.objectNumber)]) == RefsOf([]) + [layer.objectNumber];
        assert RefsOf(b) == RefsOf([Ref(layer.objectNumber)]) + [];
        assert TitlesOf([Ref(layer.objectNumber)]) == TitlesOf([]);
        assert Depth([Ref(layer.objectNumber)]) == Depth([]);
      case GroupStart(name) =>
        assert RefsOf([Open]) == RefsOf([]) && TitlesOf([Open]) == TitlesOf([]);
        assert Depth([Open]) == Depth([]) + 1;
        if name != "" {
          assert TitlesOf(b) == TitlesOf([Open]) + [name];
        }
      case GroupEnd =>
        assert RefsOf(b) == RefsOf([]) && TitlesOf(b) == TitlesOf([]);
        assert Depth(b) == Depth([]) - 1;
    }
  }

  lemma AppendCounts(a: seq<Tok>, b: seq<Tok>)
    ensures RefsOf(a + b) == RefsOf(a) + RefsOf(b)
    ensures TitlesOf(a + b) == TitlesOf(a) + TitlesOf(b)
    ensures Depth(a + b) == Depth(a) + Depth(b)
  {
    RefsOfConcat(a, b);
    TitlesOfConcat(a, b);
    DepthConcat(a, b);
  }

  lemma {:induction false} FoldCounts(items: seq<OrderItem>)
    ensures RefsOf(Fold(items)) == LayerRefs(items)
    ensures TitlesOf(Fold(items)) == GroupTitles(items)
    ensures Depth(Fold(items)) == 1 + Nest(items)
    decreases |items|
  {
    if items == [] {
      assert RefsOf([Open]) == RefsOf([]);
      assert TitlesOf([Open]) == TitlesOf([]);
      assert Depth([Open]) == Depth([]) + 1;
    } else {
      var p := items[..|items| - 1];
      FoldCounts(p);
      StepCounts(Fold(p), items[|items| - 1]);
    }
  }

  /**
   Ignoring brackets, separators and titles, the /Order array references
   exactly the layer tokens, in display order; its titles are exactly the
   non-empty group names, in display order.
   */
  lemma OrderRefs(items: seq<OrderItem>)
    ensures RefsOf(OrderArray(items)) == LayerRefs(items)
    ensures TitlesOf(OrderArray(items)) == GroupTitles(items)
  {
    FoldCounts(items);
    TrimSpaceRefs(Fold(items));
    RefsOfConcat(TrimSpace(Fold(items)), [Close]);
    TitlesOfConcat(TrimSpace(Fold(items)), [Close]);
  }

  // ---------------------------------------------------------------------------
  // Bracket balance

  /** Every prefix of `a + b` reaching into `b` has the depth of `a` plus that of the part of `b` it covers. */
  lemma OpenPrefixesAppend(a: seq<Tok>, b: seq<Tok>)
    requires |a| > 0
    ensures OpenPrefixes(a + b) <==>
            OpenPrefixes(a) && forall k :: 0 < k <= |b| ==> Depth(a) + Depth(b[..k]) > 0
  {
    forall k | 0 < k <= |a|
      ensures (a + b)[..k] == a[..k]
    {
    }
    forall k | 0 < k <= |b|
      ensures Depth((a + b)[..|a| + k]) == Depth(a) + Depth(b[..k])
    {
      assert (a + b)[..|a| + k] == a + b[..k];
      DepthConcat(a, b[..k]);
    }
    if OpenPrefixes(a + b) {
      forall k | 0 < k <= |b|
        ensures Depth(a) + Depth(b[..k]) > 0
      {
        assert Depth((a + b)[..|a| + k]) > 0;
      }
    }
    if OpenPrefixes(a) && forall k :: 0 < k <= |b| ==> Depth(a) + Depth(b[..k]) > 0 {
      forall k | 0 < k <= |a + b|
        ensures Depth((a + b)[..k]) > 0
      {
        if k > |a| {
          assert Depth((a + b)[..|a| + (k - |a|)]) == Depth(a) + Depth(b[..k - |a|]);
        }
      }
    }
  }

  /** When every prefix is open, so is the whole sequence. */
  lemma PrefixDepth(t: seq<Tok>)
    requires |t| > 0
    ensures OpenPrefixes(t) ==> Depth(t) > 0
  {
    assert t[..|t|] == t;
  }

  /** Dropping a trailing separator neither opens nor closes a bracket in any prefix. */
  lemma TrimSpacePrefixes(t: seq<Tok>)
    requires |t| > 0 && t[0] == Open
    ensures |TrimSpace(t)| > 0
    ensures OpenPrefixes(TrimSpace(t)) <==> OpenPrefixes(t)
  {
    if t[|t| - 1] == Space {
      var u := t[..|t| - 1];
      assert t == u + [Space];
      OpenPrefixesAppend(u, [Space]);
      assert [Space][..1] == [Space];
      assert Depth([Space]) == Depth([]) + 0;
      PrefixDepth(u);
    }
  }

  /** A token keeps every prefix of the builder open exactly when the depth it leaves is positive. */
  lemma StepPrefixes(acc: seq<Tok>, x: OrderItem)
    requires |acc| > 0 && acc[0] == Open
    ensures OpenPrefixes(Step(acc, x)) <==> OpenPrefixes(acc) && Depth(acc) + ItemNest(x) > 0
  {
    PrefixDepth(acc);
    TrimSpacePrefixes(acc);
    TrimSpaceRefs(acc);
    TailCounts(x);
    if x.LayerItem? {
      AppendPrefixes(acc, Tail(x));
    } else {
      PrefixDepth(TrimSpace(acc));
      AppendPrefixes(TrimSpace(acc), Tail(x));
    }
  }

  /** Appending a short tail whose first token sets its depth, the rest being references, titles or separators. */
  lemma AppendPrefixes(a: seq<Tok>, b: seq<Tok>)
    requires |a| > 0 && 0 < |b| <= 2
    requires forall k :: 1 <= k < |b| ==> Delta(b[k]) == 0
    ensures OpenPrefixes(a + b) <==> OpenPrefixes(a) && Depth(a) + Delta(b[0]) > 0
  {
    OpenPrefixesAppend(a, b);
    assert b[..1] == [b[0]];
    assert Depth(b[..1]) == Depth([]) + Delta(b[0]);
    if |b| == 2 {
      assert b[..2] == b;
      assert Depth(b) == Depth(b[..1]) + Delta(b[1]);
    }
  }

  lemma NeverUnderflowsSnoc(items: seq<OrderItem>)
    requires items != []
    ensures NeverUnderflows(items) <==> NeverUnderflows(items[..|items| - 1]) && Nest(items) >= 0
  {
    var p := items[..|items| - 1];
    assert items[..|items|] == items;
    forall j | 0 <= j <= |p|
      ensures items[..j] == p[..j]
    {
    }
    if NeverUnderflows(items) {
      forall j | 0 <= j <= |p|
        ensures Nest(p[..j]) >= 0
      {
        assert Nest(items[..j]) >= 0;
      }
    }
    if NeverUnderflows(p) && Nest(items) >= 0 {
      forall j | 0 <= j <= |items|
        ensures Nest(items[..j]) >= 0
      {
        if j <= |p| {
          assert Nest(p[..j]) >= 0;
        } else {
          assert items[..j] == items;
        }
      }
    }
  }

  /** The builder never closes its outer "[" exactly when no prefix of the tokens ends more groups than it starts. */
  lemma {:induction false} FoldPrefixes(items: seq<OrderItem>)
    ensures OpenPrefixes(Fold(items)) <==> NeverUnderflows(items)
    decreases |items|
  {
    if items == [] {
      assert [Open][..1] == [Open];
      assert Depth([Open]) == Depth([]) + 1;
      assert items[..0] == items;
    } else {
      var p, x := items[..|items| - 1], items[|items| - 1];
      FoldPrefixes(p);
      FoldCounts(p);
      StepPrefixes(Fold(p), x);
      NeverUnderflowsSnoc(items);
      assert Fold(items) == Step(Fold(p), x);
      assert Nest(items) == Nest(p) + ItemNest(x);
    }
  }

  /**
   The /Order array is one well-formed bracketed array exactly when the
   display-order tokens are well nested: an unbalanced group start or end
   gives an unbalanced or prematurely closed array.
   */
  lemma OrderIsArrayIffWellNested(items: seq<OrderItem>)
    ensures IsArray(OrderArray(items)) <==> WellNested(items)
  {
    var f := Fold(items);
    var o := OrderArray(items);
    FoldPrefixes(items);
    FoldCounts(items);
    TrimSpacePrefixes(f);
    TrimSpaceRefs(f);
    assert o[..|o| - 1] == TrimSpace(f);
    DepthConcat(TrimSpace(f), [Close]);
    assert Depth([Close]) == Depth([]) - 1;
  }

  // ---------------------------------------------------------------------------
  // Separators and titles

  /** The shape of the builder: what may follow a separator, a reference and a title. */
  ghost predicate BuilderShape(t: seq<Tok>)
  {
    && |t| > 0 && t[0] == Open
    && (forall k :: 0 <= k < |t| && t[k] == Space ==> 0 < k && t[k - 1].Ref? && (k + 1 < |t| ==> t[k + 1].Ref?))
    && (forall k :: 0 <= k < |t| && t[k].Ref? ==> k + 1 < |t| && !t[k + 1].Ref? && !t[k + 1].Title?)
    && TitlesFollowOpen(t)
  }

  /** A trimmed builder: like BuilderShape, but a reference may end it and no separator does. */
  ghost predicate TrimmedShape(t: seq<Tok>)
  {
    && |t| > 0 && t[0] == Open
    && (forall k :: 0 <= k < |t| && t[k] == Space ==> 0 < k < |t| - 1 && t[k - 1].Ref? && t[k + 1].Ref?)
    && (forall k :: 0 <= k < |t| - 1 && t[k].Ref? ==> !t[k + 1].Ref? && !t[k + 1].Title?)
    && TitlesFollowOpen(t)
  }

  /** Every title opens its group and is non-empty. */
  ghost predicate TitlesFollowOpen(t: seq<Tok>)
  {
    forall k :: 0 <= k < |t| && t[k].Title? ==> 0 < k && t[k - 1] == Open && t[k].text != ""
  }

  lemma TrimShape(t: seq<Tok>)
    requires BuilderShape(t)
    ensures TrimmedShape(TrimSpace(t))
  {
    if t[|t| - 1] == Space {
      assert TrimSpace(t) == t[..|t| - 1];
    } else {
      assert !t[|t| - 1].Ref?;
    }
  }

  lemma StepShape(acc: seq<Tok>, x: OrderItem)
    requires BuilderShape(acc)
    ensures BuilderShape(Step(acc, x))
  {
    if x.LayerItem? {
      AppendRefShape(acc, x.layer.objectNumber);
    } else {
      TrimShape(acc);
      AppendGroupShape(TrimSpace(acc), x);
    }
  }

  lemma AppendRefShape(acc: seq<Tok>, n: nat)
    requires BuilderShape(acc)
    ensures BuilderShape(acc + [Ref(n), Space])
  {
    var t := acc + [Ref(n), Space];
    assert t[|acc|] == Ref(n) && t[|acc| + 1] == Space;
    assert forall k :: 0 <= k < |acc| ==> t[k] == acc[k];
  }

  lemma AppendGroupShape(tr: seq<Tok>, x: OrderItem)
    requires TrimmedShape(tr) && !x.LayerItem?
    ensures BuilderShape(tr + Tail(x))
  {
    var t := tr + Tail(x);
    assert forall k :: 0 <= k < |tr| ==> t[k] == tr[k];
    assert t[|tr|] == (if x.GroupEnd? then Close else Open);
    if x.GroupStart? && x.groupName != "" {
      assert |t| == |tr| + 2 && t[|tr| + 1] == Title(x.groupName);
    } else {
      assert |t| == |tr| + 1;
    }
  }

  lemma {:induction false} FoldShape(items: seq<OrderItem>)
    ensures BuilderShape(Fold(items))
    decreases |items|
  {
    if items != [] {
      var p := items[..|items| - 1];
      FoldShape(p);
      StepShape(Fold(p), items[|items| - 1]);
    }
  }

  /**
   In the /Order array every separator stands between two references (none
   before '[', before ']' or at the end), two references never run together,
   and every title is the first element of its group and is non-empty.
   */
  lemma OrderSeparated(items: seq<OrderItem>)
    ensures Separated(OrderArray(items))
    ensures TitlesFollowOpen(OrderArray(items))
  {
    FoldShape(items);
    TrimShape(Fold(items));
    var tr := TrimSpace(Fold(items));
    assert forall k :: 0 <= k < |tr| ==> OrderArray(items)[k] == tr[k];
  }
}
