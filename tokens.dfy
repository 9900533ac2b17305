/** Small failure-compatible wrappers: `None` stands for a C# null. */
module Wrappers {
  datatype Option<+T> = None | Some(value: T)

  datatype Result<+T, +E> = Success(value: T) | Failure(error: E)
}

/**
 The text the writer builds in a StringBuilder when it formats a PDF array,
 as a sequence of abstract tokens. Only what the core decides is kept:
 which references, in which order, with which nesting and separators. The
 byte encoding of a reference or a title is left to the serializer.
 */
module PdfTokens {
  import opened Wrappers

  datatype Tok =
    | Open                 // the character '['
    | Close                // the character ']'
    | Ref(number: nat)     // "n 0 R", an indirect reference to object n
    | Space                // the separator ' ' written after every reference
    | Title(text: string)  // a PDF string: the title of a group of layers

  /** AppendFormat("{0} 0 R ", n) for every n in turn: each reference followed by a separator. */
  function Spaced(ns: seq<nat>): (t: seq<Tok>)
    ensures |t| == 2 * |ns|
    ensures forall i :: 0 <= i < |ns| ==> t[2 * i] == Ref(ns[i]) && t[2 * i + 1] == Space
  {
    if ns == [] then [] else Spaced(ns[..|ns| - 1]) + [Ref(ns[|ns| - 1]), Space]
  }

  /** `sb.Length--`: drops the last character, whatever it is (the C# call throws on an empty builder). */
  function DropLast(t: seq<Tok>): seq<Tok>
    requires |t| > 0
  {
    t[..|t| - 1]
  }

  /** `if (sb[^1] == ' ') sb.Length--`: drops a trailing separator and nothing else. */
  function TrimSpace(t: seq<Tok>): (r: seq<Tok>)
    requires |t| > 0
    ensures |r| > 0 ==> r[0] == t[0]
    ensures t[|t| - 1] == Space ==> r == t[..|t| - 1]
    ensures t[|t| - 1] != Space ==> r == t
  {
    if t[|t| - 1] == Space then t[..|t| - 1] else t
  }

  /** The references `ns`, each pair separated by exactly one Space, with no separator at either end. */
  function Joined(ns: seq<nat>): seq<Tok>
  {
    if ns == [] then []
    else if |ns| == 1 then [Ref(ns[0])]
    else Joined(ns[..|ns| - 1]) + [Space, Ref(ns[|ns| - 1])]
  }

  /** The well-formed PDF array "[n1 0 R n2 0 R ... nk 0 R]". */
  function RefArray(ns: seq<nat>): seq<Tok>
  {
    [Open] + Joined(ns) + [Close]
  }

  /** The object numbers referenced in `t`, in order, ignoring brackets, separators and titles. */
  function RefsOf(t: seq<Tok>): seq<nat>
  {
    if t == [] then []
    else RefsOf(t[..|t| - 1]) + (if t[|t| - 1].Ref? then [t[|t| - 1].number] else [])
  }

  /** The titles in `t`, in order. */
  function TitlesOf(t: seq<Tok>): seq<string>
  {
    if t == [] then []
    else TitlesOf(t[..|t| - 1]) + (if t[|t| - 1].Title? then [t[|t| - 1].text] else [])
  }

  function Delta(x: Tok): int
  {
    match x
    case Open => 1
    case Close => -1
    case _ => 0
  }

  /** Number of '[' minus number of ']' in `t`. */
  function Depth(t: seq<Tok>): int
  {
    if t == [] then 0 else Depth(t[..|t| - 1]) + Delta(t[|t| - 1])
  }

  /** Every non-empty prefix of `t` has more '[' than ']'. */
  ghost predicate OpenPrefixes(t: seq<Tok>)
  {
    forall k :: 0 < k <= |t| ==> Depth(t[..k]) > 0
  }

  /** `t` is one bracketed array: its brackets balance and the first '[' is closed only by the last ']'. */
  ghost predicate IsArray(t: seq<Tok>)
  {
    |t| >= 2 && OpenPrefixes(t[..|t| - 1]) && Depth(t) == 0
  }

  /**
   Every separator stands between two references, and two references never
   run together: no separator before '[', before ']' or at the end.
   */
  ghost predicate Separated(t: seq<Tok>)
  {
    && (forall k :: 0 <= k < |t| && t[k] == Space ==> 0 < k < |t| - 1 && t[k - 1].Ref? && t[k + 1].Ref?)
    && (forall k :: 0 <= k < |t| - 1 && t[k].Ref? ==> !t[k + 1].Ref?)
  }

  /** An array entry that the source writes only when it has at least one element. */
  function OptionalArray(ns: seq<nat>): Option<seq<Tok>>
  {
    if ns == [] then None else Some(RefArray(ns))
  }

  // ---------------------------------------------------------------------------
  // Lemmas about the token functions

  lemma {:induction false} RefsOfConcat(a: seq<Tok>, b: seq<Tok>)
    ensures RefsOf(a + b) == RefsOf(a) + RefsOf(b)
    decreases |b|
  {
    if b == [] {
      assert a + b == a;
    } else {
      assert (a + b)[..|a + b| - 1] == a + b[..|b| - 1];
      RefsOfConcat(a, b[..|b| - 1]);
    }
  }

  lemma {:induction false} TitlesOfConcat(a: seq<Tok>, b: seq<Tok>)
    ensures TitlesOf(a + b) == TitlesOf(a) + TitlesOf(b)
    decreases |b|
  {
    if b == [] {
      assert a + b == a;
    } else {
      assert (a + b)[..|a + b| - 1] == a + b[..|b| - 1];
      TitlesOfConcat(a, b[..|b| - 1]);
    }
  }

  lemma {:induction false} DepthConcat(a: seq<Tok>, b: seq<Tok>)
    ensures Depth(a + b) == Depth(a) + Depth(b)
    decreases |b|
  {
    if b == [] {
      assert a + b == a;
    } else {
      assert (a + b)[..|a + b| - 1] == a + b[..|b| - 1];
      DepthConcat(a, b[..|b| - 1]);
    }
  }

  /** The references of a well-formed array are exactly `ns`, in order. */
  lemma {:induction false} RefArrayRefs(ns: seq<nat>)
    ensures RefsOf(RefArray(ns)) == ns
    ensures TitlesOf(RefArray(ns)) == []
    decreases |ns|
  {
    JoinedRefs(ns);
    RefsOfConcat([Open] + Joined(ns), [Close]);
    RefsOfConcat([Open], Joined(ns));
    TitlesOfConcat([Open] + Joined(ns), [Close]);
    TitlesOfConcat([Open], Joined(ns));
    assert RefsOf([Open]) == RefsOf([]) == [];
    assert RefsOf([Close]) == RefsOf([]) == [];
    assert TitlesOf([Open]) == TitlesOf([]) == [];
    assert TitlesOf([Close]) == TitlesOf([]) == [];
  }

  lemma {:induction false} JoinedRefs(ns: seq<nat>)
    ensures RefsOf(Joined(ns)) == ns
    ensures TitlesOf(Joined(ns)) == []
    ensures Depth(Joined(ns)) == 0
    decreases |ns|
  {
    if |ns| == 1 {
      assert Joined(ns) == [] + [Ref(ns[0])];
    } else if |ns| > 1 {
      var p := ns[..|ns| - 1];
      JoinedRefs(p);
      RefsOfConcat(Joined(p), [Space, Ref(ns[|ns| - 1])]);
      TitlesOfConcat(Joined(p), [Space, Ref(ns[|ns| - 1])]);
      DepthConcat(Joined(p), [Space, Ref(ns[|ns| - 1])]);
      assert [Space, Ref(ns[|ns| - 1])][..1] == [Space];
      assert [Space][..0] == [];
      assert ns == p + [ns[|ns| - 1]];
    }
  }

  /** Writing one more reference appends "n 0 R " to what was written. */
  lemma AppendSpaced(ns: seq<nat>, n: nat)
    ensures Spaced(ns + [n]) == Spaced(ns) + [Ref(n), Space]
  {
    assert (ns + [n])[..|ns|] == ns;
  }

  /** Writing the next reference of `ns` after "[" and the first k ones. */
  lemma SpacedStep(ns: seq<nat>, k: nat)
    requires k < |ns|
    ensures [Open] + Spaced(ns[..k + 1]) == ([Open] + Spaced(ns[..k])) + [Ref(ns[k]), Space]
  {
    assert ns[..k + 1] == ns[..k] + [ns[k]];
    AppendSpaced(ns[..k], ns[k]);
  }

  lemma ConcatAssoc<T>(a: seq<T>, b: seq<T>, c: seq<T>)
    ensures (a + b) + c == a + (b + c)
  {
  }

  /** Taking one more element of a sequence appends that element. */
  lemma TakeOneMore<T>(s: seq<T>, k: nat)
    requires k < |s|
    ensures s[..k + 1] == s[..k] + [s[k]]
  {
  }

  /** Appending "n 0 R " per reference and then dropping the last character leaves the joined references. */
  lemma {:induction false} SpacedThenDropLast(ns: seq<nat>)
    requires ns != []
    ensures DropLast([Open] + Spaced(ns)) == [Open] + Joined(ns)
    decreases |ns|
  {
    var p, x := ns[..|ns| - 1], ns[|ns| - 1];
    var s := [Open] + Spaced(p);
    assert [Open] + Spaced(ns) == s + [Ref(x), Space];
    assert DropLast(s + [Ref(x), Space]) == s + [Ref(x)];
    if p == [] {
      assert Joined(ns) == [Ref(x)];
    } else {
      SpacedThenDropLast(p);
      assert s == DropLast(s) + [Space];
      assert Joined(ns) == Joined(p) + [Space, Ref(x)];
      ConcatAssoc([Open], Joined(p), [Space, Ref(x)]);
      ConcatAssoc([Open] + Joined(p), [Space], [Ref(x)]);
    }
  }

  /**
   The source's way of closing a reference array ("[" + "n 0 R " per
   reference, `Length--`, "]") gives the well-formed array when there is at
   least one reference, and the lone "]" when there is none.
   */
  lemma ClosedArray(ns: seq<nat>)
    ensures DropLast([Open] + Spaced(ns)) + [Close] == if ns == [] then [Close] else RefArray(ns)
  {
    if ns != [] {
      SpacedThenDropLast(ns);
    }
  }

  /**
   The source's way of writing an optional array ("[" + "n 0 R " per
   reference, `Length--`, then "]" and the entry only if the builder is not
   empty) gives the well-formed array exactly when there is a reference.
   */
  lemma OptionalClosedArray(ns: seq<nat>)
    ensures var s := DropLast([Open] + Spaced(ns));
            (if |s| != 0 then Some(s + [Close]) else None) == OptionalArray(ns)
  {
    if ns != [] {
      SpacedThenDropLast(ns);
    }
  }

  /**
   An optional array is written exactly when there is a reference to put in
   it, and then it is one well-formed array holding exactly those references.
   */
  lemma OptionalArrayShape(ns: seq<nat>)
    ensures OptionalArray(ns).None? <==> ns == []
    ensures OptionalArray(ns).Some? ==>
              && RefsOf(OptionalArray(ns).value) == ns
              && IsArray(OptionalArray(ns).value)
              && Separated(OptionalArray(ns).value)
  {
    if ns != [] {
      RefArrayRefs(ns);
      RefArrayIsArray(ns);
      RefArraySeparated(ns);
    }
  }

  /** A well-formed reference array is one bracketed array. */
  lemma {:induction false} RefArrayIsArray(ns: seq<nat>)
    ensures IsArray(RefArray(ns))
  {
    var t, u := RefArray(ns), [Open] + Joined(ns);
    assert t[..|t| - 1] == u;
    forall k | 0 < k <= |u|
      ensures Depth(u[..k]) > 0
    {
      JoinedPrefixDepth(ns, k - 1);
      assert u[..k] == [Open] + Joined(ns)[..k - 1];
      DepthConcat([Open], Joined(ns)[..k - 1]);
      assert Depth([Open]) == Depth([]) + 1;
    }
    JoinedRefs(ns);
    DepthConcat(u, [Close]);
    DepthConcat([Open], Joined(ns));
    assert Depth([Open]) == Depth([]) + 1;
    assert Depth([Close]) == Depth([]) - 1;
  }

  /** In a well-formed reference array every separator stands between two references. */
  lemma RefArraySeparated(ns: seq<nat>)
    ensures Separated(RefArray(ns))
  {
    JoinedShape(ns);
    var j, t := Joined(ns), RefArray(ns);
    assert |t| == |j| + 2 && t[0] == Open && t[|t| - 1] == Close;
    assert forall k :: 1 <= k <= |j| ==> t[k] == j[k - 1];
    forall k | 0 <= k < |t| && t[k] == Space
      ensures 0 < k < |t| - 1 && t[k - 1].Ref? && t[k + 1].Ref?
    {
      assert j[k - 1] == Space;
      assert (k - 1) % 2 == 1;
      assert j[k - 2] == Ref(ns[(k - 2) / 2]);
      assert j[k] == Ref(ns[k / 2]);
    }
    forall k | 0 <= k < |t| - 1 && t[k].Ref?
      ensures !t[k + 1].Ref?
    {
      assert j[k - 1].Ref?;
      assert (k - 1) % 2 == 0;
    }
  }

  /** Joined references alternate Ref, Space, Ref, ..., Ref. */
  lemma {:induction false} JoinedShape(ns: seq<nat>)
    ensures |Joined(ns)| == if ns == [] then 0 else 2 * |ns| - 1
    ensures forall k :: 0 <= k < |Joined(ns)| ==> Joined(ns)[k] == if k % 2 == 0 then Ref(ns[k / 2]) else Space
    decreases |ns|
  {
    if |ns| > 1 {
      JoinedShape(ns[..|ns| - 1]);
    }
  }

  /** No prefix of a joined list of references contains a bracket. */
  lemma {:induction false} JoinedPrefixDepth(ns: seq<nat>, k: nat)
    requires k <= |Joined(ns)|
    ensures Depth(Joined(ns)[..k]) == 0
    decreases k
  {
    JoinedShape(ns);
    if k > 0 {
      JoinedPrefixDepth(ns, k - 1);
      assert Joined(ns)[..k][..k - 1] == Joined(ns)[..k - 1];
    }
  }
}
