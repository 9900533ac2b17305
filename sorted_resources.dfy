/**
 The list of resource objects a page collects from its contents streams,
 kept sorted so that a binary search finds whether a resource is already
 there. A resource object is identified by its object number, which is
 also the order the search compares by.
 */
module SortedResources {
  /** Strictly increasing: sorted and without repetitions. */
  ghost predicate StrictlySorted(s: seq<nat>)
  {
    forall i, j :: 0 <= i < j < |s| ==> s[i] < s[j]
  }

  ghost function Elements(s: seq<nat>): set<nat>
  {
    set x | x in s
  }

  /** The bitwise complement of a 32-bit signed integer, `~p`, which is `-p - 1`. */
  function Complement(p: int): (r: int)
    ensures -r - 1 == p
    ensures p >= 0 <==> r < 0
  {
    -p - 1
  }

  /**
   List<T>.BinarySearch on a sorted list: the index of `x` when it is
   present; otherwise the complement of the index of the first element
   above `x`, which is where `x` belongs.
   */
  method BinarySearch(s: seq<nat>, x: nat) returns (r: int)
    requires StrictlySorted(s)
    ensures 0 <= r ==> r < |s| && s[r] == x
    ensures r < 0 ==> var p := Complement(r);
                      && 0 <= p <= |s|
                      && (forall k :: 0 <= k < p ==> s[k] < x)
                      && (forall k :: p <= k < |s| ==> x < s[k])
  {
    var lo, hi := 0, |s| - 1;
    while lo <= hi
      invariant 0 <= lo <= hi + 1 <= |s|
      invariant forall k :: 0 <= k < lo ==> s[k] < x
      invariant forall k :: hi < k < |s| ==> x < s[k]
    {
      var i := lo + (hi - lo) / 2;
      if s[i] == x {
        return i;
      } else if s[i] < x {
        lo := i + 1;
      } else {
        hi := i - 1;
      }
    }
    r := Complement(lo);
  }

  /**
   `Ptr = BinarySearch(x); if (Ptr < 0) Insert(~Ptr, x)`: adds `x` unless it
   is already there, and keeps the list strictly sorted.
   */
  method InsertIfAbsent(s: seq<nat>, x: nat) returns (s': seq<nat>)
    requires StrictlySorted(s)
    ensures StrictlySorted(s')
    ensures Elements(s') == Elements(s) + {x}
    ensures x in s ==> s' == s
  {
    var ptr := BinarySearch(s, x);
    if ptr < 0 {
      var p := Complement(ptr);
      assert s == s[..p] + s[p..];
      s' := s[..p] + [x] + s[p..];
      assert forall k :: 0 <= k < |s'| ==> s'[k] == if k < p then s[k] else if k == p then x else s[k - 1];
    } else {
      s' := s;
    }
  }

  /** A strictly sorted list is fixed by its elements: there is one strictly sorted list per finite set. */
  lemma {:induction false} StrictlySortedUnique(a: seq<nat>, b: seq<nat>)
    requires StrictlySorted(a) && StrictlySorted(b)
    requires Elements(a) == Elements(b)
    ensures a == b
    decreases |a|
  {
    EmptyElements(a);
    EmptyElements(b);
    if a != [] && b != [] {
      assert a[0] in Elements(b) && b[0] in Elements(a);
      assert a[0] == b[0];
      Rest(a);
      Rest(b);
      StrictlySortedUnique(a[1..], b[1..]);
      assert a == [a[0]] + a[1..] && b == [b[0]] + b[1..];
    }
  }

  lemma EmptyElements(s: seq<nat>)
    ensures Elements(s) == {} <==> s == []
  {
    if s != [] {
      assert s[0] in Elements(s);
    }
  }

  /** Dropping the least element of a strictly sorted list leaves a strictly sorted list of the other elements. */
  lemma Rest(s: seq<nat>)
    requires StrictlySorted(s) && s != []
    ensures StrictlySorted(s[1..])
    ensures Elements(s[1..]) == Elements(s) - {s[0]}
    ensures forall x :: x in Elements(s) ==> s[0] <= x
  {
    assert s == [s[0]] + s[1..];
  }
}
