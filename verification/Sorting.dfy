/** Sorting a slice in place by a comparison, and what the result is. */
module Sorting {

  ghost predicate TotalOrder<T(!new)>(leq: (T, T) -> bool) {
    && (forall x :: leq(x, x))
    && (forall x, y :: leq(x, y) || leq(y, x))
    && (forall x, y :: leq(x, y) && leq(y, x) ==> x == y)
    && (forall x, y, z :: leq(x, y) && leq(y, z) ==> leq(x, z))
  }

  ghost predicate IsSorted<T>(leq: (T, T) -> bool, s: seq<T>) {
    forall i, j :: 0 <= i < j < |s| ==> leq(s[i], s[j])
  }

  function Insert<T>(leq: (T, T) -> bool, x: T, s: seq<T>): seq<T> {
    if s == [] then [x]
    else if leq(x, s[0]) then [x] + s
    else [s[0]] + Insert(leq, x, s[1..])
  }

  /** The sorted rearrangement of `s`. */
  function Sorted<T>(leq: (T, T) -> bool, s: seq<T>): seq<T> {
    if s == [] then [] else Insert(leq, s[0], Sorted(leq, s[1..]))
  }

  lemma HeadAndTail<T>(s: seq<T>)
    requires s != []
    ensures multiset(s) == multiset{s[0]} + multiset(s[1..])
  {
    assert s == [s[0]] + s[1..];
  }

  lemma {:induction false} InsertAdds<T>(leq: (T, T) -> bool, x: T, s: seq<T>)
    ensures multiset(Insert(leq, x, s)) == multiset{x} + multiset(s)
    ensures |Insert(leq, x, s)| == |s| + 1
  {
    if s != [] && !leq(x, s[0]) {
      InsertAdds(leq, x, s[1..]);
      HeadAndTail(s);
    }
  }

  lemma {:induction false} InsertKeepsSorted<T(!new)>(leq: (T, T) -> bool, x: T, s: seq<T>)
    requires TotalOrder(leq) && IsSorted(leq, s)
    ensures IsSorted(leq, Insert(leq, x, s))
  {
    if s != [] && !leq(x, s[0]) {
      var t := Insert(leq, x, s[1..]);
      InsertKeepsSorted(leq, x, s[1..]);
      InsertAdds(leq, x, s[1..]);
      forall j | 0 <= j < |t| ensures leq(s[0], t[j]) {
        assert t[j] in multiset(t);
        assert t[j] == x || t[j] in s[1..];
      }
    }
  }

  lemma {:induction false} SortedIsSortedPermutation<T(!new)>(leq: (T, T) -> bool, s: seq<T>)
    requires TotalOrder(leq)
    ensures IsSorted(leq, Sorted(leq, s)) && multiset(Sorted(leq, s)) == multiset(s)
  {
    if s == [] {
    } else {
      var t := Sorted(leq, s[1..]);
      SortedIsSortedPermutation(leq, s[1..]);
      InsertKeepsSorted(leq, s[0], t);
      InsertAdds(leq, s[0], t);
      HeadAndTail(s);
    }
  }

  lemma TailsAgree<T>(s: seq<T>, t: seq<T>)
    requires s != [] && t != [] && s[0] == t[0] && multiset(s) == multiset(t)
    ensures multiset(s[1..]) == multiset(t[1..])
  {
    HeadAndTail(s);
    HeadAndTail(t);
    assert multiset(s[1..]) == multiset(s) - multiset{s[0]};
    assert multiset(t[1..]) == multiset(t) - multiset{t[0]};
  }

  lemma FirstIsLeast<T(!new)>(leq: (T, T) -> bool, s: seq<T>, x: T)
    requires TotalOrder(leq) && IsSorted(leq, s) && x in multiset(s)
    ensures leq(s[0], x)
  {
    var i :| 0 <= i < |s| && s[i] == x;
  }

  /** A sorted sequence is determined by its multiset of elements. */
  lemma {:induction false} SortedUnique<T(!new)>(leq: (T, T) -> bool, s: seq<T>, t: seq<T>)
    requires TotalOrder(leq) && IsSorted(leq, s) && IsSorted(leq, t) && multiset(s) == multiset(t)
    ensures s == t
  {
    assert |s| == |multiset(s)| == |multiset(t)| == |t|;
    if s == [] {
    } else {
      assert s[0] in multiset(t) && t[0] in multiset(s);
      FirstIsLeast(leq, t, s[0]);
      FirstIsLeast(leq, s, t[0]);
      TailsAgree(s, t);
      SortedUnique(leq, s[1..], t[1..]);
      assert s == [s[0]] + s[1..] && t == [t[0]] + t[1..];
    }
  }

  lemma SortStep<T>(leq: (T, T) -> bool, s: seq<T>, i: nat, t: seq<T>)
    requires i < |s| == |t| && t == s[..i + 1] + Sorted(leq, s[i + 1..])
    ensures t[..i] == s[..i] && t[i] == s[i] && t[i + 1..] == Sorted(leq, s[i + 1..])
    ensures Sorted(leq, s[i..]) == Insert(leq, s[i], Sorted(leq, s[i + 1..]))
  {
    assert s[i..][1..] == s[i + 1..];
  }

  lemma {:induction false} InsertPosition<T>(leq: (T, T) -> bool, x: T, s: seq<T>, p: nat)
    requires p <= |s|
    requires forall k :: 0 <= k < p ==> !leq(x, s[k])
    requires p < |s| ==> leq(x, s[p])
    ensures Insert(leq, x, s) == s[..p] + [x] + s[p..]
  {
    if p == 0 {
    } else {
      InsertPosition(leq, x, s[1..], p - 1);
    }
  }

  lemma Sunk<T>(leq: (T, T) -> bool, s: seq<T>, i: nat, j: nat, t: seq<T>)
    requires i <= j < |s| == |t| && t[j] == s[i]
    requires forall k :: 0 <= k < i || j < k < |s| ==> t[k] == s[k]
    requires forall k :: i <= k < j ==> t[k] == s[k + 1]
    requires forall k :: i < k <= j ==> !leq(s[i], s[k])
    requires j + 1 < |s| ==> leq(s[i], s[j + 1])
    ensures t == s[..i] + Insert(leq, s[i], s[i + 1..])
  {
    var rest := s[i + 1..];
    InsertPosition(leq, s[i], rest, j - i);
    assert t[..i] == s[..i];
    assert t[i..] == rest[..j - i] + [s[i]] + rest[j - i..];
  }

  /** One pass of the insertion: sinks `a[i]` into the sorted rest of the slice. */
  method InsertAt<T>(leq: (T, T) -> bool, a: array<T>, i: nat)
    requires i < a.Length
    modifies a
    ensures a[..] == old(a[..i]) + Insert(leq, old(a[i]), old(a[i + 1..]))
  {
    var x := a[i];
    ghost var s := a[..];
    var j := i;
    while j + 1 < a.Length && !leq(x, a[j + 1])
      invariant i <= j < a.Length && a[j] == x
      invariant forall k :: 0 <= k < i || j < k < a.Length ==> a[k] == s[k]
      invariant forall k :: i <= k < j ==> a[k] == s[k + 1]
      invariant forall k :: i < k <= j ==> !leq(x, s[k])
    {
      a[j], a[j + 1] := a[j + 1], x;
      j := j + 1;
    }
    Sunk(leq, s, i, j, a[..]);
  }

  /** Sorts the slice in place. */
  method Sort<T>(leq: (T, T) -> bool, a: array<T>)
    modifies a
    ensures a[..] == Sorted(leq, old(a[..]))
  {
    var i := a.Length;
    ghost var s := a[..];
    while i > 0
      invariant 0 <= i <= a.Length == |s|
      invariant a[..] == s[..i] + Sorted(leq, s[i..])
    {
      i := i - 1;
      SortStep(leq, s, i, a[..]);
      InsertAt(leq, a, i);
    }
    assert s[i..] == s;
  }
}
