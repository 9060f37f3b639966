/**
 * Operations on the engine's lists of pointers (controller filters,
 * rendering modes, MIP channels): finding an element and erasing the first
 * occurrence, as `std::find` followed by `erase` does.
 */
module Lists {
  predicate NoDuplicates<T(==)>(s: seq<T>)
  {
    forall i, j :: 0 <= i < j < |s| ==> s[i] != s[j]
  }

  /** The position `std::find` reports: the first occurrence. */
  function FirstIndexOf<T(==)>(s: seq<T>, x: T): (i: nat)
    requires x in s
    ensures i < |s| && s[i] == x && x !in s[..i]
  {
    if s[0] == x then 0
    else
      assert x in s[1..] by { assert s == [s[0]] + s[1..]; }
      var j := FirstIndexOf(s[1..], x);
      assert s[..j + 1] == [s[0]] + s[1..][..j];
      j + 1
  }

  /** The first occurrence is the position holding `x` with no `x` before it. */
  lemma FirstIndexOfIs<T>(s: seq<T>, x: T, i: nat)
    requires i < |s| && s[i] == x && x !in s[..i]
    ensures FirstIndexOf(s, x) == i
  {
    var j := FirstIndexOf(s, x);
    assert forall k :: 0 <= k < i ==> s[..i][k] == s[k];
    assert forall k :: 0 <= k < j ==> s[..j][k] == s[k];
  }

  /** Within a list without duplicates, the first occurrence is the only one. */
  lemma FirstIndexUnique<T>(s: seq<T>, i: nat)
    requires NoDuplicates(s) && i < |s|
    ensures FirstIndexOf(s, s[i]) == i
  {
  }

  /** The list after erasing the first occurrence of `x`. */
  function RemoveFirst<T(==)>(s: seq<T>, x: T): (r: seq<T>)
    requires x in s
    ensures |r| == |s| - 1
    ensures multiset(r) == multiset(s) - multiset{x}
  {
    assert s == [s[0]] + s[1..];
    if s[0] == x then s[1..] else [s[0]] + RemoveFirst(s[1..], x)
  }

  /** Erasing the first occurrence keeps everything before it and shifts everything after it. */
  lemma {:induction false} RemoveFirstAt<T>(s: seq<T>, x: T, i: nat)
    requires i < |s| && s[i] == x && x !in s[..i]
    ensures RemoveFirst(s, x) == s[..i] + s[i + 1..]
  {
    if i > 0 {
      assert s[0] in s[..i];
      assert s[1..][..i - 1] == s[1..i];
      RemoveFirstAt(s[1..], x, i - 1);
      assert s[..i] == [s[0]] + s[1..i];
    }
  }

  /** An element that was just put in front and is erased again leaves the previous list. */
  lemma AddThenRemove<T>(s: seq<T>, x: T)
    ensures RemoveFirst([x] + s, x) == s
  {
    RemoveFirstAt([x] + s, x, 0);
    assert ([x] + s)[1..] == s;
  }

  /** The element at each position after erasing position `i`. */
  lemma EraseAt<T>(s: seq<T>, i: nat, a: nat)
    requires i < |s| && a < |s| - 1
    ensures (s[..i] + s[i + 1..])[a] == if a < i then s[a] else s[a + 1]
  {
  }

  /** Erasing from a list without duplicates leaves no occurrence and no duplicates. */
  lemma {:induction false} RemoveFirstNoDuplicates<T>(s: seq<T>, x: T)
    requires NoDuplicates(s) && x in s
    ensures x !in RemoveFirst(s, x) && NoDuplicates(RemoveFirst(s, x))
  {
    var i := FirstIndexOf(s, x);
    RemoveFirstAt(s, x, i);
    var r := s[..i] + s[i + 1..];
    forall a | 0 <= a < |r|
      ensures r[a] != x
    {
      EraseAt(s, i, a);
    }
    forall a, b | 0 <= a < b < |r|
      ensures r[a] != r[b]
    {
      EraseAt(s, i, a);
      EraseAt(s, i, b);
    }
  }
}
