/** Sorting a list under a total order `le` (in the linter, the derived
    order on YAML nodes): the specification of the array sort, the in-place
    sort itself, and the fact that a list has exactly one sorted permutation. */
module Sorting {

  /** `le` is total, antisymmetric and transitive (hence also reflexive). */
  ghost predicate TotalOrder<T(!new)>(le: (T, T) -> bool) {
    && (forall x, y :: le(x, y) || le(y, x))
    && (forall x, y :: le(x, y) && le(y, x) ==> x == y)
    && (forall x, y, z :: le(x, y) && le(y, z) ==> le(x, z))
  }

  predicate Sorted<T>(le: (T, T) -> bool, s: seq<T>) {
    forall i, j :: 0 <= i < j < |s| ==> le(s[i], s[j])
  }

  /** Puts `x` into the sorted list `s` before the first element it does not
      sort after. */
  function Insert<T(!new)>(le: (T, T) -> bool, x: T, s: seq<T>): (r: seq<T>)
    requires TotalOrder(le) && Sorted(le, s)
    ensures Sorted(le, r)
    ensures multiset(r) == multiset(s) + multiset{x}
  {
    if s == [] then [x]
    else if le(x, s[0]) then [x] + s
    else
      var rest := Insert(le, x, s[1..]);
      InsertBehindHead(le, x, s, rest);
      [s[0]] + rest
  }

  /** Keeping the head of `s` in front of `x` inserted into the tail keeps the
      list sorted, when `x` sorts after that head. */
  lemma InsertBehindHead<T(!new)>(le: (T, T) -> bool, x: T, s: seq<T>, rest: seq<T>)
    requires TotalOrder(le) && Sorted(le, s) && s != [] && !le(x, s[0])
    requires Sorted(le, rest) && multiset(rest) == multiset(s[1..]) + multiset{x}
    ensures Sorted(le, [s[0]] + rest)
    ensures multiset([s[0]] + rest) == multiset(s) + multiset{x}
  {
    assert s == [s[0]] + s[1..];
    forall k | 0 <= k < |rest| ensures le(s[0], rest[k]) {
      assert rest[k] in multiset(rest);
      if rest[k] != x {
        assert rest[k] in s[1..];
      }
    }
  }

  /** The sorted permutation of `s` (the specification of the array sort). */
  function SortSeq<T(!new)>(le: (T, T) -> bool, s: seq<T>): (r: seq<T>)
    requires TotalOrder(le)
    ensures Sorted(le, r)
    ensures multiset(r) == multiset(s)
  {
    if s == [] then []
    else
      assert s == [s[0]] + s[1..];
      Insert(le, s[0], SortSeq(le, s[1..]))
  }

  /** Two sorted lists with the same elements are the same list, because a
      total order calls only identical elements equivalent. So any sort that
      yields a sorted permutation, stable or not, yields exactly SortSeq. */
  lemma {:induction false} SortedUnique<T(!new)>(le: (T, T) -> bool, a: seq<T>, b: seq<T>)
    requires TotalOrder(le)
    requires Sorted(le, a) && Sorted(le, b)
    requires multiset(a) == multiset(b)
    ensures a == b
  {
    if a == [] {
      assert |b| == |multiset(b)| == 0;
    } else {
      assert a[0] in multiset(b) && b[0] in multiset(a);
      assert a[0] in b && b[0] in a;
      assert le(b[0], a[0]) && le(a[0], b[0]);
      assert a[0] == b[0];
      assert multiset(a) == multiset{a[0]} + multiset(a[1..]) by { assert a == [a[0]] + a[1..]; }
      assert multiset(b) == multiset{b[0]} + multiset(b[1..]) by { assert b == [b[0]] + b[1..]; }
      assert multiset(a[1..]) == multiset(a) - multiset{a[0]};
      assert multiset(b[1..]) == multiset(b) - multiset{b[0]};
      SortedUnique(le, a[1..], b[1..]);
      assert a == [a[0]] + a[1..] && b == [b[0]] + b[1..];
    }
  }

  /** Sorting an already sorted list changes nothing. */
  lemma SortSeqOfSorted<T(!new)>(le: (T, T) -> bool, s: seq<T>)
    requires TotalOrder(le) && Sorted(le, s)
    ensures SortSeq(le, s) == s
  {
    SortedUnique(le, SortSeq(le, s), s);
  }

  /** The first `n` elements of `s` are in order. */
  predicate SortedPrefix<T>(le: (T, T) -> bool, s: seq<T>, n: nat)
    requires n <= |s|
  {
    forall p, q :: 0 <= p < q < n ==> le(s[p], s[q])
  }

  /** Swapping two neighbours keeps the same elements. */
  lemma SwapKeepsElements<T>(s: seq<T>, j: nat)
    requires 0 < j < |s|
    ensures multiset(s[j - 1 := s[j]][j := s[j - 1]]) == multiset(s)
  {
    var t := s[j - 1 := s[j]][j := s[j - 1]];
    assert s == s[..j - 1] + [s[j - 1], s[j]] + s[j + 1..];
    assert t == s[..j - 1] + [s[j], s[j - 1]] + s[j + 1..];
  }

  /** Sorts `a` in place by insertion: each element is swapped leftwards past
      every element that sorts after it. */
  method SortArray<T(!new)>(le: (T, T) -> bool, a: array<T>)
    requires TotalOrder(le)
    modifies a
    ensures Sorted(le, a[..])
    ensures multiset(a[..]) == multiset(old(a[..]))
    ensures a[..] == SortSeq(le, old(a[..]))
  {
    var i := 0;
    while i < a.Length
      invariant 0 <= i <= a.Length
      invariant SortedPrefix(le, a[..], i)
      invariant multiset(a[..]) == multiset(old(a[..]))
    {
      SinkLast(le, a, i);
      i := i + 1;
    }
    SortedUnique(le, a[..], SortSeq(le, old(a[..])));
  }

  /** One pass of the insertion sort: `a[i]` moves left past the elements of
      the sorted prefix `a[..i]` that sort after it. */
  method SinkLast<T(!new)>(le: (T, T) -> bool, a: array<T>, i: nat)
    requires TotalOrder(le)
    requires i < a.Length && SortedPrefix(le, a[..], i)
    modifies a
    ensures SortedPrefix(le, a[..], i + 1)
    ensures multiset(a[..]) == multiset(old(a[..]))
    ensures a[i + 1..] == old(a[i + 1..])
  {
    var j := i;
    while 0 < j && !le(a[j - 1], a[j])
      invariant 0 <= j <= i
      invariant a[i + 1..] == old(a[i + 1..])
      invariant SortedAround(le, a[..], i, j) && BelowFollowers(le, a[..], i, j)
      invariant multiset(a[..]) == multiset(old(a[..]))
    {
      ghost var s := a[..];
      SwapStep(le, s, i, j);
      SwapKeepsElements(s, j);
      a[j - 1], a[j] := a[j], a[j - 1];
      assert a[..] == s[j - 1 := s[j]][j := s[j - 1]];
      j := j - 1;
    }
    SinkDone(le, a[..], i, j);
  }

  /** The first `i + 1` elements, apart from the one at `j`, are in order. */
  predicate SortedAround<T>(le: (T, T) -> bool, s: seq<T>, i: nat, j: nat)
    requires i < |s|
  {
    forall p, q :: 0 <= p < q <= i && p != j && q != j ==> le(s[p], s[q])
  }

  /** The element at `j` sorts no later than every element after it up to `i`. */
  predicate BelowFollowers<T>(le: (T, T) -> bool, s: seq<T>, i: nat, j: nat)
    requires j <= i < |s|
  {
    forall q :: j < q <= i ==> le(s[j], s[q])
  }

  /** Swapping the moving element with a left neighbour that sorts after it
      keeps both loop invariants, one place further left. */
  lemma SwapStep<T(!new)>(le: (T, T) -> bool, s: seq<T>, i: nat, j: nat)
    requires TotalOrder(le)
    requires 0 < j <= i < |s| && !le(s[j - 1], s[j])
    requires SortedAround(le, s, i, j) && BelowFollowers(le, s, i, j)
    ensures SortedAround(le, s[j - 1 := s[j]][j := s[j - 1]], i, j - 1)
    ensures BelowFollowers(le, s[j - 1 := s[j]][j := s[j - 1]], i, j - 1)
  {
    var t := s[j - 1 := s[j]][j := s[j - 1]];
    assert le(s[j], s[j - 1]);
    forall q | j - 1 < q <= i ensures le(t[j - 1], t[q]) {
    }
  }

  /** When the moving element has stopped, the first `i + 1` elements are
      in order. */
  lemma SinkDone<T(!new)>(le: (T, T) -> bool, s: seq<T>, i: nat, j: nat)
    requires TotalOrder(le)
    requires j <= i < |s| && (j == 0 || le(s[j - 1], s[j]))
    requires SortedAround(le, s, i, j) && BelowFollowers(le, s, i, j)
    ensures SortedPrefix(le, s, i + 1)
  {
    forall p, q | 0 <= p < q < i + 1 ensures le(s[p], s[q]) {
      if q == j && p < j - 1 {
        assert le(s[p], s[j - 1]);
      }
    }
  }
}
