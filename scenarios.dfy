/** Worked examples of the sort on small documents. */
module Scenarios {
  import opened YamlValue
  import opened Sorting
  import opened Canonical
  import opened SortAndSave

  /** A sequence of three scalars has its own elements as canonical elements. */
  lemma ScalarsStay(x: Yaml, y: Yaml, z: Yaml)
    requires !x.Array? && !x.Hash? && !y.Array? && !y.Hash? && !z.Array? && !z.Hash?
    ensures CanonAll([x, y, z]) == [x, y, z]
  {
  }

  /** Integers sort by value. */
  lemma IntegerOrder(a: i64, b: i64)
    requires a < b
    ensures Leq(Integer(a), Integer(b)) && !Leq(Integer(b), Integer(a))
  {
  }

  /** Every integer sorts before every string. */
  lemma IntegerBeforeString(a: i64, s: string)
    ensures Leq(Integer(a), String(s)) && !Leq(String(s), Integer(a))
  {
  }

  /** Three nodes in order form a sorted sequence. */
  lemma SortedThree(x: Yaml, y: Yaml, z: Yaml)
    requires Leq(x, y) && Leq(y, z)
    ensures Sorted(Leq, [x, y, z])
  {
    CmpTrans(x, y, z);
  }

  /** Three integers out of order, `[c, a, b]` with `a < b < c`, come out as
      `[a, b, c]`, so the document counts as changed. */
  lemma IntegersAreSorted(a: i64, b: i64, c: i64)
    requires a < b < c
    ensures Canon(Array([Integer(c), Integer(a), Integer(b)])) == Array([Integer(a), Integer(b), Integer(c)])
    ensures Canon(Array([Integer(c), Integer(a), Integer(b)])) != Array([Integer(c), Integer(a), Integer(b)])
  {
    ScalarsStay(Integer(c), Integer(a), Integer(b));
    IntegerOrder(a, b);
    IntegerOrder(b, c);
    SortedThree(Integer(a), Integer(b), Integer(c));
    assert multiset([Integer(c), Integer(a), Integer(b)]) == multiset([Integer(a), Integer(b), Integer(c)]);
    CanonSequenceIs([Integer(c), Integer(a), Integer(b)], [Integer(a), Integer(b), Integer(c)]);
  }

  /** Nodes of different kinds sort by kind first: in `[j, s, i]` with
      integers `i < j` and a string `s`, the integers come first:
      `[i, j, s]`. */
  lemma KindsSortBeforeValues(i: i64, j: i64, s: string)
    requires i < j
    ensures Canon(Array([Integer(j), String(s), Integer(i)])) == Array([Integer(i), Integer(j), String(s)])
  {
    ScalarsStay(Integer(j), String(s), Integer(i));
    IntegerOrder(i, j);
    IntegerBeforeString(j, s);
    SortedThree(Integer(i), Integer(j), String(s));
    assert multiset([Integer(j), String(s), Integer(i)]) == multiset([Integer(i), Integer(j), String(s)]);
    CanonSequenceIs([Integer(j), String(s), Integer(i)], [Integer(i), Integer(j), String(s)]);
  }

  /** A sequence under a mapping key is sorted and the key stays:
      `{k: [b, a]}` with `a < b` becomes `{k: [a, b]}`. */
  lemma NestedSequenceIsSorted(k: Yaml, a: i64, b: i64)
    requires a < b
    ensures Canon(Hash([(k, Array([Integer(b), Integer(a)]))]))
         == Hash([(k, Array([Integer(a), Integer(b)]))])
  {
    IntegerOrder(a, b);
    PairSorted(a, b);
    CanonSequenceIs([Integer(b), Integer(a)], [Integer(a), Integer(b)]);
    CanonMapping([(k, Array([Integer(b), Integer(a)]))]);
  }

  /** Two integers: their canonical elements are themselves, and in order
      they form a sorted permutation of the pair. */
  lemma PairSorted(a: i64, b: i64)
    requires Leq(Integer(a), Integer(b))
    ensures CanonAll([Integer(b), Integer(a)]) == [Integer(b), Integer(a)]
    ensures Sorted(Leq, [Integer(a), Integer(b)])
    ensures multiset([Integer(a), Integer(b)]) == multiset(CanonAll([Integer(b), Integer(a)]))
  {
  }

  /** Two documents are written as the first dump, one separator line and
      the second dump. */
  lemma TwoDocumentsOneSeparator(d0: Yaml, d1: Yaml, dump: Dumper, t0: string, t1: string)
    requires dump(d0) == Ok(t0) && dump(d1) == Ok(t1)
    ensures Emission([d0, d1], dump) == Ok(t0 + "---\n" + t1)
  {
    assert [d0, d1][..1] == [d0];
    assert [d0][..0] == [];
    assert DumpAll([], dump) == Ok([]);
    assert [] + [t0] == [t0];
    assert DumpAll([d0], dump) == Ok([t0]);
    assert [t0] + [t1] == [t0, t1];
    assert DumpAll([d0, d1], dump) == Ok([t0, t1]);
    assert [t0, t1][..1] == [t0];
    assert Join([t0]) == t0;
    assert Join([t0, t1]) == t0 + Separator + t1;
  }
}
