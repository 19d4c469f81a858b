/** The canonical form of a document: what `sort_yaml` turns a node into.
    Every sequence is sorted after its elements have been made canonical;
    every mapping value is made canonical while the keys and their order
    stay as they are; every other node stays as it is. */
module Canonical {
  import opened YamlValue
  import opened Sorting

  /** The derived order on nodes is a total order, so arrays of nodes can be
      sorted by it and have exactly one sorted permutation. */
  lemma LeqIsTotalOrder()
    ensures TotalOrder(Leq)
  {
    forall x, y ensures Leq(x, y) || Leq(y, x) {
      LeqTotal(x, y);
    }
    forall x, y | Leq(x, y) && Leq(y, x) ensures x == y {
      LeqAntisymmetric(x, y);
    }
    forall x, y, z | Leq(x, y) && Leq(y, z) ensures Leq(x, z) {
      CmpTrans(x, y, z);
    }
  }

  function Keys(es: seq<(Yaml, Yaml)>): (ks: seq<Yaml>) {
    seq(|es|, i requires 0 <= i < |es| => es[i].0)
  }

  /** The canonical form of a node. */
  function Canon(v: Yaml): (r: Yaml)
    decreases v
  {
    match v
    case Array(xs) =>
      LeqIsTotalOrder();
      Array(SortSeq(Leq, CanonAll(xs)))
    case Hash(es) => Hash(CanonEntries(es))
    case _ => v
  }

  /** Sorting never changes a node's kind, a sequence's length or a
      mapping's keys; a sequence becomes a sorted permutation of its
      canonical elements; every other node is left as it is. */
  lemma CanonShape(v: Yaml)
    ensures Rank(Canon(v)) == Rank(v)
    ensures v.Array? ==>
      && |Canon(v).elems| == |v.elems|
      && Sorted(Leq, Canon(v).elems)
      && multiset(Canon(v).elems) == multiset(CanonAll(v.elems))
    ensures v.Hash? ==> Keys(Canon(v).entries) == Keys(v.entries)
    ensures !v.Array? && !v.Hash? ==> Canon(v) == v
  {
    match v
    case Array(xs) =>
      var sorted := Canon(v).elems;
      assert |sorted| == |multiset(sorted)| == |multiset(CanonAll(xs))| == |xs|;
    case Hash(es) =>
      CanonMapping(es);
    case _ =>
  }

  /** Any sorted permutation of a sequence's canonical elements is its
      canonical form: a stable and an unstable sort agree. */
  lemma CanonSequenceIs(xs: seq<Yaml>, ys: seq<Yaml>)
    requires Sorted(Leq, ys)
    requires multiset(ys) == multiset(CanonAll(xs))
    ensures Canon(Array(xs)) == Array(ys)
  {
    LeqIsTotalOrder();
    SortedUnique(Leq, SortSeq(Leq, CanonAll(xs)), ys);
  }

  /** In a mapping, the keys, their number and their order stay, and each
      value is replaced by its own canonical form. */
  lemma CanonMapping(es: seq<(Yaml, Yaml)>)
    ensures Canon(Hash(es)).Hash?
    ensures |Canon(Hash(es)).entries| == |es|
    ensures forall i :: 0 <= i < |es| ==>
      Canon(Hash(es)).entries[i] == (es[i].0, Canon(es[i].1))
  {
    forall i | 0 <= i < |es| ensures CanonEntries(es)[i] == (es[i].0, Canon(es[i].1)) {
      assert CanonEntries(es)[i] == CanonEntry(es[i]);
    }
  }

  /** The elements of a sequence, each in canonical form, in their old order. */
  function CanonAll(xs: seq<Yaml>): (r: seq<Yaml>)
    decreases xs
  {
    seq(|xs|, i requires 0 <= i < |xs| => Canon(xs[i]))
  }

  /** An entry with the same key and its value in canonical form. */
  function CanonEntry(e: (Yaml, Yaml)): (r: (Yaml, Yaml))
    decreases e
  {
    (e.0, Canon(e.1))
  }

  function CanonEntries(es: seq<(Yaml, Yaml)>): (r: seq<(Yaml, Yaml)>)
    decreases es
  {
    seq(|es|, i requires 0 <= i < |es| => CanonEntry(es[i]))
  }

  /** A node is canonical when every sequence in it, at every depth, is
      sorted. Keys are not looked into: `sort_yaml` never touches them. */
  predicate IsCanonical(v: Yaml)
    decreases v
  {
    match v
    case Array(xs) => Sorted(Leq, xs) && forall i :: 0 <= i < |xs| ==> IsCanonical(xs[i])
    case Hash(es) => forall i :: 0 <= i < |es| ==> EntryIsCanonical(es[i])
    case _ => true
  }

  predicate EntryIsCanonical(e: (Yaml, Yaml))
    decreases e
  {
    IsCanonical(e.1)
  }

  // ---------------------------------------------------------------------
  // The canonical form is canonical

  lemma {:induction false} CanonIsCanonical(v: Yaml)
    ensures IsCanonical(Canon(v))
    decreases v
  {
    match v
    case Array(xs) =>
      var ys := CanonAll(xs);
      var r := Canon(v).elems;
      forall k | 0 <= k < |r| ensures IsCanonical(r[k]) {
        assert r[k] in multiset(ys);
        var i :| 0 <= i < |ys| && ys[i] == r[k];
        CanonIsCanonical(xs[i]);
      }
    case Hash(es) =>
      forall i | 0 <= i < |es| ensures EntryIsCanonical(CanonEntries(es)[i]) {
        CanonEntryIsCanonical(es[i]);
      }
    case _ =>
  }

  lemma {:induction false} CanonEntryIsCanonical(e: (Yaml, Yaml))
    ensures EntryIsCanonical(CanonEntry(e))
    decreases e
  {
    CanonIsCanonical(e.1);
  }

  // ---------------------------------------------------------------------
  // A canonical node is its own canonical form

  lemma {:induction false} CanonOfCanonical(v: Yaml)
    requires IsCanonical(v)
    ensures Canon(v) == v
    decreases v
  {
    match v
    case Array(xs) =>
      forall i | 0 <= i < |xs| ensures Canon(xs[i]) == xs[i] {
        CanonOfCanonical(xs[i]);
      }
      assert CanonAll(xs) == xs;
      LeqIsTotalOrder();
      SortSeqOfSorted(Leq, xs);
    case Hash(es) =>
      forall i | 0 <= i < |es| ensures CanonEntry(es[i]) == es[i] {
        CanonEntryOfCanonical(es[i]);
      }
      assert CanonEntries(es) == es;
    case _ =>
  }

  lemma {:induction false} CanonEntryOfCanonical(e: (Yaml, Yaml))
    requires EntryIsCanonical(e)
    ensures CanonEntry(e) == e
    decreases e
  {
    CanonOfCanonical(e.1);
  }

  /** Running the sort twice gives what running it once gives. */
  lemma CanonIdempotent(v: Yaml)
    ensures Canon(Canon(v)) == Canon(v)
  {
    CanonIsCanonical(v);
    CanonOfCanonical(Canon(v));
  }

  /** Sorting leaves a node unchanged exactly when every sequence in it is
      already sorted at every depth. */
  lemma CanonUnchangedIff(v: Yaml)
    ensures Canon(v) == v <==> IsCanonical(v)
  {
    CanonIsCanonical(v);
    if IsCanonical(v) {
      CanonOfCanonical(v);
    }
  }
}
