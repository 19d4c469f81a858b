/** The value tree of a parsed YAML document, and the total order the linter
    sorts sequences by: the order derived for the YAML library's value type. */
module YamlValue {

  /** The payload of an Integer node: a signed 64-bit integer. */
  newtype i64 = x: int | -0x8000_0000_0000_0000 <= x < 0x8000_0000_0000_0000

  /** One node of a document, with the constructors in the order the library
      declares them; that order decides how nodes of different kinds compare.
      A Real keeps the text it was written as. A Hash keeps its entries in
      insertion order, and that order is part of equality and of comparison. */
  datatype Yaml =
    | Real(text: string)
    | Integer(n: i64)
    | String(str: string)
    | Boolean(b: bool)
    | Array(elems: seq<Yaml>)
    | Hash(entries: seq<(Yaml, Yaml)>)
    | Alias(id: nat)
    | Null
    | BadValue

  datatype Ordering = Less | Equal | Greater {
    /** The answer to the comparison with its operands swapped. */
    function Flip(): Ordering {
      match this
      case Less => Greater
      case Equal => Equal
      case Greater => Less
    }
  }

  /** Position of a node's constructor in the declaration of the value type. */
  function Rank(v: Yaml): nat {
    match v
    case Real(_) => 0
    case Integer(_) => 1
    case String(_) => 2
    case Boolean(_) => 3
    case Array(_) => 4
    case Hash(_) => 5
    case Alias(_) => 6
    case Null => 7
    case BadValue => 8
  }

  function CmpInt(x: int, y: int): Ordering {
    if x < y then Less else if x == y then Equal else Greater
  }

  /** Lexicographic order on text, character by character; a proper prefix
      comes first. */
  function CmpStr(s: string, t: string): Ordering {
    if s == [] then (if t == [] then Equal else Less)
    else if t == [] then Greater
    else if s[0] < t[0] then Less
    else if s[0] > t[0] then Greater
    else CmpStr(s[1..], t[1..])
  }

  /** The derived order: constructors first, then the payloads. Sequences and
      entry lists compare lexicographically, an entry by its key and then by
      its value. */
  function Cmp(a: Yaml, b: Yaml): (r: Ordering)
    // nodes of different kinds compare by the kind's declaration order
    ensures Rank(a) < Rank(b) ==> r == Less
    ensures Rank(a) > Rank(b) ==> r == Greater
    // two integers compare by value
    ensures a.Integer? && b.Integer? ==> (r == Less <==> a.n < b.n) && (r == Equal <==> a.n == b.n)
    decreases a
  {
    if Rank(a) != Rank(b) then CmpInt(Rank(a), Rank(b))
    else match (a, b)
      case (Real(s), Real(t)) => CmpStr(s, t)
      case (Integer(m), Integer(n)) => CmpInt(m as int, n as int)
      case (String(s), String(t)) => CmpStr(s, t)
      case (Boolean(p), Boolean(q)) => CmpInt(if p then 1 else 0, if q then 1 else 0)
      case (Array(xs), Array(ys)) => CmpSeq(xs, ys)
      case (Hash(es), Hash(fs)) => CmpEntries(es, fs)
      case (Alias(i), Alias(j)) => CmpInt(i, j)
      case _ => Equal
  }

  function CmpSeq(xs: seq<Yaml>, ys: seq<Yaml>): Ordering
    decreases xs
  {
    if xs == [] then (if ys == [] then Equal else Less)
    else if ys == [] then Greater
    else
      var c := Cmp(xs[0], ys[0]);
      if c != Equal then c else CmpSeq(xs[1..], ys[1..])
  }

  /** An entry compares by its key, then by its value. */
  function CmpEntry(e: (Yaml, Yaml), f: (Yaml, Yaml)): Ordering
    decreases e
  {
    var k := Cmp(e.0, f.0);
    if k != Equal then k else Cmp(e.1, f.1)
  }

  function CmpEntries(es: seq<(Yaml, Yaml)>, fs: seq<(Yaml, Yaml)>): Ordering
    decreases es
  {
    if es == [] then (if fs == [] then Equal else Less)
    else if fs == [] then Greater
    else
      var c := CmpEntry(es[0], fs[0]);
      if c != Equal then c else CmpEntries(es[1..], fs[1..])
  }

  /** `a` sorts no later than `b`. */
  predicate Leq(a: Yaml, b: Yaml) {
    Cmp(a, b) != Greater
  }

  // ---------------------------------------------------------------------
  // Text order

  lemma {:induction false} CmpStrFlip(s: string, t: string)
    ensures CmpStr(t, s) == CmpStr(s, t).Flip()
  {
    if s != [] && t != [] && s[0] == t[0] {
      CmpStrFlip(s[1..], t[1..]);
    }
  }

  lemma {:induction false} CmpStrEqual(s: string, t: string)
    ensures CmpStr(s, t) == Equal <==> s == t
  {
    if s != [] && t != [] && s[0] == t[0] {
      CmpStrEqual(s[1..], t[1..]);
      assert s == [s[0]] + s[1..] && t == [t[0]] + t[1..];
    }
  }

  lemma {:induction false} CmpStrTrans(s: string, t: string, u: string)
    requires CmpStr(s, t) != Greater && CmpStr(t, u) != Greater
    ensures CmpStr(s, u) != Greater
  {
    if s != [] && t != [] && u != [] && s[0] == t[0] == u[0] {
      CmpStrTrans(s[1..], t[1..], u[1..]);
    }
  }

  // ---------------------------------------------------------------------
  // Swapping the operands flips the answer

  lemma {:induction false} CmpFlip(a: Yaml, b: Yaml)
    ensures Cmp(b, a) == Cmp(a, b).Flip()
    decreases a
  {
    if Rank(a) == Rank(b) {
      match (a, b)
      case (Real(s), Real(t)) => CmpStrFlip(s, t);
      case (String(s), String(t)) => CmpStrFlip(s, t);
      case (Array(xs), Array(ys)) => CmpSeqFlip(xs, ys);
      case (Hash(es), Hash(fs)) => CmpEntriesFlip(es, fs);
      case _ =>
    }
  }

  lemma {:induction false} CmpSeqFlip(xs: seq<Yaml>, ys: seq<Yaml>)
    ensures CmpSeq(ys, xs) == CmpSeq(xs, ys).Flip()
    decreases xs
  {
    if xs != [] && ys != [] {
      CmpFlip(xs[0], ys[0]);
      CmpSeqFlip(xs[1..], ys[1..]);
    }
  }

  lemma {:induction false} CmpEntriesFlip(es: seq<(Yaml, Yaml)>, fs: seq<(Yaml, Yaml)>)
    ensures CmpEntries(fs, es) == CmpEntries(es, fs).Flip()
    decreases es
  {
    if es != [] && fs != [] {
      CmpEntryFlip(es[0], fs[0]);
      CmpEntriesFlip(es[1..], fs[1..]);
    }
  }

  lemma {:induction false} CmpEntryFlip(e: (Yaml, Yaml), f: (Yaml, Yaml))
    ensures CmpEntry(f, e) == CmpEntry(e, f).Flip()
    decreases e
  {
    CmpFlip(e.0, f.0);
    CmpFlip(e.1, f.1);
  }

  // ---------------------------------------------------------------------
  // Only identical nodes compare equal

  lemma {:induction false} CmpEqual(a: Yaml, b: Yaml)
    ensures Cmp(a, b) == Equal <==> a == b
    decreases a
  {
    if Rank(a) == Rank(b) {
      match (a, b)
      case (Real(s), Real(t)) => CmpStrEqual(s, t);
      case (String(s), String(t)) => CmpStrEqual(s, t);
      case (Array(xs), Array(ys)) => CmpSeqEqual(xs, ys);
      case (Hash(es), Hash(fs)) => CmpEntriesEqual(es, fs);
      case _ =>
    }
  }

  lemma {:induction false} CmpSeqEqual(xs: seq<Yaml>, ys: seq<Yaml>)
    ensures CmpSeq(xs, ys) == Equal <==> xs == ys
    decreases xs
  {
    if xs != [] && ys != [] {
      CmpEqual(xs[0], ys[0]);
      CmpSeqEqual(xs[1..], ys[1..]);
      assert xs == [xs[0]] + xs[1..] && ys == [ys[0]] + ys[1..];
    }
  }

  lemma {:induction false} CmpEntriesEqual(es: seq<(Yaml, Yaml)>, fs: seq<(Yaml, Yaml)>)
    ensures CmpEntries(es, fs) == Equal <==> es == fs
    decreases es
  {
    if es != [] && fs != [] {
      CmpEntryEqual(es[0], fs[0]);
      CmpEntriesEqual(es[1..], fs[1..]);
      assert es == [es[0]] + es[1..] && fs == [fs[0]] + fs[1..];
    }
  }

  lemma {:induction false} CmpEntryEqual(e: (Yaml, Yaml), f: (Yaml, Yaml))
    ensures CmpEntry(e, f) == Equal <==> e == f
    decreases e
  {
    CmpEqual(e.0, f.0);
    CmpEqual(e.1, f.1);
  }

  // ---------------------------------------------------------------------
  // Transitivity

  lemma {:induction false} CmpTrans(a: Yaml, b: Yaml, c: Yaml)
    requires Leq(a, b) && Leq(b, c)
    ensures Leq(a, c)
    decreases a
  {
    if Rank(a) == Rank(b) == Rank(c) {
      match (a, b, c)
      case (Real(s), Real(t), Real(u)) => CmpStrTrans(s, t, u);
      case (String(s), String(t), String(u)) => CmpStrTrans(s, t, u);
      case (Array(xs), Array(ys), Array(zs)) => CmpSeqTrans(xs, ys, zs);
      case (Hash(es), Hash(fs), Hash(gs)) => CmpEntriesTrans(es, fs, gs);
      case _ =>
    }
  }

  lemma {:induction false} CmpSeqTrans(xs: seq<Yaml>, ys: seq<Yaml>, zs: seq<Yaml>)
    requires CmpSeq(xs, ys) != Greater && CmpSeq(ys, zs) != Greater
    ensures CmpSeq(xs, zs) != Greater
    decreases xs
  {
    if xs != [] {
      var x, y, z := xs[0], ys[0], zs[0];
      CmpEqual(x, y);
      CmpEqual(y, z);
      CmpEqual(x, z);
      CmpFlip(x, y);
      CmpTrans(x, y, z);
      if Cmp(x, y) == Equal && Cmp(y, z) == Equal {
        CmpSeqTrans(xs[1..], ys[1..], zs[1..]);
      }
    }
  }

  lemma {:induction false} CmpEntryTrans(e: (Yaml, Yaml), f: (Yaml, Yaml), g: (Yaml, Yaml))
    requires CmpEntry(e, f) != Greater && CmpEntry(f, g) != Greater
    ensures CmpEntry(e, g) != Greater
    ensures CmpEntry(e, f) == Less ==> CmpEntry(e, g) == Less
    decreases e
  {
    CmpEqual(e.0, f.0);
    CmpEqual(f.0, g.0);
    CmpEqual(e.0, g.0);
    CmpFlip(e.0, f.0);
    CmpTrans(e.0, f.0, g.0);
    if Cmp(e.0, f.0) == Equal && Cmp(f.0, g.0) == Equal {
      CmpEqual(e.1, f.1);
      CmpEqual(f.1, g.1);
      CmpEqual(e.1, g.1);
      CmpFlip(e.1, f.1);
      CmpTrans(e.1, f.1, g.1);
    }
  }

  lemma {:induction false} CmpEntriesTrans(es: seq<(Yaml, Yaml)>, fs: seq<(Yaml, Yaml)>, gs: seq<(Yaml, Yaml)>)
    requires CmpEntries(es, fs) != Greater && CmpEntries(fs, gs) != Greater
    ensures CmpEntries(es, gs) != Greater
    decreases es
  {
    if es != [] {
      CmpEntryEqual(es[0], fs[0]);
      CmpEntryEqual(fs[0], gs[0]);
      CmpEntryTrans(es[0], fs[0], gs[0]);
      if CmpEntry(es[0], fs[0]) == Equal && CmpEntry(fs[0], gs[0]) == Equal {
        CmpEntriesTrans(es[1..], fs[1..], gs[1..]);
      }
    }
  }

  // ---------------------------------------------------------------------
  // Leq is a total order

  lemma LeqTotal(a: Yaml, b: Yaml)
    ensures Leq(a, b) || Leq(b, a)
  {
    CmpFlip(a, b);
  }

  lemma LeqAntisymmetric(a: Yaml, b: Yaml)
    requires Leq(a, b) && Leq(b, a)
    ensures a == b
  {
    CmpFlip(a, b);
    CmpEqual(a, b);
  }

  lemma LeqReflexive(a: Yaml)
    ensures Leq(a, a)
  {
    CmpEqual(a, a);
  }
}
