/** `sort_and_save_yaml_lists`: read one file, parse it into documents, sort
    every sequence in every document, decide whether anything changed, and in
    write mode re-emit the documents and overwrite the file when it did.

    The file system and the YAML library are outside the model: what the file
    system answers is given as a FileEnv value, parsing and dumping are
    function parameters, and the effect on the file is returned as a
    WriteEffect value. */
module SortAndSave {
  import opened YamlValue
  import opened Sorting
  import opened Canonical

  datatype Error =
    | Io(message: string)      // open, read, create or write failed
    | Scan(message: string)    // the text is not well-formed YAML
    | Emit(message: string)    // a document could not be dumped

  datatype Result<T> = Ok(value: T) | Err(error: Error)

  datatype Status = Done | Failed(error: Error)

  /** What the file system answers for one file: the text read by the
      validation pass, the text read by the sorting pass, and the outcome of
      creating (truncating) the file and of writing it. */
  datatype FileEnv = FileEnv(
    validationRead: Result<string>,
    read: Result<string>,
    create: Status,
    write: Status)

  /** The library's multi-document loader. */
  type Parser = string -> Result<seq<Yaml>>

  /** The library's emitter for one document. */
  type Dumper = Yaml -> Result<string>

  /** What happened to the file on disk. Truncated: it was created anew but
      writing failed, so what it holds afterwards is not known. */
  datatype WriteEffect = Untouched | Rewritten(text: string) | Truncated

  /** Reading a file's text and parsing it, failing at the first step that fails. */
  function Load(read: Result<string>, parse: Parser): Result<seq<Yaml>> {
    match read
    case Err(e) => Err(e)
    case Ok(content) => parse(content)
  }

  // ---------------------------------------------------------------------
  // Sorting a node and a forest

  /** `sort_yaml`: sort the elements of a sequence, then the sequence; sort
      the values of a mapping; leave every other node alone. */
  method SortYaml(v: Yaml) returns (r: Yaml)
    ensures r == Canon(v)
    decreases v, 2
  {
    match v {
      case Array(xs) =>
        var sorted := SortSequence(xs);
        r := Array(sorted);
      case Hash(es) =>
        var entries := SortMappingValues(es);
        r := Hash(entries);
      case _ =>
        r := v;
    }
  }

  /** The arm for a sequence: each element is sorted in place, then the
      sequence itself is sorted in place. */
  method SortSequence(xs: seq<Yaml>) returns (r: seq<Yaml>)
    ensures Array(r) == Canon(Array(xs))
    decreases xs, 1
  {
    var elems := SortElements(xs);
    var arr := new Yaml[|elems|](k requires 0 <= k < |elems| => elems[k]);
    assert arr[..] == elems;
    SortNodes(arr);
    r := arr[..];
    CanonSequenceIs(xs, r);
  }

  /** The loop over the elements of a sequence, sorting each one in place. */
  method SortElements(xs: seq<Yaml>) returns (elems: seq<Yaml>)
    ensures elems == CanonAll(xs)
    decreases xs, 0
  {
    elems := xs;
    var i := 0;
    while i < |elems|
      invariant 0 <= i <= |elems| == |xs|
      invariant forall k :: 0 <= k < i ==> elems[k] == CanonAll(xs)[k]
      invariant forall k :: i <= k < |elems| ==> elems[k] == xs[k]
    {
      var sorted := SortYaml(elems[i]);
      elems := elems[i := sorted];
      i := i + 1;
    }
  }

  /** `arr.sort()` on an array of nodes, under their derived order. */
  method SortNodes(arr: array<Yaml>)
    modifies arr
    ensures Sorted(Leq, arr[..])
    ensures multiset(arr[..]) == multiset(old(arr[..]))
  {
    LeqIsTotalOrder();
    SortArray(Leq, arr);
  }

  /** The arm for a mapping: each value is sorted in place; the keys and
      their order stay. */
  method SortMappingValues(es: seq<(Yaml, Yaml)>) returns (r: seq<(Yaml, Yaml)>)
    ensures r == CanonEntries(es)
    decreases es, 1
  {
    var entries := new (Yaml, Yaml)[|es|](i requires 0 <= i < |es| => es[i]);
    var i := 0;
    while i < entries.Length
      invariant 0 <= i <= entries.Length
      invariant forall k :: 0 <= k < i ==> entries[k] == CanonEntry(es[k])
      invariant forall k :: i <= k < entries.Length ==> entries[k] == es[k]
    {
      entries[i] := SortEntryValue(entries[i]);
      i := i + 1;
    }
    r := entries[..];
  }

  /** One step of the loop over a mapping: the key stays, the value is sorted. */
  method SortEntryValue(e: (Yaml, Yaml)) returns (r: (Yaml, Yaml))
    ensures r == CanonEntry(e)
    decreases e, 0
  {
    var value := SortYaml(e.1);
    r := (e.0, value);
  }

  /** Every document of a file, each in canonical form, in the same order. */
  function CanonForest(docs: seq<Yaml>): (r: seq<Yaml>) {
    seq(|docs|, i requires 0 <= i < |docs| => Canon(docs[i]))
  }

  /** The loop over the parsed documents, sorting each one in place. */
  method SortDocs(docs: seq<Yaml>) returns (sorted: seq<Yaml>)
    ensures sorted == CanonForest(docs)
  {
    sorted := docs;
    var i := 0;
    while i < |sorted|
      invariant 0 <= i <= |sorted| == |docs|
      invariant forall k :: 0 <= k < i ==> sorted[k] == CanonForest(docs)[k]
      invariant forall k :: i <= k < |sorted| ==> sorted[k] == docs[k]
    {
      var doc := SortYaml(sorted[i]);
      sorted := sorted[i := doc];
      i := i + 1;
    }
  }

  /** A forest is left unchanged by sorting exactly when every document in it
      is already canonical. */
  lemma ForestUnchangedIff(docs: seq<Yaml>)
    ensures CanonForest(docs) == docs <==> forall i :: 0 <= i < |docs| ==> IsCanonical(docs[i])
  {
    forall i | 0 <= i < |docs| ensures Canon(docs[i]) == docs[i] <==> IsCanonical(docs[i]) {
      CanonUnchangedIff(docs[i]);
    }
    if CanonForest(docs) == docs {
      forall i | 0 <= i < |docs| ensures IsCanonical(docs[i]) {
        assert CanonForest(docs)[i] == docs[i];
      }
    }
  }

  /** Sorting a forest twice gives what sorting it once gives. */
  lemma ForestIdempotent(docs: seq<Yaml>)
    ensures CanonForest(CanonForest(docs)) == CanonForest(docs)
  {
    forall i | 0 <= i < |docs| ensures Canon(Canon(docs[i])) == Canon(docs[i]) {
      CanonIdempotent(docs[i]);
    }
  }

  // ---------------------------------------------------------------------
  // Emitting several documents into one text

  const Separator: string := "---\n"

  /** The dumped documents with one separator between consecutive ones and
      none after the last. */
  function Join(parts: seq<string>): string {
    if |parts| == 0 then ""
    else if |parts| == 1 then parts[0]
    else Join(parts[..|parts| - 1]) + Separator + parts[|parts| - 1]
  }

  function TotalLength(parts: seq<string>): nat {
    if parts == [] then 0 else TotalLength(parts[..|parts| - 1]) + |parts[|parts| - 1]|
  }

  /** The joined text holds every dumped document and exactly one separator
      per pair of consecutive documents. */
  lemma {:induction false} JoinLength(parts: seq<string>)
    requires parts != []
    ensures |Join(parts)| == TotalLength(parts) + |Separator| * (|parts| - 1)
  {
    if |parts| > 1 {
      JoinLength(parts[..|parts| - 1]);
    }
  }

  /** Joining two non-empty runs of documents puts exactly one separator
      between them: the text starts with the first document's dump and ends
      with the last document's dump. */
  lemma {:induction false} JoinAppend(ps: seq<string>, qs: seq<string>)
    requires ps != [] && qs != []
    ensures Join(ps + qs) == Join(ps) + Separator + Join(qs)
    decreases |qs|
  {
    var all := ps + qs;
    if |qs| == 1 {
      assert all[..|all| - 1] == ps;
    } else {
      var front := qs[..|qs| - 1];
      assert all[..|all| - 1] == ps + front;
      JoinAppend(ps, front);
    }
  }

  /** Dumping every document in order, stopping at the first that fails. */
  function DumpAll(docs: seq<Yaml>, dump: Dumper): Result<seq<string>> {
    if docs == [] then Ok([])
    else
      var front := docs[..|docs| - 1];
      match DumpAll(front, dump)
      case Err(e) => Err(e)
      case Ok(ts) =>
        match dump(docs[|docs| - 1])
        case Err(e) => Err(e)
        case Ok(t) => Ok(ts + [t])
  }

  /** Dumping a forest succeeds exactly when every document's dump succeeds,
      and then yields one text per document, in document order. */
  lemma {:induction false} DumpAllOk(docs: seq<Yaml>, dump: Dumper)
    ensures DumpAll(docs, dump).Ok? <==> forall i :: 0 <= i < |docs| ==> dump(docs[i]).Ok?
    ensures DumpAll(docs, dump).Ok? ==>
      && |DumpAll(docs, dump).value| == |docs|
      && forall i :: 0 <= i < |docs| ==> dump(docs[i]) == Ok(DumpAll(docs, dump).value[i])
    decreases |docs|
  {
    if docs != [] {
      var front := docs[..|docs| - 1];
      DumpAllOk(front, dump);
      assert forall i :: 0 <= i < |front| ==> front[i] == docs[i];
    }
  }

  /** When the first failing dump is that of document `i`, its error is the
      one reported. */
  lemma {:induction false} DumpAllFirstError(docs: seq<Yaml>, dump: Dumper, i: nat)
    requires i < |docs| && dump(docs[i]).Err?
    requires forall j :: 0 <= j < i ==> dump(docs[j]).Ok?
    ensures DumpAll(docs, dump) == Err(dump(docs[i]).error)
    decreases |docs|
  {
    var front := docs[..|docs| - 1];
    if i < |docs| - 1 {
      DumpAllFirstError(front, dump, i);
    } else {
      DumpAllOk(front, dump);
    }
  }

  /** The text written for a forest, or the first dump error. */
  function Emission(docs: seq<Yaml>, dump: Dumper): Result<string> {
    match DumpAll(docs, dump)
    case Err(e) => Err(e)
    case Ok(texts) => Ok(Join(texts))
  }

  /** Dumping one more document after a successful prefix appends its text. */
  lemma DumpAllExtend(docs: seq<Yaml>, dump: Dumper, i: nat, texts: seq<string>, t: string)
    requires i < |docs|
    requires DumpAll(docs[..i], dump) == Ok(texts) && dump(docs[i]) == Ok(t)
    ensures DumpAll(docs[..i + 1], dump) == Ok(texts + [t])
  {
    assert docs[..i + 1][..i] == docs[..i];
  }

  /** A failing dump after a successful prefix decides the whole emission. */
  lemma DumpAllStopsAt(docs: seq<Yaml>, dump: Dumper, i: nat)
    requires i < |docs|
    requires DumpAll(docs[..i], dump).Ok? && dump(docs[i]).Err?
    ensures Emission(docs, dump) == Err(dump(docs[i]).error)
  {
    DumpAllOk(docs[..i], dump);
    forall j | 0 <= j < i ensures dump(docs[j]).Ok? {
      assert docs[..i][j] == docs[j];
    }
    DumpAllFirstError(docs, dump, i);
  }

  /** One turn of the emission loop: once the dump of document `i` is
      appended, and the separator too unless it is the last document, the
      buffer again holds the joined dumps so far, followed by a separator
      when more documents follow. */
  lemma EmitStep(buffer: string, texts: seq<string>, t: string, i: nat, n: nat)
    requires |texts| == i < n
    requires 0 < i ==> buffer == Join(texts) + Separator
    requires i == 0 ==> buffer == ""
    ensures i < n - 1 ==> buffer + t + Separator == Join(texts + [t]) + Separator
    ensures i == n - 1 ==> buffer + t == Join(texts + [t])
  {
    assert (texts + [t])[..|texts|] == texts;
  }

  /** The loop that dumps each document into one buffer, adding the
      separator after every document but the last. */
  method EmitDocs(docs: seq<Yaml>, dump: Dumper) returns (r: Result<string>)
    ensures r == Emission(docs, dump)
  {
    var sortedYaml := "";
    ghost var texts: seq<string> := [];
    var i := 0;
    while i < |docs|
      invariant 0 <= i <= |docs| && |texts| == i
      invariant DumpAll(docs[..i], dump) == Ok(texts)
      invariant 0 < i < |docs| ==> sortedYaml == Join(texts) + Separator
      invariant (i == 0 || i == |docs|) ==> sortedYaml == Join(texts)
    {
      var dumped := dump(docs[i]);
      if dumped.Err? {
        DumpAllStopsAt(docs, dump, i);
        return Err(dumped.error);
      }
      EmitStep(sortedYaml, texts, dumped.value, i, |docs|);
      DumpAllExtend(docs, dump, i, texts, dumped.value);
      sortedYaml := sortedYaml + dumped.value;
      if i < |docs| - 1 {
        sortedYaml := sortedYaml + Separator;
      }
      texts := texts + [dumped.value];
      i := i + 1;
    }
    assert docs[..i] == docs;
    r := Ok(sortedYaml);
  }

  // ---------------------------------------------------------------------
  // One file

  /** What `sort_and_save_yaml_lists` returns for one file and what it does to
      the file. */
  function SaveOutcome(env: FileEnv, checkFlag: bool, parse: Parser, dump: Dumper): (out: (Result<bool>, WriteEffect))
    // the result reports whether sorting changed any document
    ensures out.0.Ok? ==>
      && Load(env.read, parse).Ok?
      && (out.0.value <==> CanonForest(Load(env.read, parse).value) != Load(env.read, parse).value)
    // check mode never touches the file
    ensures checkFlag ==> out.1 == Untouched
    // a file that sorting did not change is never rewritten
    ensures out.0 == Ok(false) ==> out.1 == Untouched
    // the file is only touched after every document was dumped, and only
    // rewritten with the emission of the sorted documents
    ensures out.1 != Untouched ==>
      && !checkFlag
      && Load(env.read, parse).Ok?
      && Emission(CanonForest(Load(env.read, parse).value), dump).Ok?
      && env.create.Done?
    ensures out.1.Rewritten? ==>
      && out.0 == Ok(true)
      && Emission(CanonForest(Load(env.read, parse).value), dump) == Ok(out.1.text)
    // a file that cannot be read or parsed gives that error and is not touched
    ensures Load(env.read, parse).Err? ==> out == (Err(Load(env.read, parse).error), Untouched)
    // in check mode, and for a file sorting did not change, the result is
    // whether sorting changed a document
    ensures var loaded := Load(env.read, parse);
      loaded.Ok? && (checkFlag || CanonForest(loaded.value) == loaded.value) ==>
        out.0 == Ok(CanonForest(loaded.value) != loaded.value)
    // a changed file in write mode is rewritten when every step succeeds
    ensures var loaded := Load(env.read, parse);
      && !checkFlag && loaded.Ok? && CanonForest(loaded.value) != loaded.value
      && Emission(CanonForest(loaded.value), dump).Ok? && env.create.Done? && env.write.Done?
      ==> out == (Ok(true), Rewritten(Emission(CanonForest(loaded.value), dump).value))
    // the call fails exactly when reading, parsing, a dump, creating or writing fails
    ensures var loaded := Load(env.read, parse);
      out.0.Err? <==>
        || loaded.Err?
        || (&& !checkFlag && CanonForest(loaded.value) != loaded.value
            && (Emission(CanonForest(loaded.value), dump).Err? || env.create.Failed? || env.write.Failed?))
  {
    match Load(env.read, parse)
    case Err(e) => (Err(e), Untouched)
    case Ok(docs) =>
      var sorted := CanonForest(docs);
      var fileModified := sorted != docs;
      if checkFlag then (Ok(fileModified), Untouched)
      else if !fileModified then (Ok(false), Untouched)
      else
        match Emission(sorted, dump)
        case Err(e) => (Err(e), Untouched)
        case Ok(text) =>
          if env.create.Failed? then (Err(env.create.error), Untouched)
          else if env.write.Failed? then (Err(env.write.error), Truncated)
          else (Ok(true), Rewritten(text))
  }

  method SortAndSaveYamlLists(env: FileEnv, checkFlag: bool, parse: Parser, dump: Dumper)
    returns (r: Result<bool>, effect: WriteEffect)
    ensures (r, effect) == SaveOutcome(env, checkFlag, parse, dump)
  {
    if env.read.Err? {
      return Err(env.read.error), Untouched;
    }
    var loaded := parse(env.read.value);
    if loaded.Err? {
      return Err(loaded.error), Untouched;
    }
    var originalDocs := loaded.value;
    var docs := SortDocs(originalDocs);
    var fileModified := docs != originalDocs;
    if checkFlag {
      return Ok(fileModified), Untouched;
    }
    effect := Untouched;
    if fileModified {
      var sortedYaml := EmitDocs(docs, dump);
      if sortedYaml.Err? {
        return Err(sortedYaml.error), Untouched;
      }
      if env.create.Failed? {
        return Err(env.create.error), Untouched;
      }
      if env.write.Failed? {
        return Err(env.write.error), Truncated;
      }
      effect := Rewritten(sortedYaml.value);
    }
    r := Ok(fileModified);
  }

  /** The result says "modified" exactly when some document had a sequence,
      at some depth, that was not sorted. */
  lemma ModifiedIffUnsorted(env: FileEnv, checkFlag: bool, parse: Parser, dump: Dumper)
    requires SaveOutcome(env, checkFlag, parse, dump).0.Ok?
    ensures var docs := Load(env.read, parse).value;
      SaveOutcome(env, checkFlag, parse, dump).0.value <==> exists i :: 0 <= i < |docs| && !IsCanonical(docs[i])
  {
    ForestUnchangedIff(Load(env.read, parse).value);
  }

  /** A file whose documents are already sorted (for instance, the text the
      linter itself wrote, when the library reads it back as it was dumped)
      is reported unmodified and left alone. */
  lemma SortedFileIsLeftAlone(env: FileEnv, checkFlag: bool, parse: Parser, dump: Dumper, docs: seq<Yaml>)
    requires Load(env.read, parse) == Ok(CanonForest(docs))
    ensures SaveOutcome(env, checkFlag, parse, dump) == (Ok(false), Untouched)
  {
    ForestIdempotent(docs);
  }
}
