# rust-yaml-linter: list canonicalisation, modelled in Dafny

The linter walks a directory tree for YAML files. For each file it parses the
documents, sorts every sequence in every document (recursively, after the
sequence's own elements have been sorted), and compares the result with the
parsed original. In check mode it only reports files that would change. In
write mode it re-emits the sorted documents, joined by `---\n`, and overwrites
each file that changed. Any file that fails to parse, or whose update fails,
sets an error flag, and the process then exits with status 1.

The model covers that pipeline in `src/main.rs`:

- `yaml_value.dfy` (module `YamlValue`): the YAML value tree (`Yaml`, with the
  constructors of the library's value type) and the order derived for it
  (`Cmp`). The module proves that this order is a total order. Only
  identical nodes compare `Equal`, swapping the operands flips the answer,
  and the order is transitive.
- `sorting.dfy` (module `Sorting`): sorting under any total order. It holds
  the specification `SortSeq` and the in-place insertion sort `SortArray`
  that stands for `Vec::sort`. It also proves that a list has exactly one
  sorted permutation (`SortedUnique`), so stability does not matter.
- `canonical.dfy` (module `Canonical`): `Canon`, the value `sort_yaml` leaves
  behind. It also holds the shape, idempotence and "unchanged iff already
  sorted" lemmas.
- `sort_and_save.dfy` (module `SortAndSave`): `sort_yaml` as the recursive
  method `SortYaml`, which copies elements into arrays, sorts each in place
  and then sorts the array. The module also has the loop over the documents,
  the emission loop with its separators, and `sort_and_save_yaml_lists`
  (`SortAndSaveYamlLists`, specified by `SaveOutcome`).
- `linter.dfy` (module `Linter`): the loop in `main` that folds per-file
  outcomes into `errors_found`, and the exit status.
- `scenarios.dfy` (module `Scenarios`): worked examples.

The file system and the YAML library are parameters of the model. A `FileEnv`
value gives what the two reads, `File::create` and `write_all` answer. The
loader and the emitter are the function parameters `parse` and `dump`. What
happens to a file is returned as a `WriteEffect`: `Untouched`,
`Rewritten(text)` or `Truncated`.

Three behaviours of the code that a reader might not expect:

- An unsorted file in check mode is reported but does not set `errors_found`,
  so the exit status stays 0 (`src/main.rs:56-61`).
- A mapping's entry order is part of equality and of the order, as in the
  insertion-ordered map the library uses.
- Nodes of different kinds compare by the declaration order of the library's
  value type (Real, Integer, String, Boolean, Array, Hash, Alias, Null,
  BadValue). The library is not part of this model, so this precedence is an
  assumption about that declaration order. The ordering, sorting and
  canonical-form lemmas use only the fact that the order is total.
  `Scenarios.IntegerBeforeString` and `Scenarios.KindsSortBeforeValues`
  depend on the precedence itself: they hold because Integer is declared
  before String.

## Model

| member | source | states |
|---|---|---|
| YamlValue.Cmp | src/main.rs:154 | The derived order that `arr.sort()` and the diff at line 173 rely on. Nodes of different kinds compare by the kind's declaration order, and integers compare by value |
| YamlValue.CmpFlip | src/main.rs:154 | Comparing `b` with `a` gives the flipped answer of comparing `a` with `b` (the order `arr.sort()` uses is antisymmetric) |
| YamlValue.CmpEqual | src/main.rs:154 | Two nodes compare `Equal` exactly when they are identical, so the order agrees with the equality behind the diff at line 173 |
| YamlValue.CmpTrans | src/main.rs:154 | The order is transitive, through nested sequences and mappings |
| YamlValue.LeqTotal | src/main.rs:154 | Any two nodes are comparable |
| YamlValue.LeqAntisymmetric | src/main.rs:154 | Nodes that each sort no later than the other are identical |
| Canonical.LeqIsTotalOrder | src/main.rs:154 | The derived order on nodes is a total order |
| Sorting.SortSeq | src/main.rs:154 | The sorted form of a list is sorted and is a permutation of the list |
| Sorting.SortedUnique | src/main.rs:154 | Two sorted permutations of the same elements are equal, so a stable and an unstable sort give the same array |
| Sorting.SortSeqOfSorted | src/main.rs:154 | Sorting an already sorted list leaves it unchanged |
| Sorting.SortArray | src/main.rs:154 | The in-place sort leaves the array sorted, as a permutation of its old contents, equal to `SortSeq` of them |
| Sorting.SinkLast | src/main.rs:154 | One pass of the in-place sort extends the sorted prefix by one element, keeps the array's elements and leaves the part after that element unchanged |
| Canonical.CanonShape | src/main.rs:148-163 | Sorting keeps a node's kind, a sequence's length and a mapping's keys. A sequence becomes a sorted permutation of its sorted elements, and every other node is returned unchanged |
| Canonical.CanonSequenceIs | src/main.rs:150-155 | Any sorted permutation of a sequence's recursively sorted elements is exactly what sorting the sequence produces |
| Canonical.CanonMapping | src/main.rs:156-160 | In a mapping, the keys, their number and their order stay, and each value is replaced by its own sorted form |
| Canonical.CanonIsCanonical | src/main.rs:148-163 | After sorting, every sequence at every depth is sorted |
| Canonical.CanonOfCanonical | src/main.rs:148-163 | A node whose sequences are all already sorted is left unchanged |
| Canonical.CanonIdempotent | src/main.rs:148-163 | Sorting a sorted node gives the same node |
| Canonical.CanonUnchangedIff | src/main.rs:148-173 | Sorting leaves a node unchanged exactly when every sequence in it is already sorted |
| SortAndSave.SortYaml | src/main.rs:148-163 | The recursive in-place sort produces exactly the canonical form of the node |
| SortAndSave.SortSequence | src/main.rs:150-155 | The Array arm sorts each element, then sorts the array, giving the canonical form of the sequence |
| SortAndSave.SortElements | src/main.rs:151-153 | The loop over a sequence's elements replaces each element by its own sorted form, in place and in order |
| SortAndSave.SortNodes | src/main.rs:154 | `arr.sort()` leaves the array sorted under the derived order, with the same elements |
| SortAndSave.SortMappingValues | src/main.rs:156-160 | The Hash arm sorts each value and keeps every key in place |
| SortAndSave.SortEntryValue | src/main.rs:157-159 | One mapping entry keeps its key and gets its value sorted |
| SortAndSave.SortDocs | src/main.rs:168-170 | Each document is sorted on its own; the number and order of documents stay |
| SortAndSave.ForestUnchangedIff | src/main.rs:165-173 | The sorted documents equal the clone exactly when every document was already sorted |
| SortAndSave.ForestIdempotent | src/main.rs:165-173 | Sorting the documents twice gives what sorting them once gives |
| SortAndSave.DumpAllOk | src/main.rs:183-185 | Dumping the documents succeeds exactly when every document's dump succeeds, and then yields one text per document, in document order |
| SortAndSave.DumpAllFirstError | src/main.rs:185 | The error returned is that of the first document whose dump fails |
| SortAndSave.DumpAllStopsAt | src/main.rs:185 | A failing dump after successful ones ends the emission with that dump's error |
| SortAndSave.EmitStep | src/main.rs:184-188 | After one turn of the loop, the buffer holds the dumps so far joined by `---\n`, with one more separator exactly when more documents follow |
| SortAndSave.EmitDocs | src/main.rs:182-189 | The buffer holds the dumps joined by `---\n`, or the loop returns the first dump error |
| SortAndSave.JoinLength | src/main.rs:182-189 | The emitted text is the dumps plus exactly one separator per pair of consecutive documents |
| SortAndSave.JoinAppend | src/main.rs:182-189 | Exactly one separator lies between consecutive documents. The text starts with the first dump and ends with the last one, with no trailing separator |
| SortAndSave.SaveOutcome | src/main.rs:137-195 | A file that cannot be read or parsed gives that error and is untouched. Otherwise `Ok(m)` means `m` says whether sorting changed a document; in check mode, or when nothing changed, the result is exactly that. The call fails exactly when reading, parsing, a dump, `File::create` or `write_all` fails. A changed file in write mode is rewritten with the emission of the sorted documents when every step succeeds. Check mode and unchanged files are never touched, and a file is touched only after every dump and `File::create` succeeded |
| SortAndSave.SortAndSaveYamlLists | src/main.rs:137-195 | The read/parse/clone/sort/diff/check/emit/create/write sequence returns what `SaveOutcome` describes and has the effect it describes |
| SortAndSave.ModifiedIffUnsorted | src/main.rs:165-177 | `file_modified` is true exactly when some document had a sequence, at some depth, that was not sorted |
| SortAndSave.SortedFileIsLeftAlone | src/main.rs:165-194 | A file whose documents are already sorted is reported unmodified and never written |
| Linter.IsValidYaml | src/main.rs:95-102 | A file is valid exactly when it can be read and its text parses; otherwise the error is that of the failing step |
| Linter.FileReport | src/main.rs:38-68 | A file sets the error flag exactly when validation or sorting-and-saving fails. An unsorted file in check mode is reported and is not an error. An invalid file is not touched, and a valid one meets the fate sorting and saving gives it |
| Linter.LintFiles | src/main.rs:36-73 | Every file gets its outcome in order. The exit status is 1 exactly when some outcome is an error, and check mode leaves every file untouched |
| Scenarios.IntegerOrder | src/main.rs:154 | Integers sort by value |
| Scenarios.IntegerBeforeString | src/main.rs:154 | Every integer sorts before every string |
| Scenarios.IntegersAreSorted | src/main.rs:150-155 | `[c, a, b]` with `a < b < c` sorts to `[a, b, c]`, so the document counts as changed |
| Scenarios.KindsSortBeforeValues | src/main.rs:150-155 | `[j, s, i]` with integers `i < j` and a string `s` sorts to `[i, j, s]`: integers before strings |
| Scenarios.NestedSequenceIsSorted | src/main.rs:156-160 | `{k: [b, a]}` with `a < b` becomes `{k: [a, b]}`: the key stays and its sequence is sorted |
| Scenarios.TwoDocumentsOneSeparator | src/main.rs:182-189 | Two documents are written as the first dump, `---\n`, and the second dump |

## Left out

- `find_yaml_files` (src/main.rs:76-90): directory walking and extension filtering are file-system plumbing. The model takes the file list as input.
- The `Cli` arguments and their parsing (src/main.rs:7-20), the `verbose` flag and all console output. They are presentation only; the model keeps the outcome each branch reports (`Report`).
- Opening, reading, creating and writing files. These are represented by the answers in `FileEnv`. What a file holds after `write_all` fails (`Truncated`) is not modelled.
- The bodies of `YamlLoader::load_from_str` and `YamlEmitter::dump` come from the YAML library, which is not part of this model. They are the parameters `parse` and `dump`. No round trip between them is stated.
- The library's derived order is not part of this model. `Cmp` writes it out as constructor precedence in the assumed declaration order (on which `Scenarios.IntegerBeforeString` and `Scenarios.KindsSortBeforeValues` depend), then payloads. Real numbers compare by their text, as the library stores them, so no floating point arithmetic is modelled.
- Key uniqueness and hashing inside a mapping are not modelled. A mapping is its list of entries in insertion order, and the sort never touches keys.
- `Vec::sort` is a stable merge sort; the model sorts by insertion. `SortedUnique` shows that both give the same array, because only identical nodes compare equal.
- Mutation through `&mut Yaml` is modelled on values: `SortYaml` returns the sorted node instead of updating it in place. The loops over a sequence's elements and over the documents update one position of a local sequence at a time. A mapping's entries and the sort itself work in place on an array. No aliasing is involved, since the tree has no sharing.
- Integer widths: `Integer` holds an `i64`. The `Alias` index (`usize`) is an unbounded `nat`, and it is only compared.
- `process::exit` is modelled as the returned `exitStatus`.
- `src/generate-yaml.rs` (a random fixture generator) is not part of this model.
