/** The loop in `main`: validate each file, sort and save it, fold the
    per-file results into one error flag, and exit with status 1 when the
    flag is set. Console output is reduced to the outcome each branch
    reports. */
module Linter {
  import opened YamlValue
  import opened Canonical
  import opened SortAndSave

  /** `is_valid_yaml`: the file can be opened and read, and its text parses. */
  function IsValidYaml(env: FileEnv, parse: Parser): (r: Status)
    // valid exactly when the file can be read and its text parses
    ensures r.Done? <==> env.validationRead.Ok? && parse(env.validationRead.value).Ok?
    // otherwise the error is that of the failing step
    ensures r.Failed? && env.validationRead.Err? ==> r.error == env.validationRead.error
    ensures r.Failed? && env.validationRead.Ok? ==> r.error == parse(env.validationRead.value).error
  {
    match Load(env.validationRead, parse)
    case Err(e) => Failed(e)
    case Ok(_) => Done
  }

  /** The outcome reported for one file. Unsorted is reported in check mode
      only; NewlySorted in write mode only. */
  datatype Report =
    | InvalidYaml(error: Error)
    | UpdateFailed(error: Error)
    | Unsorted
    | NewlySorted
    | AlreadySorted
  {
    /** The outcomes that set the error flag. */
    predicate IsError() {
      InvalidYaml? || UpdateFailed?
    }
  }

  /** What the body of the loop reports for one file, and what it does to it. */
  function FileReport(env: FileEnv, checkFlag: bool, parse: Parser, dump: Dumper): (out: (Report, WriteEffect))
    // the flag is set exactly when validation fails or sorting and saving fails
    ensures out.0.IsError() <==>
      IsValidYaml(env, parse).Failed? || SaveOutcome(env, checkFlag, parse, dump).0.Err?
    // an unsorted file in check mode is reported but is not an error
    ensures out.0 == Unsorted <==>
      checkFlag && IsValidYaml(env, parse).Done? && SaveOutcome(env, checkFlag, parse, dump).0 == Ok(true)
    // a file that fails validation is not sorted, nor touched
    ensures IsValidYaml(env, parse).Failed? ==> out.1 == Untouched
    ensures checkFlag ==> out.1 == Untouched
    // a valid file meets the fate sorting and saving gives it
    ensures IsValidYaml(env, parse).Done? ==> out.1 == SaveOutcome(env, checkFlag, parse, dump).1
  {
    match IsValidYaml(env, parse)
    case Failed(e) => (InvalidYaml(e), Untouched)
    case Done =>
      var (result, effect) := SaveOutcome(env, checkFlag, parse, dump);
      match result
      case Err(e) => (UpdateFailed(e), effect)
      case Ok(fileModified) =>
        (if !fileModified then AlreadySorted else if checkFlag then Unsorted else NewlySorted, effect)
  }

  /** The loop over the discovered files and the exit status it leads to. */
  method LintFiles(files: seq<FileEnv>, checkFlag: bool, parse: Parser, dump: Dumper)
    returns (exitStatus: int, reports: seq<Report>, effects: seq<WriteEffect>)
    ensures |reports| == |effects| == |files|
    ensures forall i :: 0 <= i < |files| ==> (reports[i], effects[i]) == FileReport(files[i], checkFlag, parse, dump)
    ensures exitStatus == (if exists i :: 0 <= i < |files| && reports[i].IsError() then 1 else 0)
    ensures checkFlag ==> forall i :: 0 <= i < |files| ==> effects[i] == Untouched
  {
    var errorsFound := false;
    reports, effects := [], [];
    for i := 0 to |files|
      invariant |reports| == |effects| == i
      invariant forall k :: 0 <= k < i ==> (reports[k], effects[k]) == FileReport(files[k], checkFlag, parse, dump)
      invariant errorsFound <==> exists k :: 0 <= k < i && reports[k].IsError()
    {
      var file := files[i];
      var valid := IsValidYaml(file, parse);
      var report: Report;
      var effect := Untouched;
      if valid.Failed? {
        errorsFound := true;
        report := InvalidYaml(valid.error);
      } else {
        var ok;
        ok, effect := SortAndSaveYamlLists(file, checkFlag, parse, dump);
        if ok.Err? {
          errorsFound := true;
          report := UpdateFailed(ok.error);
        } else if ok.value {
          report := if checkFlag then Unsorted else NewlySorted;
        } else {
          report := AlreadySorted;
        }
      }
      reports, effects := reports + [report], effects + [effect];
    }
    exitStatus := if errorsFound then 1 else 0;
  }
}
