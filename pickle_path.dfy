/**
 * `save_pickle_file` of notebooks/text_processing.py: it picks the target
 * folder (the working directory when none is given), replaces the spaces of
 * the file name by underscores, and saves under
 * `<folder>/<name>_<timestamp>_reddit.pkl`.
 *
 * As written the function never gets that far: it uses `Path` (and later
 * `datetime`), which the module does not import, so its first statement
 * raises NameError. The as-written behaviour and the evidently intended path
 * computation are both modelled; creating the folder, writing the pickle and
 * reading the clock are not (the timestamp is a parameter).
 */
module PicklePath {
  import opened Wrappers

  /** The exception raised. */
  datatype PyError = NameError(name: string)

  /** The names the module imports at the top of the file. */
  const ModuleNames: set<string> := {"re", "string", "Counter", "nltk", "np", "pd", "stopwords", "NMF", "TfidfVectorizer"}

  /** `save_pickle_file` as written: whichever branch runs, its first name lookup is `Path`, which is not bound. */
  function SavePickleFileAsWritten(folder: Option<string>, filename: string, cwd: string, timestamp: string): Result<string, PyError>
  {
    if "Path" in ModuleNames then Success(PicklePath(folder, filename, cwd, timestamp))
    else Failure(NameError("Path"))
  }

  /** As written, saving always fails with NameError on `Path`, whatever the arguments. */
  lemma SaveAlwaysFails(folder: Option<string>, filename: string, cwd: string, timestamp: string)
    ensures SavePickleFileAsWritten(folder, filename, cwd, timestamp) == Failure(NameError("Path"))
  {
    assert "Path" !in ModuleNames by {
      assert "Path"[0] == 'P';
    }
  }

  /** `filename.replace(" ", "_")`. */
  function Underscored(s: string): (r: string)
    ensures |r| == |s|
    ensures forall i :: 0 <= i < |s| ==> r[i] == if s[i] == ' ' then '_' else s[i]
  {
    seq(|s|, i requires 0 <= i < |s| => if s[i] == ' ' then '_' else s[i])
  }

  /** The folder used: the one given, or the working directory when it is missing or empty. */
  function TargetFolder(folder: Option<string>, cwd: string): string
  {
    if folder == None || folder.value == "" then cwd else folder.value
  }

  /** The file name the pickle is saved under. */
  function PickleName(filename: string, timestamp: string): string
  {
    Underscored(filename) + "_" + timestamp + "_reddit.pkl"
  }

  /** The intended result: the full path of the saved file. */
  function PicklePath(folder: Option<string>, filename: string, cwd: string, timestamp: string): string
  {
    TargetFolder(folder, cwd) + "/" + PickleName(filename, timestamp)
  }

  /** The corrected `save_pickle_file`, with `Path` and `datetime` imported: it returns the path. */
  function SavePickleFile(folder: Option<string>, filename: string, cwd: string, timestamp: string): Result<string, PyError>
  {
    Success(PicklePath(folder, filename, cwd, timestamp))
  }

  /**
   * The saved file lies directly in the chosen folder; its name is the given
   * name with every space turned into an underscore, then the timestamp, then
   * `_reddit.pkl`; and the name part holds no space unless the timestamp does.
   */
  lemma SavePickleFileSpec(folder: Option<string>, filename: string, cwd: string, timestamp: string)
    ensures SavePickleFile(folder, filename, cwd, timestamp).Success?
    ensures var p := SavePickleFile(folder, filename, cwd, timestamp).value;
      var dir := TargetFolder(folder, cwd);
      var n := |Underscored(filename)|;
      |p| == |dir| + 1 + |filename| + 1 + |timestamp| + 11 &&
      p[..|dir| + 1] == dir + "/" &&
      p[|dir| + 1..|dir| + 1 + n] == Underscored(filename) &&
      p[|p| - 11..] == "_reddit.pkl" &&
      (forall i :: |dir| + 1 <= i < |dir| + 1 + n ==> p[i] != ' ')
    ensures folder.Some? && folder.value != "" ==> TargetFolder(folder, cwd) == folder.value
    ensures folder == None || folder == Some("") ==> TargetFolder(folder, cwd) == cwd
  {
    var dir := TargetFolder(folder, cwd);
    var u := Underscored(filename);
    var p := PicklePath(folder, filename, cwd, timestamp);
    assert p == (dir + "/") + u + ("_" + timestamp + "_reddit.pkl");
    assert p[|dir| + 1..|dir| + 1 + |u|] == u;
    forall i | |dir| + 1 <= i < |dir| + 1 + |u| ensures p[i] != ' ' {
      assert p[i] == u[i - |dir| - 1];
    }
  }

}
