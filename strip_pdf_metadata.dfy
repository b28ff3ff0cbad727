/**
 * The command-line tool that strips the document-information dictionary and
 * the XMP metadata from PDF files: the output-path rules, the error checks
 * and temporary-file handling around the PDF library, and the two-phase
 * driver (validate every input, then process them in order, stopping at the
 * first error).
 */
module StripPdfMetadata {
  import opened Wrappers
  import opened Paths
  import opened PdfLibrary
  import opened FileSystems

  /**
   * The `--output` argument: `raw` is the text as given, `path` what
   * `Path(raw).expanduser().resolve()` makes of it.
   */
  datatype OutputArg = OutputArg(raw: string, path: Path)

  /** The parsed command line; `inputs` are already resolved to canonical paths. */
  datatype Config = Config(
    inputs: seq<Path>,
    output: Option<OutputArg>,
    inPlace: bool,
    password: Option<string>,
    force: bool)

  /** Every error the tool reports; each one ends the run with exit code 1. */
  datatype Error =
    | FileNotFound(path: Path)
    | NotAPdf(path: Path)
    | OutputWithMultipleInputs
    | OutputWithInPlace
    | OutputExists(path: Path)
    | ReadFailed(path: Path)
    | PasswordRequired(path: Path)
    | DecryptFailed(path: Path)

  /** `if output_arg:` — absent and empty both count as not given. */
  predicate OutputGiven(output: Option<OutputArg>)
  {
    output.Some? && output.value.raw != ""
  }

  /** `if not password:` fails for an absent and for an empty password. */
  predicate PasswordGiven(password: Option<string>)
  {
    password.Some? && password.value != ""
  }

  // ---------------------------------------------------------------------
  // Output-path resolution
  // ---------------------------------------------------------------------

  /** The default output: `<stem>-stripped.pdf` beside the input. */
  function DefaultOutputPath(input: Path): (p: Path)
    ensures p != input
  {
    NotSelfWithSuffix(input.name, "-stripped.pdf");
    WithName(input, Stem(input.name) + "-stripped.pdf")
  }

  /** The default output sits beside the input; its stem is the input's with "-stripped". */
  lemma DefaultOutputPathShape(input: Path)
    ensures var p := DefaultOutputPath(input);
      && p.dir == input.dir
      && Stem(p.name) == Stem(input.name) + "-stripped"
      && Suffix(p.name) == ".pdf"
  {
    assert DefaultOutputPath(input).name == (Stem(input.name) + "-stripped") + ".pdf";
    StemOfExtended(Stem(input.name) + "-stripped", ".pdf");
  }

  /**
   * A name built from a stem of `name` and a tail starting with something
   * other than a dot, or one that holds a dot, never equals `name`.
   */
  lemma NotSelfWithSuffix(name: string, tail: string)
    requires |tail| > 0
    requires tail[0] != '.' || exists j :: 0 < j < |tail| && tail[j] == '.'
    ensures Stem(name) + tail != name
  {
  }

  /**
   * `resolve_output_path`: the output path for one input, or the error it
   * raises. `existing` is the set of paths that exist when it is asked.
   */
  function ResolveOutputPath(
    input: Path, output: Option<OutputArg>, inPlace: bool, force: bool,
    multipleInputs: bool, existing: set<Path>): (r: Result<Path, Error>)
    // --output with several inputs is refused before anything else
    ensures OutputGiven(output) && multipleInputs ==> r == Failure(OutputWithMultipleInputs)
    ensures OutputGiven(output) && !multipleInputs && inPlace ==> r == Failure(OutputWithInPlace)
    // an explicit output is used as given, unless it clobbers another file
    ensures OutputGiven(output) && !multipleInputs && !inPlace ==>
      var p := output.value.path;
      r == if p in existing && p != input && !force then Failure(OutputExists(p)) else Success(p)
    // in place never meets the file-exists check
    ensures !OutputGiven(output) && inPlace ==> r == Success(input)
    // the derived name is never the input, so an existing one always needs --force
    ensures !OutputGiven(output) && !inPlace ==>
      var p := DefaultOutputPath(input);
      r == if p in existing && !force then Failure(OutputExists(p)) else Success(p)
    ensures r.Success? ==> r.value !in existing || r.value == input || force
  {
    var target :=
      if OutputGiven(output) then
        if multipleInputs then Failure(OutputWithMultipleInputs)
        else if inPlace then Failure(OutputWithInPlace)
        else Success(output.value.path)
      else if inPlace then Success(input)
      else Success(DefaultOutputPath(input));
    match target
    case Failure(e) => Failure(e)
    case Success(p) =>
      if p in existing && p != input && !force then Failure(OutputExists(p)) else Success(p)
  }

  // ---------------------------------------------------------------------
  // Stripping one file
  // ---------------------------------------------------------------------

  /** The temporary file of an in-place rewrite: `<stem>.tmp.pdf` beside the input. */
  function TmpPath(input: Path): (p: Path)
    ensures p != input
  {
    assert ".tmp.pdf"[4] == '.';
    NotSelfWithSuffix(input.name, ".tmp.pdf");
    WithName(input, Stem(input.name) + ".tmp.pdf")
  }

  /** The temporary file sits beside the input; its stem is the input's with ".tmp". */
  lemma TmpPathShape(input: Path)
    ensures var p := TmpPath(input);
      && p.dir == input.dir
      && Stem(p.name) == Stem(input.name) + ".tmp"
      && Suffix(p.name) == ".pdf"
  {
    assert TmpPath(input).name == (Stem(input.name) + ".tmp") + ".pdf";
    StemOfExtended(Stem(input.name) + ".tmp", ".pdf");
  }

  /**
   * `PdfReader(input)` and the two encryption checks: the document to clone,
   * or the error raised before anything is written.
   */
  function OpenDocument(files: map<Path, Entry>, input: Path, password: Option<string>): (r: Result<Document, Error>)
    ensures r == Failure(ReadFailed(input)) <==> input !in files || files[input].Unreadable?
    ensures r == Failure(PasswordRequired(input)) <==>
      input in files && files[input].PdfFile? && files[input].doc.encrypted && !PasswordGiven(password)
    ensures r == Failure(DecryptFailed(input)) <==>
      && input in files && files[input].PdfFile? && files[input].doc.encrypted
      && PasswordGiven(password) && Decrypt(files[input].doc, password.value) == 0
    ensures r.Success? <==>
      && input in files && files[input].PdfFile?
      && (files[input].doc.encrypted ==> PasswordGiven(password) && Decrypt(files[input].doc, password.value) != 0)
    ensures r.Success? ==> r.value == files[input].doc
  {
    if input !in files || files[input].Unreadable? then Failure(ReadFailed(input))
    else
      var doc := files[input].doc;
      if doc.encrypted && !PasswordGiven(password) then Failure(PasswordRequired(input))
      else if doc.encrypted && Decrypt(doc, password.value) == 0 then Failure(DecryptFailed(input))
      else Success(doc)
  }

  /**
   * What `strip_metadata(input, output, password)` leaves on disk: the
   * stripped clone written to `output`, or, when `output` is the input,
   * written to the temporary file which then replaces the input.
   */
  function StripEffect(files: map<Path, Entry>, input: Path, output: Path, password: Option<string>): (r: Result<map<Path, Entry>, Error>)
    ensures r.Failure? <==> OpenDocument(files, input, password).Failure?
  {
    match OpenDocument(files, input, password)
    case Failure(e) => Failure(e)
    case Success(doc) =>
      var written := PdfFile(Stripped(doc));
      if output == input then
        var tmp := TmpPath(input);
        Success(Renamed(files[tmp := written], tmp, input))
      else
        Success(files[output := written])
  }

  /**
   * An in-place rewrite leaves the stripped document at the input path,
   * removes the temporary file, and changes no other path.
   */
  lemma InPlaceEffect(files: map<Path, Entry>, input: Path, password: Option<string>)
    requires StripEffect(files, input, input, password).Success?
    ensures var r := StripEffect(files, input, input, password).value;
      && input in r && r[input] == PdfFile(Stripped(files[input].doc))
      && TmpPath(input) !in r
      && forall q :: q != input && q != TmpPath(input) ==>
           (q in r <==> q in files) && (q in r ==> r[q] == files[q])
  {
    var tmp := TmpPath(input);
    var written := PdfFile(Stripped(files[input].doc));
    var r := Renamed(files[tmp := written], tmp, input);
    assert StripEffect(files, input, input, password).value == r;
    assert tmp != input;
  }

  /**
   * Writing to another path leaves the stripped document there and changes
   * no other path; in particular the input is left as it was.
   */
  lemma DirectWriteEffect(files: map<Path, Entry>, input: Path, output: Path, password: Option<string>)
    requires output != input
    requires StripEffect(files, input, output, password).Success?
    ensures var r := StripEffect(files, input, output, password).value;
      && output in r && r[output] == PdfFile(Stripped(files[input].doc))
      && input in r && r[input] == files[input]
      && forall q :: q != output ==> (q in r <==> q in files) && (q in r ==> r[q] == files[q])
  {
  }

  /** `strip_metadata`, on the file system it reads and writes. */
  method StripMetadata(fs: FileSystem, input: Path, output: Path, password: Option<string>)
    returns (err: Option<Error>)
    modifies fs
    ensures match StripEffect(old(fs.files), input, output, password)
      case Failure(e) => err == Some(e) && fs.files == old(fs.files)
      case Success(files) => err == None && fs.files == files
  {
    if input !in fs.files || fs.files[input].Unreadable? {
      return Some(ReadFailed(input));
    }
    var doc := fs.files[input].doc;
    if doc.encrypted {
      if password.None? || password.value == "" {
        return Some(PasswordRequired(input));
      }
      if Decrypt(doc, password.value) == 0 {
        return Some(DecryptFailed(input));
      }
    }
    var written := PdfFile(Stripped(doc));
    if output == input {
      var tmp := TmpPath(input);
      fs.Write(tmp, written);
      fs.Replace(tmp, input);
    } else {
      fs.Write(output, written);
    }
    err := None;
  }

  // ---------------------------------------------------------------------
  // Phase 1: validate every input
  // ---------------------------------------------------------------------

  /** An input passes phase 1 when it exists and its suffix is ".pdf" in any case. */
  predicate Acceptable(files: map<Path, Entry>, p: Path)
  {
    p in files && IsPdfName(p.name)
  }

  /** The error for a rejected input: existence is checked before the suffix. */
  function Rejection(files: map<Path, Entry>, p: Path): Error
  {
    if p !in files then FileNotFound(p) else NotAPdf(p)
  }

  /** The index of the first input phase 1 rejects, or `|inputs|` when none is. */
  function FirstRejected(files: map<Path, Entry>, inputs: seq<Path>): (k: nat)
    ensures k <= |inputs|
    ensures forall i :: 0 <= i < k ==> Acceptable(files, inputs[i])
    ensures k < |inputs| ==> !Acceptable(files, inputs[k])
  {
    if inputs == [] || !Acceptable(files, inputs[0]) then 0
    else
      var rest := inputs[1..];
      var k := FirstRejected(files, rest);
      assert forall i :: 0 < i <= k ==> inputs[i] == rest[i - 1];
      1 + k
  }

  /** The outcome of phase 1: nothing, or the error for the first rejected input. */
  function Validate(files: map<Path, Entry>, inputs: seq<Path>): (r: Option<Error>)
    ensures r.None? <==> forall i :: 0 <= i < |inputs| ==> Acceptable(files, inputs[i])
    ensures r.Some? ==> r.value.FileNotFound? || r.value.NotAPdf?
    ensures r.Some? ==> var k := FirstRejected(files, inputs);
      && k < |inputs| && r.value.path == inputs[k]
      && (r.value.FileNotFound? <==> inputs[k] !in files)
  {
    var k := FirstRejected(files, inputs);
    if k == |inputs| then None else Some(Rejection(files, inputs[k]))
  }

  /** The first rejected index is the one before which every input passes. */
  lemma FirstRejectedAt(files: map<Path, Entry>, inputs: seq<Path>, k: nat)
    requires k <= |inputs|
    requires forall i :: 0 <= i < k ==> Acceptable(files, inputs[i])
    requires k < |inputs| ==> !Acceptable(files, inputs[k])
    ensures FirstRejected(files, inputs) == k
  {
  }

  /** The validation loop of `main`; it reads the file system and changes nothing. */
  method ValidateInputs(fs: FileSystem, inputs: seq<Path>) returns (err: Option<Error>)
    ensures err == Validate(fs.files, inputs)
  {
    for i := 0 to |inputs|
      invariant forall j :: 0 <= j < i ==> Acceptable(fs.files, inputs[j])
    {
      var path := inputs[i];
      if path !in fs.files {
        FirstRejectedAt(fs.files, inputs, i);
        return Some(FileNotFound(path));
      }
      if !IsPdfName(path.name) {
        FirstRejectedAt(fs.files, inputs, i);
        return Some(NotAPdf(path));
      }
    }
    FirstRejectedAt(fs.files, inputs, |inputs|);
    return None;
  }

  // ---------------------------------------------------------------------
  // Phase 2: process the inputs in order
  // ---------------------------------------------------------------------

  /** A line of output: `Processed: <input> -> <output>` or `ERROR: <message>`. */
  datatype Event = Processed(input: Path, output: Path) | Failed(error: Error)

  /** The exit code, the file system afterwards, and the lines printed. */
  datatype RunResult = RunResult(code: int, files: map<Path, Entry>, log: seq<Event>)

  /** One iteration of the processing loop: resolve, then strip. */
  function ProcessOne(files: map<Path, Entry>, cfg: Config, input: Path): Result<(Path, map<Path, Entry>), Error>
  {
    match ResolveOutputPath(input, cfg.output, cfg.inPlace, cfg.force, |cfg.inputs| > 1, files.Keys)
    case Failure(e) => Failure(e)
    case Success(out) =>
      match StripEffect(files, input, out, cfg.password)
      case Failure(e) => Failure(e)
      case Success(files') => Success((out, files'))
  }

  /**
   * A successful step resolved an output that was absent, the input itself,
   * or allowed by `--force`, and that output holds the stripped document
   * afterwards. (An in-place step also writes and moves away `<stem>.tmp.pdf`
   * without checking it; `InPlaceEffect` states that.)
   */
  lemma ProcessOneSafe(files: map<Path, Entry>, cfg: Config, input: Path)
    requires ProcessOne(files, cfg, input).Success?
    ensures var (out, files') := ProcessOne(files, cfg, input).value;
      && (out !in files || out == input || cfg.force)
      && input in files && files[input].PdfFile?
      && out in files' && files'[out] == PdfFile(Stripped(files[input].doc))
  {
  }

  /** The processing loop over the inputs still to do; the first error ends it. */
  function ProcessFrom(files: map<Path, Entry>, cfg: Config, todo: seq<Path>): RunResult
    decreases |todo|
  {
    if todo == [] then RunResult(0, files, [])
    else
      match ProcessOne(files, cfg, todo[0])
      case Failure(e) => RunResult(1, files, [Failed(e)])
      case Success((out, files')) =>
        var rest := ProcessFrom(files', cfg, todo[1..]);
        RunResult(rest.code, rest.files, [Processed(todo[0], out)] + rest.log)
  }

  /** `main` after argument parsing: phase 1, then phase 2 if phase 1 passed. */
  function RunSpec(files: map<Path, Entry>, cfg: Config): (r: RunResult)
    // no stripping happens unless every input passed phase 1
    ensures Validate(files, cfg.inputs).Some? ==> r.code == 1 && r.files == files
    ensures r.files != files ==> forall i :: 0 <= i < |cfg.inputs| ==> Acceptable(files, cfg.inputs[i])
  {
    match Validate(files, cfg.inputs)
    case Some(e) => RunResult(1, files, [Failed(e)])
    case None => ProcessFrom(files, cfg, cfg.inputs)
  }

  /** A run whose first lines are `log`, followed by the run `r`. */
  function After(log: seq<Event>, r: RunResult): RunResult
  {
    RunResult(r.code, r.files, log + r.log)
  }

  /** Unfolds `ProcessFrom` at a failing step; keeps the loop proof of `ProcessAll` small. */
  lemma FailedStep(files: map<Path, Entry>, cfg: Config, todo: seq<Path>, e: Error)
    requires todo != [] && ProcessOne(files, cfg, todo[0]) == Failure(e)
    ensures ProcessFrom(files, cfg, todo) == RunResult(1, files, [Failed(e)])
  {
  }

  /** Unfolds `ProcessFrom` at a successful step; keeps the loop proof of `ProcessAll` small. */
  lemma SucceededStep(files: map<Path, Entry>, cfg: Config, todo: seq<Path>, out: Path, files': map<Path, Entry>)
    requires todo != [] && ProcessOne(files, cfg, todo[0]) == Success((out, files'))
    ensures ProcessFrom(files, cfg, todo) == After([Processed(todo[0], out)], ProcessFrom(files', cfg, todo[1..]))
  {
  }

  /** Appending printed lines in two steps or in one gives the same run; used by `ProcessAll`. */
  lemma AfterAfter(log: seq<Event>, more: seq<Event>, r: RunResult)
    ensures After(log, After(more, r)) == After(log + more, r)
  {
    assert log + (more + r.log) == (log + more) + r.log;
  }

  /** The body of the processing loop: resolve the output path, then strip. */
  method ProcessInput(fs: FileSystem, cfg: Config, path: Path) returns (outcome: Result<Path, Error>)
    modifies fs
    ensures match ProcessOne(old(fs.files), cfg, path)
      case Failure(e) => outcome == Failure(e) && fs.files == old(fs.files)
      case Success((out, files)) => outcome == Success(out) && fs.files == files
  {
    var resolved := ResolveOutputPath(path, cfg.output, cfg.inPlace, cfg.force, |cfg.inputs| > 1, fs.files.Keys);
    if resolved.Failure? {
      return Failure(resolved.error);
    }
    var err := StripMetadata(fs, path, resolved.value, cfg.password);
    if err.Some? {
      return Failure(err.value);
    }
    return Success(resolved.value);
  }

  /** The processing loop of `main`: each input in order, stopping at the first error. */
  method ProcessAll(fs: FileSystem, cfg: Config) returns (code: int, log: seq<Event>)
    modifies fs
    ensures RunResult(code, fs.files, log) == ProcessFrom(old(fs.files), cfg, cfg.inputs)
  {
    ghost var spec := ProcessFrom(fs.files, cfg, cfg.inputs);
    assert cfg.inputs[0..] == cfg.inputs;
    log := [];
    var i := 0;
    while i < |cfg.inputs|
      invariant 0 <= i <= |cfg.inputs|
      invariant After(log, ProcessFrom(fs.files, cfg, cfg.inputs[i..])) == spec
    {
      var path := cfg.inputs[i];
      ghost var before := fs.files;
      ghost var todo := cfg.inputs[i..];
      assert todo[0] == path && todo[1..] == cfg.inputs[i + 1..];
      var outcome := ProcessInput(fs, cfg, path);
      if outcome.Failure? {
        FailedStep(before, cfg, todo, outcome.error);
        return 1, log + [Failed(outcome.error)];
      }
      SucceededStep(before, cfg, todo, outcome.value, fs.files);
      AfterAfter(log, [Processed(path, outcome.value)], ProcessFrom(fs.files, cfg, cfg.inputs[i + 1..]));
      log := log + [Processed(path, outcome.value)];
      i := i + 1;
    }
    code := 0;
  }

  /** `main` after argument parsing: returns the exit code and the lines printed. */
  method Run(fs: FileSystem, cfg: Config) returns (code: int, log: seq<Event>)
    modifies fs
    ensures RunResult(code, fs.files, log) == RunSpec(old(fs.files), cfg)
  {
    var invalid := ValidateInputs(fs, cfg.inputs);
    if invalid.Some? {
      return 1, [Failed(invalid.value)];
    }
    code, log := ProcessAll(fs, cfg);
  }
}
