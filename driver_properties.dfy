/**
 * Properties of whole runs of the tool: fail-fast ordering of both phases,
 * which configurations write nothing, and what a successful run leaves on disk.
 */
module DriverProperties {
  import opened Wrappers
  import opened Paths
  import opened PdfLibrary
  import opened FileSystems
  import opened StripPdfMetadata

  /**
   * The processing loop prints one `Processed` line per input, in input
   * order, and exits 0 only if it got through every input; otherwise its
   * last line is the one error and the exit code is 1.
   */
  lemma {:induction false} ProcessLogShape(files: map<Path, Entry>, cfg: Config, todo: seq<Path>)
    ensures var r := ProcessFrom(files, cfg, todo);
      && (r.code == 0 || r.code == 1)
      && (r.code == 0 ==> |r.log| == |todo|)
      && (r.code == 1 ==> 0 < |r.log| <= |todo| && r.log[|r.log| - 1].Failed?)
      && forall i :: 0 <= i < |r.log| && (r.code == 0 || i < |r.log| - 1) ==>
           r.log[i].Processed? && r.log[i].input == todo[i]
    decreases |todo|
  {
    if todo != [] {
      var step := ProcessOne(files, cfg, todo[0]);
      if step.Failure? {
        FailedStep(files, cfg, todo, step.error);
      } else {
        var (out, files') := step.value;
        var rest := ProcessFrom(files', cfg, todo[1..]);
        SucceededStep(files, cfg, todo, out, files');
        ProcessLogShape(files', cfg, todo[1..]);
        var log := [Processed(todo[0], out)] + rest.log;
        forall i | 0 < i < |log| ensures log[i] == rest.log[i - 1] && todo[i] == todo[1..][i - 1] {
        }
      }
    }
  }

  /**
   * A failed processing loop stopped at the input after its last `Processed`
   * line: the file system is exactly what processing the inputs before it
   * left, and that input's step failed from there. The inputs after it were
   * never processed (an earlier step may still have overwritten or removed
   * one of them as its output or temporary file).
   */
  lemma {:induction false} ProcessStopsAtFirstError(files: map<Path, Entry>, cfg: Config, todo: seq<Path>)
    requires ProcessFrom(files, cfg, todo).code != 0
    ensures var r := ProcessFrom(files, cfg, todo);
      var k := |r.log| - 1;
      && 0 <= k < |todo|
      && ProcessFrom(files, cfg, todo[..k]) == RunResult(0, r.files, r.log[..k])
      && r.log[k].Failed?
      && ProcessOne(r.files, cfg, todo[k]) == Failure(r.log[k].error)
    decreases |todo|
  {
    ProcessLogShape(files, cfg, todo);
    var step := ProcessOne(files, cfg, todo[0]);
    if step.Failure? {
      FailedStep(files, cfg, todo, step.error);
      assert todo[..0] == [];
    } else {
      var (out, files') := step.value;
      var rest := ProcessFrom(files', cfg, todo[1..]);
      SucceededStep(files, cfg, todo, out, files');
      ProcessStopsAtFirstError(files', cfg, todo[1..]);
      var k := |rest.log| - 1;
      var log := [Processed(todo[0], out)] + rest.log;
      var prefix := todo[..k + 1];
      assert prefix[0] == todo[0] && prefix[1..] == todo[1..][..k];
      SucceededStep(files, cfg, prefix, out, files');
      assert ProcessFrom(files, cfg, prefix)
          == After([Processed(todo[0], out)], RunResult(0, rest.files, rest.log[..k]));
      assert [Processed(todo[0], out)] + rest.log[..k] == log[..k + 1];
      assert log[k + 1] == rest.log[k];
      assert todo[k + 1] == todo[1..][k];
    }
  }

  /** When phase 1 rejects an input, no file is touched and its error is the only line. */
  lemma RejectedRunTouchesNothing(files: map<Path, Entry>, cfg: Config)
    requires exists i :: 0 <= i < |cfg.inputs| && !Acceptable(files, cfg.inputs[i])
    ensures var k := FirstRejected(files, cfg.inputs);
      && k < |cfg.inputs|
      && RunSpec(files, cfg) == RunResult(1, files, [Failed(Rejection(files, cfg.inputs[k]))])
  {
  }

  /**
   * Exit code 0 means every input passed phase 1 and was processed, in
   * order; any other code is 1 and the last line printed is an error.
   */
  lemma RunExitCode(files: map<Path, Entry>, cfg: Config)
    ensures var r := RunSpec(files, cfg);
      && (r.code == 0 || r.code == 1)
      && (r.code == 0 ==>
            && (forall i :: 0 <= i < |cfg.inputs| ==> Acceptable(files, cfg.inputs[i]))
            && |r.log| == |cfg.inputs|
            && forall i :: 0 <= i < |r.log| ==> r.log[i].Processed? && r.log[i].input == cfg.inputs[i])
      && (r.code == 1 ==> 0 < |r.log| && r.log[|r.log| - 1].Failed?)
  {
    ProcessLogShape(files, cfg, cfg.inputs);
  }

  /** `--output` with two or more inputs fails at the first input and writes nothing. */
  lemma OutputWithMultipleInputsWritesNothing(files: map<Path, Entry>, cfg: Config)
    requires OutputGiven(cfg.output) && |cfg.inputs| > 1
    ensures var r := RunSpec(files, cfg);
      && r.code == 1 && r.files == files
      && (Validate(files, cfg.inputs).None? ==> r.log == [Failed(OutputWithMultipleInputs)])
  {
    var inputs := cfg.inputs;
    assert inputs != [] && ProcessOne(files, cfg, inputs[0]) == Failure(OutputWithMultipleInputs);
  }

  /** `--output` together with `--in-place` fails before any file is written. */
  lemma OutputWithInPlaceWritesNothing(files: map<Path, Entry>, cfg: Config)
    requires OutputGiven(cfg.output) && cfg.inPlace && |cfg.inputs| >= 1
    ensures var r := RunSpec(files, cfg);
      && r.code == 1 && r.files == files
      && (Validate(files, cfg.inputs).None? && |cfg.inputs| == 1 ==> r.log == [Failed(OutputWithInPlace)])
  {
    var inputs := cfg.inputs;
    assert inputs != [] && ProcessOne(files, cfg, inputs[0]).Failure?;
  }

  /**
   * The output path a single-input run without `--in-place` would write: the
   * target choice of `ResolveOutputPath` with the in-place case left out.
   */
  function SingleTarget(cfg: Config, p: Path): Path
  {
    if OutputGiven(cfg.output) then cfg.output.value.path else DefaultOutputPath(p)
  }

  /**
   * In a run with a single input and without `--force`, a target that exists
   * and is not the input stops the run at that file, and the file system, the
   * target included, is left as it was.
   */
  lemma ExistingOutputNeedsForce(files: map<Path, Entry>, cfg: Config, p: Path)
    requires cfg.inputs == [p] && !cfg.force && !cfg.inPlace
    requires SingleTarget(cfg, p) in files && SingleTarget(cfg, p) != p
    ensures var r := RunSpec(files, cfg);
      && r.code == 1 && r.files == files
      && (Acceptable(files, p) ==> r.log == [Failed(OutputExists(SingleTarget(cfg, p)))])
  {
    assert [p][0] == p;
    assert ProcessOne(files, cfg, p) == Failure(OutputExists(SingleTarget(cfg, p)));
  }

  /**
   * A single input the library cannot open, or whose password is missing or
   * wrong, makes the run fail with nothing written, whatever else the
   * configuration says; once the input passes phase 1 and its output path
   * resolves, the one line printed is the error from opening it.
   */
  lemma UnopenableInputWritesNothing(files: map<Path, Entry>, cfg: Config, p: Path)
    requires cfg.inputs == [p] && OpenDocument(files, p, cfg.password).Failure?
    ensures var r := RunSpec(files, cfg);
      && r.code == 1 && r.files == files && |r.log| == 1 && r.log[0].Failed?
      && (Acceptable(files, p) && ResolveOutputPath(p, cfg.output, cfg.inPlace, cfg.force, false, files.Keys).Success? ==>
            r.log == [Failed(OpenDocument(files, p, cfg.password).error)])
  {
    assert [p][0] == p && [p][1..] == [];
    assert ProcessOne(files, cfg, p).Failure?;
    if Acceptable(files, p) {
      FirstRejectedAt(files, [p], 1);
    }
  }

  /**
   * `tool a.pdf` with no flags: `a-stripped.pdf` appears beside `a.pdf`
   * holding the stripped document, and nothing else changes.
   */
  lemma DefaultRunWritesStrippedSibling(files: map<Path, Entry>, cfg: Config, p: Path)
    requires cfg.inputs == [p] && !OutputGiven(cfg.output) && !cfg.inPlace
    requires Acceptable(files, p) && OpenDocument(files, p, cfg.password).Success?
    requires DefaultOutputPath(p) !in files || cfg.force
    ensures RunSpec(files, cfg) == RunResult(
      0,
      files[DefaultOutputPath(p) := PdfFile(Stripped(files[p].doc))],
      [Processed(p, DefaultOutputPath(p))])
  {
    assert [p][0] == p && [p][1..] == [];
    FirstRejectedAt(files, [p], 1);
    var target := DefaultOutputPath(p);
    var written := files[target := PdfFile(Stripped(files[p].doc))];
    assert ResolveOutputPath(p, cfg.output, false, cfg.force, false, files.Keys) == Success(target);
    assert StripEffect(files, p, target, cfg.password) == Success(written);
    assert ProcessOne(files, cfg, p) == Success((target, written));
    SucceededStep(files, cfg, [p], target, written);
  }

  /**
   * `tool --in-place a.pdf`: afterwards `a.pdf` holds the stripped document,
   * `a.tmp.pdf` does not exist, and no other path has changed.
   */
  lemma InPlaceRunRewritesInput(files: map<Path, Entry>, cfg: Config, p: Path)
    requires cfg.inputs == [p] && !OutputGiven(cfg.output) && cfg.inPlace
    requires Acceptable(files, p) && OpenDocument(files, p, cfg.password).Success?
    ensures var r := RunSpec(files, cfg);
      && r.code == 0 && r.log == [Processed(p, p)]
      && p in r.files && r.files[p] == PdfFile(Stripped(files[p].doc))
      && TmpPath(p) !in r.files
      && forall q :: q != p && q != TmpPath(p) ==>
           (q in r.files <==> q in files) && (q in r.files ==> r.files[q] == files[q])
  {
    assert [p][0] == p && [p][1..] == [];
    FirstRejectedAt(files, [p], 1);
    InPlaceEffect(files, p, cfg.password);
    var written := StripEffect(files, p, p, cfg.password).value;
    assert ResolveOutputPath(p, cfg.output, true, cfg.force, false, files.Keys) == Success(p);
    assert ProcessOne(files, cfg, p) == Success((p, written));
    SucceededStep(files, cfg, [p], p, written);
  }

  /**
   * The temporary name of an in-place rewrite is not checked for an existing
   * file: `tool --in-place a.tmp.pdf a.pdf` exits 0, yet `a.tmp.pdf`, an input
   * it reported as processed, no longer exists afterwards.
   */
  lemma InPlaceRunCanRemoveAnInput(dir: string, doc: Document)
    requires !doc.encrypted
    ensures var first := Path(dir, "a.tmp.pdf");
      var second := Path(dir, "a.pdf");
      var files := map[first := PdfFile(doc), second := PdfFile(doc)];
      var cfg := Config([first, second], None, true, None, false);
      var r := RunSpec(files, cfg);
      && r.code == 0
      && r.log == [Processed(first, first), Processed(second, second)]
      && first !in r.files
  {
    var first := Path(dir, "a.tmp.pdf");
    var second := Path(dir, "a.pdf");
    var files := map[first := PdfFile(doc), second := PdfFile(doc)];
    var cfg := Config([first, second], None, true, None, false);
    assert first.name == "a.tmp" + ".pdf" && second.name == "a" + ".pdf";
    assert "a.tmp.tmp.pdf" == "a.tmp.tmp" + ".pdf";
    StemOfExtended("a.tmp", ".pdf");
    StemOfExtended("a", ".pdf");
    EndsInPdfIsPdfName(first.name);
    EndsInPdfIsPdfName(second.name);
    FirstRejectedAt(files, cfg.inputs, 2);
    assert TmpPath(first) == Path(dir, "a.tmp.tmp.pdf");
    assert TmpPath(second) == first;
    var afterFirst := files[Path(dir, "a.tmp.tmp.pdf") := PdfFile(Stripped(doc))];
    var one := Renamed(afterFirst, Path(dir, "a.tmp.tmp.pdf"), first);
    assert ProcessOne(files, cfg, first) == Success((first, one));
    var two := Renamed(one[first := PdfFile(Stripped(doc))], first, second);
    assert ProcessOne(one, cfg, second) == Success((second, two));
    assert cfg.inputs[0] == first && cfg.inputs[1..] == [second];
    assert [second][0] == second && [second][1..] == [];
    SucceededStep(one, cfg, [second], second, two);
    SucceededStep(files, cfg, cfg.inputs, first, one);
    assert RunSpec(files, cfg) == RunResult(0, two, [Processed(first, first), Processed(second, second)]);
    assert first !in two;
  }
}
