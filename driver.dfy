/**
 * `run_split_and_rmsd`: read the five fields, convert the pose count with
 * `int()`, reject empty fields or a zero count, then split, score and export
 * to `docked_dir/RMSD_results_{prefix}.xlsx`. The form and its message boxes
 * are not modelled: the fields arrive as strings and the outcome says which
 * message (or exception) the operator would see.
 */
module Driver {
  import opened Wrappers
  import opened Naming
  import opened PyInt
  import opened Engine
  import opened Splitter
  import opened Scorer
  import opened Exporter

  datatype Outcome =
    | CountNotInteger          // `int()` raised ValueError before any check
    | FieldsMissing            // "Please fill in all fields."
    | LoadFailed(path: string) // `cmd.load` raised on a missing file
    | Completed(report: Workbook)

  /** The fields of the form. */
  datatype Fields = Fields(inputFile: string, outputPrefix: string, undockedFile: string,
                           dockedDir: string, numDocked: string)

  /** The check at the top of the function: all four text fields filled and the count non-zero. */
  predicate FieldsFilled(f: Fields, n: int)
  {
    f.inputFile != "" && f.outputPrefix != "" && f.undockedFile != "" && f.dockedDir != "" && n != 0
  }

  /** The engine afterwards, and the outcome, of one press of "Run". */
  function Run(s: Session, f: Fields, align: Aligner): (Session, Outcome)
  {
    match ParseInt(f.numDocked)
    case None => (s, CountNotInteger)
    case Some(n) =>
      if !FieldsFilled(f, n) then (s, FieldsMissing)
      else if f.inputFile !in s.disk then (s, LoadFailed(f.inputFile))
      else
        var split := Split(s, f.inputFile, f.outputPrefix, f.dockedDir);
        var scored := Score(split, f.undockedFile, f.dockedDir, n, f.outputPrefix, align);
        match scored.outcome
        case Err(path) => (scored.session, LoadFailed(path))
        case Ok(records) =>
          (scored.session, Completed(Workbook(ReportPath(f.dockedDir, f.outputPrefix), SheetTitle, Layout(records))))
  }

  method RunSplitAndRmsd(cmd: Pymol, f: Fields, align: Aligner) returns (outcome: Outcome)
    modifies cmd
    ensures (cmd.Snapshot(), outcome) == Run(old(cmd.Snapshot()), f, align)
  {
    var parsed := ParseInt(f.numDocked);
    if parsed.None? {
      return CountNotInteger;
    }
    var numDocked := parsed.value;
    if !FieldsFilled(f, numDocked) {
      return FieldsMissing;
    }
    var split := SplitAndExportDockedPoses(cmd, f.inputFile, f.outputPrefix, f.dockedDir);
    if !split {
      return LoadFailed(f.inputFile);
    }
    var rmsdResults := CalculateRmsd(cmd, f.undockedFile, f.dockedDir, numDocked, f.outputPrefix, align);
    if rmsdResults.Err? {
      return LoadFailed(rmsdResults.error);
    }
    var excelOutputFile := Join(f.dockedDir, "RMSD_results_" + f.outputPrefix + ".xlsx");
    var report := ExportToExcel(rmsdResults.value, excelOutputFile);
    return Completed(report);
  }

  // ---------------------------------------------------------------------------
  // What one run does

  /**
   * The conversion comes first: a count that is not an integer raises before the
   * fields are checked; then empty fields or a zero count stop the run. In both
   * cases nothing is loaded, split, scored or exported.
   */
  lemma RunValidation(s: Session, f: Fields, align: Aligner)
    ensures var (after, outcome) := Run(s, f, align);
      && (outcome == CountNotInteger <==> ParseInt(f.numDocked) == None)
      && (outcome == FieldsMissing <==> ParseInt(f.numDocked).Some? && !FieldsFilled(f, ParseInt(f.numDocked).value))
      && (outcome == CountNotInteger || outcome == FieldsMissing ==> after == s)
  {
  }

  /** An empty (or blank) count field raises in `int()`, so the "fill in all fields" message never shows for it. */
  lemma BlankCountNotInteger(s: Session, f: Fields, align: Aligner)
    requires forall i :: 0 <= i < |f.numDocked| ==> IsSpace(f.numDocked[i])
    ensures Run(s, f, align) == (s, CountNotInteger)
  {
    ParseIntBlank(f.numDocked);
  }

  /** The records the run should report when poses 1..n are the first n states of `src`. */
  function ExpectedRecords(reference: Structure, src: Structure, align: Aligner, n: nat): (records: seq<Record>)
    requires n <= |src|
  {
    seq(n, j requires 0 <= j < n => Record(j + 1, align(reference, [src[j]])))
  }

  /**
   * Scoring right after splitting a source file of N states, with 0 <= n <= N and
   * the reference file present, succeeds, and record i-1 pairs pose i with the
   * RMSD of the reference against state i of the source.
   */
  lemma SplitThenScore(s: Session, inputFile: string, undockedFile: string, dir: string, prefix: string,
                       n: int, align: Aligner)
    requires inputFile in s.disk && n <= |s.disk[inputFile]|
    requires undockedFile in Split(s, inputFile, prefix, dir).disk
    ensures var split := Split(s, inputFile, prefix, dir);
      Score(split, undockedFile, dir, n, prefix, align).outcome ==
        Ok(ExpectedRecords(split.disk[undockedFile], s.disk[inputFile], align, PoseCount(n)))
  {
    var split := Split(s, inputFile, prefix, dir);
    var src := s.disk[inputFile];
    SplitPoseFiles(s, inputFile, prefix, dir);
    assert forall i :: 1 <= i <= n ==> PosePath(dir, prefix, i) in split.disk;
    ScoreSucceedsIff(split, undockedFile, dir, n, prefix, align);
    ScoreRecords(split, undockedFile, dir, n, prefix, align);
    var outcome := Score(split, undockedFile, dir, n, prefix, align).outcome;
    assert outcome.Ok?;
    var records := outcome.value;
    var expected := ExpectedRecords(split.disk[undockedFile], src, align, PoseCount(n));
    assert |records| == |expected|;
    forall j | 0 <= j < PoseCount(n) ensures records[j] == expected[j] {
      var i := j + 1;
      assert PosePath(dir, prefix, i) in split.disk;
    }
    assert records == expected;
  }

  /**
   * With valid fields, an existing source file with N states, a reference file
   * present after splitting, and 1 <= num_docked <= N, the run completes: the
   * report is `docked_dir/RMSD_results_{prefix}.xlsx`, titled "RMSD Results",
   * and row i+1 pairs pose i with the RMSD of the reference against state i of
   * the source.
   */
  lemma RunCompletes(s: Session, f: Fields, align: Aligner, n: int)
    requires ParseInt(f.numDocked) == Some(n) && FieldsFilled(f, n)
    requires f.inputFile in s.disk && n <= |s.disk[f.inputFile]|
    requires f.undockedFile in Split(s, f.inputFile, f.outputPrefix, f.dockedDir).disk
    ensures var split := Split(s, f.inputFile, f.outputPrefix, f.dockedDir);
      var expected := ExpectedRecords(split.disk[f.undockedFile], s.disk[f.inputFile], align, PoseCount(n));
      Run(s, f, align).1 == Completed(Workbook(ReportPath(f.dockedDir, f.outputPrefix), SheetTitle, Layout(expected)))
  {
    SplitThenScore(s, f.inputFile, f.undockedFile, f.dockedDir, f.outputPrefix, n, align);
  }

  /**
   * After splitting and a successful scoring pass, the engine holds neither
   * "docked" nor "undocked" nor poses 1..n; the poses beyond n created by the
   * split are never deleted and stay loaded.
   */
  lemma SplitThenScoreWorkspace(s: Session, inputFile: string, undockedFile: string, dir: string, prefix: string,
                                n: int, align: Aligner)
    requires inputFile in s.disk
    requires Score(Split(s, inputFile, prefix, dir), undockedFile, dir, n, prefix, align).outcome.Ok?
    ensures var after := Score(Split(s, inputFile, prefix, dir), undockedFile, dir, n, prefix, align).session;
      var src := s.disk[inputFile];
      && "docked" !in after.objects && "undocked" !in after.objects
      && (forall i :: 1 <= i <= n ==> PoseName(prefix, i) !in after.objects)
      && (forall i :: PoseCount(n) < i <= |src| ==>
            PoseName(prefix, i) in after.objects && after.objects[PoseName(prefix, i)] == [src[i - 1]])
  {
    var split := Split(s, inputFile, prefix, dir);
    SplitWorkspace(s, inputFile, prefix, dir);
    ScoreWorkspace(split, undockedFile, dir, n, prefix, align);
    var after := Score(split, undockedFile, dir, n, prefix, align).session;
    forall i | 1 <= i <= n ensures PoseName(prefix, i) !in after.objects {
      PoseNamesContains(prefix, PoseCount(n), i);
    }
    forall i | PoseCount(n) < i <= |s.disk[inputFile]|
      ensures PoseName(prefix, i) in after.objects && after.objects[PoseName(prefix, i)] == [s.disk[inputFile][i - 1]]
    {
      PoseNamesContains(prefix, PoseCount(n), i);
      PoseNameNotReserved(prefix, i);
    }
  }

  /**
   * A completed run leaves the engine as `SplitThenScoreWorkspace` describes,
   * and the disk has gained the N pose files, saved in index order.
   */
  lemma RunWorkspace(s: Session, f: Fields, align: Aligner, n: int)
    requires ParseInt(f.numDocked) == Some(n) && FieldsFilled(f, n)
    requires f.inputFile in s.disk && n <= |s.disk[f.inputFile]|
    requires f.undockedFile in Split(s, f.inputFile, f.outputPrefix, f.dockedDir).disk
    ensures var after, src := Run(s, f, align).0, s.disk[f.inputFile];
      && "docked" !in after.objects && "undocked" !in after.objects
      && (forall i :: 1 <= i <= n ==> PoseName(f.outputPrefix, i) !in after.objects)
      && (forall i :: PoseCount(n) < i <= |src| ==>
            PoseName(f.outputPrefix, i) in after.objects && after.objects[PoseName(f.outputPrefix, i)] == [src[i - 1]])
      && after.saved == s.saved + PosePaths(f.dockedDir, f.outputPrefix, |src|)
  {
    var dir, prefix := f.dockedDir, f.outputPrefix;
    var split := Split(s, f.inputFile, prefix, dir);
    SplitThenScore(s, f.inputFile, f.undockedFile, dir, prefix, n, align);
    SplitThenScoreWorkspace(s, f.inputFile, f.undockedFile, dir, prefix, n, align);
    SplitSaved(s, f.inputFile, prefix, dir);
    ScoreWorkspace(split, f.undockedFile, dir, n, prefix, align);
  }

  /**
   * A negative count passes validation: the poses are still split, no pose is
   * scored, and the report holds only the header row.
   */
  lemma NegativeCountHeaderOnly(s: Session, f: Fields, align: Aligner, n: int)
    requires ParseInt(f.numDocked) == Some(n) && n < 0
    requires f.inputFile != "" && f.outputPrefix != "" && f.undockedFile != "" && f.dockedDir != ""
    requires f.inputFile in s.disk
    requires f.undockedFile in Split(s, f.inputFile, f.outputPrefix, f.dockedDir).disk
    ensures Run(s, f, align).1.Completed?
    ensures Run(s, f, align).1.report.cells.Keys == {"A1", "B1"}
  {
    LayoutKeys([]);
    GridStep(0);
    HeaderCellNames();
  }

  /**
   * When the count exceeds the N states split from the source and no file for
   * pose N+1 existed before, the run stops at pose N+1: its path is reported and
   * no workbook is written.
   */
  lemma RunMissingPose(s: Session, f: Fields, align: Aligner, n: int)
    requires ParseInt(f.numDocked) == Some(n) && FieldsFilled(f, n)
    requires f.inputFile in s.disk && n > |s.disk[f.inputFile]|
    requires f.undockedFile in Split(s, f.inputFile, f.outputPrefix, f.dockedDir).disk
    requires PosePath(f.dockedDir, f.outputPrefix, |s.disk[f.inputFile]| + 1) !in s.disk
    ensures Run(s, f, align).1 == LoadFailed(PosePath(f.dockedDir, f.outputPrefix, |s.disk[f.inputFile]| + 1))
  {
    var dir, prefix := f.dockedDir, f.outputPrefix;
    var split := Split(s, f.inputFile, prefix, dir);
    var states := |s.disk[f.inputFile]|;
    var missing := PosePath(dir, prefix, states + 1);
    SplitPoseFiles(s, f.inputFile, prefix, dir);
    SplitOtherFiles(s, f.inputFile, prefix, dir);
    PosePathSetContains(dir, prefix, states, states + 1);
    ScoreSucceedsIff(split, f.undockedFile, dir, n, prefix, align);
    ScoreFailure(split, f.undockedFile, dir, n, prefix, align);
    var scored := Score(split, f.undockedFile, dir, n, prefix, align);
    var j :| 1 <= j <= n && scored.outcome.error == PosePath(dir, prefix, j) && scored.outcome.error !in split.disk &&
             forall i :: 1 <= i < j ==> PosePath(dir, prefix, i) in split.disk;
    assert j == states + 1;
  }
}
