/**
 * `calculate_rmsd`: load the reference as "undocked"; for i = 1..num_docked in
 * order, load `dir/{prefix}_{i:04d}.mol2` as `{prefix}_{i:04d}`, align
 * "undocked" onto it without fitting, record `(i, rmsd)` and delete the pose;
 * delete "undocked" at the end. A missing file makes `cmd.load` raise, which
 * aborts the step and loses the records gathered so far.
 */
module Scorer {
  import opened Wrappers
  import opened Naming
  import opened Engine

  /** One row of results: `(pose_num, rmsd_value)`. */
  datatype Record = Record(pose: int, rmsd: real)

  /** The engine after a scoring run, and its records or the path whose load raised. */
  datatype Scoring = Scoring(session: Session, outcome: Result<seq<Record>, string>)

  /** Scores poses 1..k with "undocked" already loaded. */
  function ScorePoses(s: Session, dir: string, prefix: string, align: Aligner, k: nat): (r: Scoring)
    requires "undocked" in s.objects
    ensures "undocked" in r.session.objects && r.session.objects["undocked"] == s.objects["undocked"]
    ensures r.session.disk == s.disk && r.session.saved == s.saved
  {
    if k == 0 then Scoring(s, Ok([]))
    else
      var prev := ScorePoses(s, dir, prefix, align, k - 1);
      var path := PosePath(dir, prefix, k);
      if prev.outcome.Err? then prev
      else if path !in prev.session.disk then Scoring(prev.session, Err(path))
      else
        var name := PoseName(prefix, k);
        PoseNameNotReserved(prefix, k);
        var loaded := Loaded(prev.session, path, name);
        var rmsd := align(loaded.objects["undocked"], loaded.objects[name]);
        Scoring(Deleted(loaded, name), Ok(prev.outcome.value + [Record(k, rmsd)]))
  }

  /** Python's `range(1, n + 1)` is empty for n <= 0. */
  function PoseCount(n: int): nat
  {
    if n > 0 then n else 0
  }

  /** The whole step. */
  function Score(s: Session, undockedFile: string, dir: string, n: int, prefix: string, align: Aligner): Scoring
  {
    if undockedFile !in s.disk then Scoring(s, Err(undockedFile))
    else
      var run := ScorePoses(Loaded(s, undockedFile, "undocked"), dir, prefix, align, PoseCount(n));
      if run.outcome.Err? then run
      else Scoring(Deleted(run.session, "undocked"), run.outcome)
  }

  /** One more pose after a successful pass over poses 1..k-1 whose file exists. */
  lemma ScorePosesNext(s: Session, dir: string, prefix: string, align: Aligner, k: nat)
    requires "undocked" in s.objects && k > 0
    requires ScorePoses(s, dir, prefix, align, k - 1).outcome.Ok?
    requires PosePath(dir, prefix, k) in s.disk
    ensures var prev, name, path := ScorePoses(s, dir, prefix, align, k - 1), PoseName(prefix, k), PosePath(dir, prefix, k);
      var loaded := Loaded(prev.session, path, name);
      name != "undocked" &&
      ScorePoses(s, dir, prefix, align, k) ==
        Scoring(Deleted(loaded, name),
                Ok(prev.outcome.value + [Record(k, align(loaded.objects["undocked"], loaded.objects[name]))]))
  {
    PoseNameNotReserved(prefix, k);
  }

  /** Runs the step on the engine: the records, or the path whose load raised. */
  method CalculateRmsd(cmd: Pymol, undockedFile: string, dockedDir: string, numDocked: int,
                       prefix: string, align: Aligner)
    returns (result: Result<seq<Record>, string>)
    modifies cmd
    ensures var spec := Score(old(cmd.Snapshot()), undockedFile, dockedDir, numDocked, prefix, align);
      cmd.Snapshot() == spec.session && result == spec.outcome
  {
    var ok := cmd.Load(undockedFile, "undocked");
    if !ok {
      return Err(undockedFile);
    }
    ghost var loaded := cmd.Snapshot();
    var rmsdResults := [];
    var i := 1;
    while i <= numDocked
      invariant 1 <= i <= PoseCount(numDocked) + 1
      invariant ScorePoses(loaded, dockedDir, prefix, align, i - 1) == Scoring(cmd.Snapshot(), Ok(rmsdResults))
    {
      ghost var before := cmd.Snapshot();
      var dockedFile := Join(dockedDir, PoseName(prefix, i) + ".mol2");
      var dockedName := PoseName(prefix, i);
      assert dockedFile == PosePath(dockedDir, prefix, i);
      ok := cmd.Load(dockedFile, dockedName);
      if !ok {
        assert dockedFile !in loaded.disk;
        ScoreFailureSticks(loaded, dockedDir, prefix, align, i, PoseCount(numDocked));
        return Err(dockedFile);
      }
      ScorePosesNext(loaded, dockedDir, prefix, align, i);
      ghost var inserted := Loaded(before, dockedFile, dockedName);
      assert cmd.Snapshot() == inserted;
      var rmsd := cmd.Align("undocked", dockedName, align);
      assert rmsd == align(inserted.objects["undocked"], inserted.objects[dockedName]);
      rmsdResults := rmsdResults + [Record(i, rmsd)];
      cmd.Delete(dockedName);
      assert cmd.Snapshot() == Deleted(inserted, dockedName);
      i := i + 1;
    }
    cmd.Delete("undocked");
    result := Ok(rmsdResults);
  }

  // ---------------------------------------------------------------------------
  // What scoring does

  /** Once a load has raised, later poses are not scored and the outcome stays that failure. */
  lemma {:induction false} ScoreFailureSticks(s: Session, dir: string, prefix: string, align: Aligner, k: nat, m: nat)
    requires "undocked" in s.objects && k <= m
    requires ScorePoses(s, dir, prefix, align, k).outcome.Err?
    ensures ScorePoses(s, dir, prefix, align, m) == ScorePoses(s, dir, prefix, align, k)
    decreases m
  {
    if k < m {
      ScoreFailureSticks(s, dir, prefix, align, k, m - 1);
    }
  }

  /** Scoring poses 1..k succeeds exactly when every one of their files exists. */
  lemma {:induction false} ScorePosesSucceedsIff(s: Session, dir: string, prefix: string, align: Aligner, k: nat)
    requires "undocked" in s.objects
    ensures ScorePoses(s, dir, prefix, align, k).outcome.Ok? <==>
            forall i :: 1 <= i <= k ==> PosePath(dir, prefix, i) in s.disk
  {
    if k > 0 {
      ScorePosesSucceedsIff(s, dir, prefix, align, k - 1);
      var prev, r := ScorePoses(s, dir, prefix, align, k - 1), ScorePoses(s, dir, prefix, align, k);
      if prev.outcome.Err? {
        assert r == prev;
      } else if PosePath(dir, prefix, k) in s.disk {
        ScorePosesNext(s, dir, prefix, align, k);
      }
    }
  }

  /**
   * `records` holds poses 1..k in order: record i-1 is pose i with the RMSD of
   * `reference` against the contents of that pose's file.
   */
  ghost predicate ScoredInOrder(records: seq<Record>, reference: Structure, disk: map<string, Structure>,
                                dir: string, prefix: string, align: Aligner, k: nat)
  {
    && |records| == k
    && forall i :: 1 <= i <= k ==>
         PosePath(dir, prefix, i) in disk &&
         records[i - 1] == Record(i, align(reference, disk[PosePath(dir, prefix, i)]))
  }

  /** A successful run over poses 1..k has exactly their k records, in order. */
  lemma {:induction false} ScorePosesRecords(s: Session, dir: string, prefix: string, align: Aligner, k: nat)
    requires "undocked" in s.objects
    ensures var r := ScorePoses(s, dir, prefix, align, k);
      r.outcome.Ok? ==> ScoredInOrder(r.outcome.value, s.objects["undocked"], s.disk, dir, prefix, align, k)
  {
    var r := ScorePoses(s, dir, prefix, align, k);
    if k > 0 && r.outcome.Ok? {
      ScorePosesRecords(s, dir, prefix, align, k - 1);
      var prev := ScorePoses(s, dir, prefix, align, k - 1);
      assert prev.outcome.Ok?;
      PoseNameNotReserved(prefix, k);
      var last := Record(k, align(s.objects["undocked"], s.disk[PosePath(dir, prefix, k)]));
      assert r.outcome.value == prev.outcome.value + [last];
      forall i | 1 <= i < k
        ensures PosePath(dir, prefix, i) in s.disk
        ensures r.outcome.value[i - 1] == Record(i, align(s.objects["undocked"], s.disk[PosePath(dir, prefix, i)]))
      {
        assert r.outcome.value[i - 1] == prev.outcome.value[i - 1];
      }
      assert ScoredInOrder(r.outcome.value, s.objects["undocked"], s.disk, dir, prefix, align, k);
    }
  }

  /** A successful run over poses 1..k leaves the workspace without poses 1..k and otherwise unchanged. */
  lemma {:induction false} ScorePosesWorkspace(s: Session, dir: string, prefix: string, align: Aligner, k: nat)
    requires "undocked" in s.objects
    ensures var r := ScorePoses(s, dir, prefix, align, k);
      r.outcome.Ok? ==> r.session.objects == s.objects - PoseNames(prefix, k)
  {
    if k > 0 {
      ScorePosesWorkspace(s, dir, prefix, align, k - 1);
    }
  }

  /** A failed run names the file of the first pose in 1..k whose file is missing. */
  lemma {:induction false} ScorePosesFailure(s: Session, dir: string, prefix: string, align: Aligner, k: nat)
    requires "undocked" in s.objects
    ensures var r := ScorePoses(s, dir, prefix, align, k);
      r.outcome.Err? ==>
        exists j :: 1 <= j <= k && r.outcome.error == PosePath(dir, prefix, j) && r.outcome.error !in s.disk &&
          forall i :: 1 <= i < j ==> PosePath(dir, prefix, i) in s.disk
  {
    var r := ScorePoses(s, dir, prefix, align, k);
    if k > 0 && r.outcome.Err? {
      var prev := ScorePoses(s, dir, prefix, align, k - 1);
      if prev.outcome.Err? {
        ScorePosesFailure(s, dir, prefix, align, k - 1);
        assert r == prev;
        var j :| 1 <= j <= k - 1 && prev.outcome.error == PosePath(dir, prefix, j) && prev.outcome.error !in s.disk &&
                 forall i :: 1 <= i < j ==> PosePath(dir, prefix, i) in s.disk;
        assert 1 <= j <= k;
      } else {
        ScorePosesSucceedsIff(s, dir, prefix, align, k - 1);
        assert r.outcome.error == PosePath(dir, prefix, k) && r.outcome.error !in s.disk;
        assert forall i :: 1 <= i < k ==> PosePath(dir, prefix, i) in s.disk;
      }
    }
  }

  /**
   * The step succeeds exactly when the reference file and the files of poses
   * 1..num_docked all exist.
   */
  lemma ScoreSucceedsIff(s: Session, undockedFile: string, dir: string, n: int, prefix: string, align: Aligner)
    ensures Score(s, undockedFile, dir, n, prefix, align).outcome.Ok? <==>
            undockedFile in s.disk && forall i :: 1 <= i <= n ==> PosePath(dir, prefix, i) in s.disk
  {
    if undockedFile in s.disk {
      ScorePosesSucceedsIff(Loaded(s, undockedFile, "undocked"), dir, prefix, align, PoseCount(n));
    }
  }

  /**
   * A successful step returns max(num_docked, 0) records: record i-1 is pose i,
   * paired with the RMSD of the reference against pose i's file, so the pose
   * numbers run 1, 2, ... in strictly ascending order.
   */
  lemma ScoreRecords(s: Session, undockedFile: string, dir: string, n: int, prefix: string, align: Aligner)
    ensures var r := Score(s, undockedFile, dir, n, prefix, align);
      r.outcome.Ok? ==>
        && undockedFile in s.disk
        && ScoredInOrder(r.outcome.value, s.disk[undockedFile], s.disk, dir, prefix, align, PoseCount(n))
        && forall a, b :: 0 <= a < b < |r.outcome.value| ==> r.outcome.value[a].pose < r.outcome.value[b].pose
  {
    var r := Score(s, undockedFile, dir, n, prefix, align);
    if r.outcome.Ok? {
      var loaded := Loaded(s, undockedFile, "undocked");
      ScorePosesRecords(loaded, dir, prefix, align, PoseCount(n));
      var rs := r.outcome.value;
      forall a, b | 0 <= a < b < |rs| ensures rs[a].pose < rs[b].pose {
        var i, j := a + 1, b + 1;
        assert PosePath(dir, prefix, i) in s.disk && PosePath(dir, prefix, j) in s.disk;
      }
    }
  }

  /**
   * The step never writes files. A successful step leaves the workspace without
   * "undocked" and without poses 1..num_docked, and otherwise as it was.
   */
  lemma ScoreWorkspace(s: Session, undockedFile: string, dir: string, n: int, prefix: string, align: Aligner)
    ensures var r := Score(s, undockedFile, dir, n, prefix, align);
      && r.session.disk == s.disk && r.session.saved == s.saved
      && (r.outcome.Ok? ==> r.session.objects == s.objects - ({"undocked"} + PoseNames(prefix, PoseCount(n))))
  {
    var r := Score(s, undockedFile, dir, n, prefix, align);
    if undockedFile in s.disk {
      var loaded := Loaded(s, undockedFile, "undocked");
      ScorePosesWorkspace(loaded, dir, prefix, align, PoseCount(n));
      if r.outcome.Ok? {
        assert r.session.objects == loaded.objects - PoseNames(prefix, PoseCount(n)) - {"undocked"};
      }
    }
  }

  /**
   * A failed step names the file whose load raised: the reference file if it is
   * missing, otherwise the file of the first pose in 1..num_docked that is missing.
   */
  lemma ScoreFailure(s: Session, undockedFile: string, dir: string, n: int, prefix: string, align: Aligner)
    ensures var r := Score(s, undockedFile, dir, n, prefix, align);
      r.outcome.Err? ==>
        if undockedFile !in s.disk then r.outcome.error == undockedFile
        else exists j :: 1 <= j <= n && r.outcome.error == PosePath(dir, prefix, j) && r.outcome.error !in s.disk &&
               forall i :: 1 <= i < j ==> PosePath(dir, prefix, i) in s.disk
  {
    if undockedFile in s.disk {
      ScorePosesFailure(Loaded(s, undockedFile, "undocked"), dir, prefix, align, PoseCount(n));
    }
  }
}
