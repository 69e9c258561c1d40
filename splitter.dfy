/**
 * `split_and_export_docked_poses`: load the multi-state file as "docked", copy
 * each state into its own pose object, save it as `dir/{prefix}_{i:04d}.mol2`,
 * and delete "docked" at the end. The pose objects themselves are never deleted.
 */
module Splitter {
  import opened Naming
  import opened Engine

  /** The engine after poses 1..k of "docked" have been created and saved. */
  function ExportPoses(s: Session, prefix: string, dir: string, k: nat): (r: Session)
    requires "docked" in s.objects && k <= |s.objects["docked"]|
    ensures "docked" in r.objects && r.objects["docked"] == s.objects["docked"]
  {
    if k == 0 then s
    else
      var t := ExportPoses(s, prefix, dir, k - 1);
      var name := PoseName(prefix, k);
      PoseNameNotReserved(prefix, k);
      Saved(Created(t, name, "docked", k), PosePath(dir, prefix, k), name)
  }

  /** The whole step, for a source file that exists. */
  function Split(s: Session, inputFile: string, prefix: string, dir: string): Session
    requires inputFile in s.disk
  {
    var loaded := Loaded(s, inputFile, "docked");
    Deleted(ExportPoses(loaded, prefix, dir, |s.disk[inputFile]|), "docked")
  }

  /**
   * Runs the step on the engine. `ok` is false, and the engine untouched, where
   * loading the source file raises because it does not exist.
   */
  method SplitAndExportDockedPoses(cmd: Pymol, inputFile: string, prefix: string, outputDir: string)
    returns (ok: bool)
    modifies cmd
    ensures ok == (inputFile in old(cmd.disk))
    ensures cmd.Snapshot() == if ok then Split(old(cmd.Snapshot()), inputFile, prefix, outputDir)
                              else old(cmd.Snapshot())
  {
    ok := cmd.Load(inputFile, "docked");
    if !ok {
      return;
    }
    ghost var loaded := cmd.Snapshot();
    var numStates := cmd.CountStates("docked");
    var i := 1;
    while i <= numStates
      invariant 1 <= i <= numStates + 1
      invariant cmd.Snapshot() == ExportPoses(loaded, prefix, outputDir, i - 1)
    {
      var dockedName := PoseName(prefix, i);
      cmd.Create(dockedName, "docked", i);
      var outputFile := Join(outputDir, dockedName + ".mol2");
      cmd.Save(outputFile, dockedName);
      i := i + 1;
    }
    cmd.Delete("docked");
  }

  // ---------------------------------------------------------------------------
  // What splitting does

  /** Exactly the files of poses 1..k are saved, in increasing index order, and nothing else. */
  lemma {:induction false} ExportPosesSaved(s: Session, prefix: string, dir: string, k: nat)
    requires "docked" in s.objects && k <= |s.objects["docked"]|
    ensures ExportPoses(s, prefix, dir, k).saved == s.saved + PosePaths(dir, prefix, k)
  {
    if k > 0 {
      ExportPosesSaved(s, prefix, dir, k - 1);
    }
  }

  /**
   * Pose i (1 <= i <= k) is an object holding state i of "docked" alone; every
   * other object is as it was.
   */
  lemma {:induction false} ExportPosesObjects(s: Session, prefix: string, dir: string, k: nat)
    requires "docked" in s.objects && k <= |s.objects["docked"]|
    ensures var r := ExportPoses(s, prefix, dir, k);
      && r.objects.Keys == s.objects.Keys + PoseNames(prefix, k)
      && (forall i :: 1 <= i <= k ==>
            PoseName(prefix, i) in r.objects && r.objects[PoseName(prefix, i)] == [s.objects["docked"][i - 1]])
      && (forall name :: name in s.objects && name !in PoseNames(prefix, k) ==> r.objects[name] == s.objects[name])
  {
    if k > 0 {
      ExportPosesObjects(s, prefix, dir, k - 1);
      var t, r := ExportPoses(s, prefix, dir, k - 1), ExportPoses(s, prefix, dir, k);
      var name := PoseName(prefix, k);
      assert r.objects == t.objects[name := [s.objects["docked"][k - 1]]];
      forall i | 1 <= i < k
        ensures PoseName(prefix, i) in r.objects && r.objects[PoseName(prefix, i)] == [s.objects["docked"][i - 1]]
      {
        PoseNameInjective(prefix, i, k);
      }
    }
  }

  /** The file of pose i (1 <= i <= k) holds state i of "docked" alone. */
  lemma {:induction false} ExportPosesDisk(s: Session, prefix: string, dir: string, k: nat)
    requires "docked" in s.objects && k <= |s.objects["docked"]|
    ensures var r := ExportPoses(s, prefix, dir, k);
      forall i :: 1 <= i <= k ==> PosePath(dir, prefix, i) in r.disk && r.disk[PosePath(dir, prefix, i)] == [s.objects["docked"][i - 1]]
  {
    if k > 0 {
      ExportPosesDisk(s, prefix, dir, k - 1);
      var t, r := ExportPoses(s, prefix, dir, k - 1), ExportPoses(s, prefix, dir, k);
      assert r.disk == t.disk[PosePath(dir, prefix, k) := [s.objects["docked"][k - 1]]];
      forall i | 1 <= i < k
        ensures r.disk[PosePath(dir, prefix, i)] == [s.objects["docked"][i - 1]]
      {
        PosePathInjective(dir, prefix, i, k);
      }
    }
  }

  /** The disk gains exactly the files of poses 1..k; every other file is as it was. */
  lemma {:induction false} ExportPosesOtherFiles(s: Session, prefix: string, dir: string, k: nat)
    requires "docked" in s.objects && k <= |s.objects["docked"]|
    ensures var r := ExportPoses(s, prefix, dir, k);
      && r.disk.Keys == s.disk.Keys + PosePathSet(dir, prefix, k)
      && (forall path :: path in s.disk && path !in PosePathSet(dir, prefix, k) ==> r.disk[path] == s.disk[path])
  {
    if k > 0 {
      ExportPosesOtherFiles(s, prefix, dir, k - 1);
      var t, r := ExportPoses(s, prefix, dir, k - 1), ExportPoses(s, prefix, dir, k);
      assert r.disk == t.disk[PosePath(dir, prefix, k) := [s.objects["docked"][k - 1]]];
    }
  }

  /**
   * After the step, "docked" is gone, pose i (1 <= i <= N, N the number of
   * states in the source file) holds state i alone, and every other object is
   * as it was.
   */
  lemma SplitWorkspace(s: Session, inputFile: string, prefix: string, dir: string)
    requires inputFile in s.disk
    ensures var r, src := Split(s, inputFile, prefix, dir), s.disk[inputFile];
      && "docked" !in r.objects
      && r.objects.Keys == (s.objects.Keys - {"docked"}) + PoseNames(prefix, |src|)
      && (forall i :: 1 <= i <= |src| ==> PoseName(prefix, i) in r.objects && r.objects[PoseName(prefix, i)] == [src[i - 1]])
      && (forall name :: name in s.objects && name != "docked" && name !in PoseNames(prefix, |src|) ==>
            r.objects[name] == s.objects[name])
  {
    var loaded := Loaded(s, inputFile, "docked");
    ExportPosesObjects(loaded, prefix, dir, |s.disk[inputFile]|);
    forall i | 1 <= i <= |s.disk[inputFile]| ensures PoseName(prefix, i) != "docked" {
      PoseNameNotReserved(prefix, i);
    }
    PoseNamesNotReserved(prefix, |s.disk[inputFile]|);
  }

  /** Splitting saves exactly N files, `dir/{prefix}_0001.mol2` first, in increasing index order. */
  lemma SplitSaved(s: Session, inputFile: string, prefix: string, dir: string)
    requires inputFile in s.disk
    ensures Split(s, inputFile, prefix, dir).saved == s.saved + PosePaths(dir, prefix, |s.disk[inputFile]|)
  {
    ExportPosesSaved(Loaded(s, inputFile, "docked"), prefix, dir, |s.disk[inputFile]|);
  }

  /** After splitting, the file of pose i holds state i of the source alone. */
  lemma SplitPoseFiles(s: Session, inputFile: string, prefix: string, dir: string)
    requires inputFile in s.disk
    ensures var r, src := Split(s, inputFile, prefix, dir), s.disk[inputFile];
      forall i :: 1 <= i <= |src| ==> PosePath(dir, prefix, i) in r.disk && r.disk[PosePath(dir, prefix, i)] == [src[i - 1]]
  {
    ExportPosesDisk(Loaded(s, inputFile, "docked"), prefix, dir, |s.disk[inputFile]|);
  }

  /** Splitting adds exactly the N pose files to the disk and leaves every other file as it was. */
  lemma SplitOtherFiles(s: Session, inputFile: string, prefix: string, dir: string)
    requires inputFile in s.disk
    ensures var r, src := Split(s, inputFile, prefix, dir), s.disk[inputFile];
      && r.disk.Keys == s.disk.Keys + PosePathSet(dir, prefix, |src|)
      && (forall path :: path in s.disk && path !in PosePathSet(dir, prefix, |src|) ==> r.disk[path] == s.disk[path])
  {
    ExportPosesOtherFiles(Loaded(s, inputFile, "docked"), prefix, dir, |s.disk[inputFile]|);
  }
}
