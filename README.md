# Docked-pose RMSD pipeline

A Dafny model of the batch pipeline behind the "Split and RMSD" form. The form does four things in order:

1. It loads a multi-state docking result as the object "docked".
2. It copies each state i into its own object `{prefix}_{i:04d}` and saves it as `docked_dir/{prefix}_{i:04d}.mol2`. Then it deletes "docked".
3. It loads the reference structure as "undocked". For each i = 1..num_docked it loads the pose file, aligns "undocked" onto the pose without fitting, and records `(i, rmsd)`. It deletes the pose before the next one, and deletes "undocked" at the end.
4. It writes the records into a sheet "RMSD Results" with the header `Pose Number | RMSD`, one row per record. The sheet is saved as `docked_dir/RMSD_results_{prefix}.xlsx`.

Before all that it converts the count field with Python's `int()`. It stops with "Please fill in all fields." when a text field is empty or the count is zero.

Modules:

- `Wrappers`: `Option` and `Result`.
- `Naming`: `{i:04d}`, pose names, the `os.path.join` POSIX rules, pose and report paths.
- `PyInt`: Python's `int(str)` on ASCII text. It strips the whitespace `int()` strips (\t \n \v \f \r and space) and takes an optional sign and digits with single underscores, at most 4300 digits (CPython's default `int_max_str_digits`).
- `Engine`: PyMOL's `cmd` as a class `Pymol`. Its fields are the workspace (object name to states), the files on disk (path to states) and the list of paths written by `save`. Each command is a method, and each method is specified by a pure transition on a `Session` snapshot.
- `Splitter`, `Scorer`, `Exporter`: the three steps. Each is an imperative method with a loop, proved equal to a recursive specification function. Lemmas state what that function does.
- `Driver`: the validation and sequencing of one press of "Run", as the method `RunSplitAndRmsd` and the function `Run`.

Some consequences of the code as written:

- **Split pose objects are never deleted.** The split deletes only "docked" (:31), never the pose objects it created (:21). `Splitter.SplitWorkspace` and `Driver.RunWorkspace` show that poses beyond num_docked stay in the workspace after the run.
- **A pose count that differs from the number of states is not checked.** The scorer runs to the declared count. When the count is smaller, the extra poses are simply not scored. When it is larger, the first missing pose file makes the load raise (`Driver.RunMissingPose`). This holds unless an old file of that name is already on disk.
- **A negative count is not a configuration error.** It passes validation, nothing is scored, and the report holds only the header (`Driver.NegativeCountHeaderOnly`).
- **An empty count field raises before the "fill in all fields" check.** `int("")` raises first, so that message never shows for it (`Driver.BlankCountNotInteger`).

## Model

| member | source | states |
|---|---|---|
| Naming.Pad4Layout | RMSD_PyMOL_GUI_Table.py:18 | `{i:04d}` is max(4, number of digits) characters: zeros, then the full decimal text of i; never truncated |
| Naming.Pad4RoundTrip | RMSD_PyMOL_GUI_Table.py:18 | reading `{i:04d}` back as a decimal number gives i |
| Naming.Pad4Injective | RMSD_PyMOL_GUI_Table.py:18 | `{i:04d}` and `{j:04d}` are equal iff i = j |
| Naming.PadLeftZeros | RMSD_PyMOL_GUI_Table.py:18 | zero-padding to a width puts exactly the missing number of zeros in front and keeps the text whole |
| Naming.Pad4PaddedExamples | RMSD_PyMOL_GUI_Table.py:18 | 7 → "0007", 42 → "0042" |
| Naming.Pad4WideExample | RMSD_PyMOL_GUI_Table.py:18 | 12345 → "12345": five digits, not truncated |
| Naming.PoseNameInjective | RMSD_PyMOL_GUI_Table.py:18 | under one prefix, two pose names are equal iff their indices are |
| Naming.PoseNameNotReserved | RMSD_PyMOL_GUI_Table.py:18 | a pose name is never "docked" or "undocked", so poses never overwrite the source or reference objects |
| Naming.JoinEndsWithName | RMSD_PyMOL_GUI_Table.py:24 | `os.path.join(dir, name)` ends with name |
| Naming.JoinInjective | RMSD_PyMOL_GUI_Table.py:24 | for names that are both absolute or both relative, joining onto one directory is injective (iff) |
| Naming.PosePathInjective | RMSD_PyMOL_GUI_Table.py:24 | distinct indices give distinct `dir/{prefix}_{i:04d}.mol2` paths (iff) |
| Naming.PoseNamesContains | RMSD_PyMOL_GUI_Table.py:16-18 | pose i is among the names of poses 1..k iff 1 <= i <= k |
| Naming.PosePathSetContains | RMSD_PyMOL_GUI_Table.py:16-24 | the path of pose i is among the paths of poses 1..k iff 1 <= i <= k |
| Naming.PosePathsAt | RMSD_PyMOL_GUI_Table.py:16-24 | position j of the list of pose paths holds the path of pose j+1 |
| Naming.PoseNameExample | RMSD_PyMOL_GUI_Table.py:18 | prefix "dock", index 3: name "dock_0003" |
| Naming.PosePathExample | RMSD_PyMOL_GUI_Table.py:24 | directory "out", prefix "dock", index 3: file "out/dock_0003.mol2" |
| Naming.ReportPathExample | RMSD_PyMOL_GUI_Table.py:100 | directory "out", prefix "dock": report "out/RMSD_results_dock.xlsx" |
| PyInt.ParseInt | RMSD_PyMOL_GUI_Table.py:87 | when `int(text)` returns, the stripped text is non-empty, starts with a digit or a sign, ends with a digit, and holds only digits and underscores past its first character |
| PyInt.ParseIntRoundTrip | RMSD_PyMOL_GUI_Table.py:87 | `int(str(n)) == n` for every integer n of at most 4300 digits (the ones `str` converts) |
| PyInt.ParseIntSurroundedBySpace | RMSD_PyMOL_GUI_Table.py:87 | whitespace (\t \n \v \f \r, space) around the decimal text of n, of at most 4300 digits, is ignored |
| PyInt.ParseIntBlank | RMSD_PyMOL_GUI_Table.py:87 | an empty or all-whitespace count raises ValueError |
| PyInt.ParseIntSpacedExample | RMSD_PyMOL_GUI_Table.py:87 | `int(" 7\n") == 7` |
| PyInt.ParseIntUnderscore | RMSD_PyMOL_GUI_Table.py:87 | two runs of digits, 4300 digits in all at most, joined by one underscore parse as the digits without it (`int("1_000") == 1000`) |
| PyInt.ParseIntTooManyDigits | RMSD_PyMOL_GUI_Table.py:87 | a signed or unsigned numeral of more than 4300 digits, whitespace around it or not, makes `int()` raise |
| PyInt.ParseIntSeparatorExample | RMSD_PyMOL_GUI_Table.py:87 | the separator 0x1C is not stripped: `int("\x1c7")` raises |
| PyInt.ParseIntRejectsStrayChar | RMSD_PyMOL_GUI_Table.py:87 | after stripping, any character past the first that is neither a digit nor `_` makes `int()` raise ("ten", "1.5") |
| PyInt.ParseIntRejectsLooseUnderscore | RMSD_PyMOL_GUI_Table.py:87 | an underscore not between two digits makes `int()` raise ("_1", "1_", "1__0") |
| Engine.Pymol.constructor | RMSD_PyMOL_GUI_Table.py:4 | a fresh engine has an empty workspace over the given files and has written nothing |
| Engine.Pymol.CountStates | RMSD_PyMOL_GUI_Table.py:13 | the number of states the object holds (zero iff it has none); `Create` copies states 1..n |
| Engine.Pymol.Load | RMSD_PyMOL_GUI_Table.py:10 | succeeds iff the file exists; the object then holds the file's states; otherwise nothing changes |
| Engine.Pymol.Create | RMSD_PyMOL_GUI_Table.py:21 | the new object holds exactly state `state` of the source |
| Engine.Pymol.Save | RMSD_PyMOL_GUI_Table.py:25 | the file now holds the object, and its path is appended to the list of writes |
| Engine.Pymol.Align | RMSD_PyMOL_GUI_Table.py:50 | with cycles=0, transform=0 the engine is not modified; the result is the RMSD of the two objects' structures |
| Engine.Pymol.Delete | RMSD_PyMOL_GUI_Table.py:31 | the name leaves the workspace and nothing else changes |
| Splitter.SplitAndExportDockedPoses | RMSD_PyMOL_GUI_Table.py:8-31 | a missing source file leaves the engine untouched; otherwise the engine ends exactly as `Split` says |
| Splitter.ExportPosesSaved | RMSD_PyMOL_GUI_Table.py:16-25 | after poses 1..k, exactly their k paths have been saved, in increasing index order |
| Splitter.ExportPosesObjects | RMSD_PyMOL_GUI_Table.py:16-21 | after poses 1..k, the workspace gained exactly their names, each holding one state; other objects are unchanged |
| Splitter.ExportPosesDisk | RMSD_PyMOL_GUI_Table.py:16-25 | after poses 1..k, the file of pose i holds state i of "docked" alone |
| Splitter.ExportPosesOtherFiles | RMSD_PyMOL_GUI_Table.py:16-25 | after poses 1..k, the disk gained exactly their paths; other files are unchanged |
| Splitter.SplitWorkspace | RMSD_PyMOL_GUI_Table.py:10-31 | "docked" is gone; the workspace is the old one plus poses 1..N, where N is the number of states; pose i holds state i alone; every other object is unchanged |
| Splitter.SplitSaved | RMSD_PyMOL_GUI_Table.py:13-25 | exactly N files are saved, `{prefix}_0001.mol2` first, in increasing index order |
| Splitter.SplitPoseFiles | RMSD_PyMOL_GUI_Table.py:13-25 | the file of pose i holds state i of the source alone |
| Splitter.SplitOtherFiles | RMSD_PyMOL_GUI_Table.py:13-25 | the disk gains exactly the N pose paths, and every other file is unchanged |
| Scorer.CalculateRmsd | RMSD_PyMOL_GUI_Table.py:34-61 | the engine and the result are exactly those of `Score`: the records, or the path whose load raised |
| Scorer.ScoreFailureSticks | RMSD_PyMOL_GUI_Table.py:47 | once a load has raised, no later pose is scored |
| Scorer.ScorePosesSucceedsIff | RMSD_PyMOL_GUI_Table.py:41-56 | scoring poses 1..k succeeds iff all their files exist |
| Scorer.ScorePosesRecords | RMSD_PyMOL_GUI_Table.py:41-53 | a successful pass over poses 1..k yields k records in order; record i-1 is (i, RMSD of the reference against pose i's file) |
| Scorer.ScorePosesWorkspace | RMSD_PyMOL_GUI_Table.py:44-56 | a successful pass removes exactly the names of poses 1..k from the workspace |
| Scorer.ScorePosesFailure | RMSD_PyMOL_GUI_Table.py:47 | a failed pass names the file of the first missing pose |
| Scorer.ScoreSucceedsIff | RMSD_PyMOL_GUI_Table.py:38-47 | the step succeeds iff the reference file exists and the files of poses 1..num_docked all exist |
| Scorer.ScoreRecords | RMSD_PyMOL_GUI_Table.py:41-53 | on success there are max(num_docked, 0) records; record i-1 is pose i with the RMSD of the reference against pose i's file; the pose numbers strictly ascend |
| Scorer.ScoreWorkspace | RMSD_PyMOL_GUI_Table.py:38-59 | the step writes no file; on success the workspace loses exactly "undocked" and poses 1..num_docked |
| Scorer.ScoreFailure | RMSD_PyMOL_GUI_Table.py:38-47 | a failed step names the reference file if it is missing, otherwise the first missing pose file |
| Exporter.ExportToExcel | RMSD_PyMOL_GUI_Table.py:64-79 | the workbook written to the output path has the sheet "RMSD Results" with the cells `Layout` gives |
| Exporter.LayoutKeys | RMSD_PyMOL_GUI_Table.py:70-76 | exactly the A and B cells of rows 1..K+1 are written: K+1 populated rows |
| Exporter.LayoutHeader | RMSD_PyMOL_GUI_Table.py:70-71 | A1 = "Pose Number" and B1 = "RMSD", never overwritten by the rows |
| Exporter.LayoutRows | RMSD_PyMOL_GUI_Table.py:74-76 | A{r+2} and B{r+2} hold the pose number and RMSD of record r |
| Exporter.ExportReadBack | RMSD_PyMOL_GUI_Table.py:70-76 | reading rows 2..K+1 back gives the records in order, and row K+2 is empty |
| Exporter.CellNameInjective | RMSD_PyMOL_GUI_Table.py:75-76 | cell names `f'A{idx}'` / `f'B{idx}'` are equal iff column and row are |
| Driver.RunSplitAndRmsd | RMSD_PyMOL_GUI_Table.py:82-103 | the engine and the outcome are exactly those of `Run`: validate, split, score, export, in that order |
| Driver.RunValidation | RMSD_PyMOL_GUI_Table.py:87-91 | the outcome is CountNotInteger iff `int()` fails; it is FieldsMissing iff the count converts but a field is empty or the count is 0; in both cases the engine is untouched |
| Driver.BlankCountNotInteger | RMSD_PyMOL_GUI_Table.py:87-91 | a blank count field raises in `int()` before the fields are checked |
| Driver.SplitThenScore | RMSD_PyMOL_GUI_Table.py:94-97 | right after a split of N states, scoring n <= N poses succeeds; record i-1 is (i, RMSD of the reference against state i) |
| Driver.RunCompletes | RMSD_PyMOL_GUI_Table.py:94-101 | with valid fields and 1 <= num_docked <= N, the run writes `docked_dir/RMSD_results_{prefix}.xlsx` with the expected records laid out |
| Driver.SplitThenScoreWorkspace | RMSD_PyMOL_GUI_Table.py:21-59 | after split and scoring: no "docked", no "undocked", no pose 1..n; poses beyond n still hold their states |
| Driver.RunWorkspace | RMSD_PyMOL_GUI_Table.py:94-97 | a completed run leaves that workspace, and has written the N pose paths in index order |
| Driver.NegativeCountHeaderOnly | RMSD_PyMOL_GUI_Table.py:87-101 | a negative count passes validation and yields a report holding only A1 and B1 |
| Driver.RunMissingPose | RMSD_PyMOL_GUI_Table.py:41-47 | a count above N, with no stale file for pose N+1, stops the run at that pose's path; no report is written |

## Left out

- The tkinter form, the file and directory pickers and the message boxes are not modelled. The fields arrive as strings, and the outcome (`Driver.Outcome`) says which message or exception the operator would see.
- The progress `print` after each saved pose is not modelled: it is output only.
- File parsing (MOL2/PDB/PDBQT), atoms and the alignment algorithm are not modelled. A state is an opaque conformation, and `cmd.align` is a caller-supplied function from two structures to a real number. Floating-point rounding of the RMSD is not modelled.
- Engine.Pymol.Load: loading into an existing object name replaces the object. PyMOL would instead append the file's states to it. Engine.Pymol.Create also replaces an existing object.
- Engine.Pymol.Save: only the object's states are written. State selection, file formats and write failures (permissions, missing directory) are not modelled. The only failure modelled anywhere is `cmd.load` of a file that does not exist.
- Engine.Pymol.Align: the engine refusing to align two structures is not modelled.
- Exporter.ExportToExcel: openpyxl's file serialization and write failures are not modelled. The workbook is a value carrying its path, title and cells.
- PyInt.ParseInt: only ASCII whitespace and ASCII digits are modelled. `int()` also accepts other Unicode whitespace and digits. The digit limit is CPython's default of 4300; changing it with `sys.set_int_max_str_digits` or `PYTHONINTMAXSTRDIGITS` is not modelled.
- PyInt.ParseIntRoundTrip: stated only for integers of at most 4300 digits, because `str(n)` itself raises past the limit.
- Scorer.ScoreWorkspace: the workspace after a failed step is not described beyond its disk and list of writes. The exception leaves "undocked" loaded; the poses scored before it were already deleted.
- That at most one pose object is live at a time during scoring is not stated step by step. The model states the workspace at the end of each step.
