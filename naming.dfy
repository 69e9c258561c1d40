/**
 * Names and paths built by the pipeline: the zero-padded pose name
 * `{prefix}_{i:04d}`, the `.mol2` pose file, the report file
 * `RMSD_results_{prefix}.xlsx`, and POSIX `os.path.join`.
 */
module Naming {

  predicate IsDigit(c: char) { '0' <= c <= '9' }

  predicate AllDigits(s: string) { forall i :: 0 <= i < |s| ==> IsDigit(s[i]) }

  function DigitChar(d: nat): (c: char)
    requires d < 10
    ensures IsDigit(c)
  {
    ('0' as int + d) as char
  }

  function DigitValue(c: char): nat
    requires IsDigit(c)
  {
    c as int - '0' as int
  }

  /** Decimal text of `n` without leading zeros, as Python's `str(n)`. */
  function Digits(n: nat): (s: string)
    ensures |s| >= 1 && AllDigits(s)
    decreases n
  {
    if n < 10 then [DigitChar(n)] else Digits(n / 10) + [DigitChar(n % 10)]
  }

  /** The number a string of decimal digits denotes; leading zeros are allowed. */
  function ValueOf(s: string): nat
    requires AllDigits(s)
    decreases |s|
  {
    if s == [] then 0 else ValueOf(s[..|s| - 1]) * 10 + DigitValue(s[|s| - 1])
  }

  function Zeros(k: nat): (s: string)
    ensures |s| == k && forall i :: 0 <= i < k ==> s[i] == '0'
  {
    if k == 0 then [] else Zeros(k - 1) + ['0']
  }

  /** `s` with zeros put in front until it is `width` characters long; never truncated. */
  function PadLeft(s: string, width: nat): string
    decreases if |s| < width then width - |s| else 0
  {
    if |s| < width then PadLeft(['0'] + s, width) else s
  }

  /** The format `{n:04d}`: decimal digits left-padded with zeros to width 4, never truncated. */
  function Pad4(n: nat): string
  {
    PadLeft(Digits(n), 4)
  }

  /** Name of pose `i`: `{prefix}_{i:04d}`. */
  function PoseName(prefix: string, i: nat): string
  {
    prefix + "_" + Pad4(i)
  }

  /** File name of pose `i`: `{prefix}_{i:04d}.mol2`. */
  function PoseFile(prefix: string, i: nat): string
  {
    PoseName(prefix, i) + ".mol2"
  }

  predicate IsAbsolute(path: string) { |path| > 0 && path[0] == '/' }

  /**
   * POSIX `os.path.join(dir, name)`: an absolute `name` replaces `dir`; otherwise
   * a separator is inserted unless `dir` is empty or already ends with one.
   */
  function Join(dir: string, name: string): string
  {
    if IsAbsolute(name) then name
    else if dir == [] || dir[|dir| - 1] == '/' then dir + name
    else dir + "/" + name
  }

  /** Path of pose `i` under `dir`. */
  function PosePath(dir: string, prefix: string, i: nat): string
  {
    Join(dir, PoseFile(prefix, i))
  }

  /** Path of the spreadsheet report: `dir/RMSD_results_{prefix}.xlsx`. */
  function ReportPath(dir: string, prefix: string): string
  {
    Join(dir, "RMSD_results_" + prefix + ".xlsx")
  }

  /** The names of poses 1..k. */
  function PoseNames(prefix: string, k: nat): (names: set<string>)
  {
    if k == 0 then {} else PoseNames(prefix, k - 1) + {PoseName(prefix, k)}
  }

  /** The set of paths of poses 1..k under `dir`. */
  function PosePathSet(dir: string, prefix: string, k: nat): set<string>
  {
    if k == 0 then {} else PosePathSet(dir, prefix, k - 1) + {PosePath(dir, prefix, k)}
  }

  /** The paths of poses 1..k under `dir`, in increasing index order. */
  function PosePaths(dir: string, prefix: string, k: nat): (paths: seq<string>)
    ensures |paths| == k
  {
    if k == 0 then [] else PosePaths(dir, prefix, k - 1) + [PosePath(dir, prefix, k)]
  }

  // ---------------------------------------------------------------------------
  // Decimal digits

  lemma DigitRoundTrip(d: nat)
    requires d < 10
    ensures DigitValue(DigitChar(d)) == d
  {
  }

  /** `Digits` and `ValueOf` are inverse: the decimal text of `n` denotes `n`. */
  lemma {:induction false} ValueOfDigits(n: nat)
    ensures ValueOf(Digits(n)) == n
    decreases n
  {
    var s := Digits(n);
    if n < 10 {
      assert s[..|s| - 1] == [];
      DigitRoundTrip(n);
    } else {
      ValueOfDigits(n / 10);
      assert s[..|s| - 1] == Digits(n / 10);
      DigitRoundTrip(n % 10);
    }
  }

  lemma {:induction false} ValueOfZeros(k: nat)
    ensures ValueOf(Zeros(k)) == 0
  {
    if k > 0 {
      assert Zeros(k)[..k - 1] == Zeros(k - 1);
      ValueOfZeros(k - 1);
    }
  }

  /** Leading zeros do not change the value of a digit string. */
  lemma {:induction false} ValueOfLeadingZeros(k: nat, s: string)
    requires AllDigits(s)
    ensures AllDigits(Zeros(k) + s) && ValueOf(Zeros(k) + s) == ValueOf(s)
    decreases |s|
  {
    var z := Zeros(k) + s;
    if s == [] {
      assert z == Zeros(k);
      ValueOfZeros(k);
    } else {
      ValueOfLeadingZeros(k, s[..|s| - 1]);
      assert z[..|z| - 1] == Zeros(k) + s[..|s| - 1];
    }
  }

  // ---------------------------------------------------------------------------
  // `{i:04d}`

  /** Padding puts exactly the missing number of zeros in front. */
  lemma {:induction false} PadLeftZeros(s: string, width: nat)
    ensures PadLeft(s, width) == Zeros(if |s| < width then width - |s| else 0) + s
    decreases if |s| < width then width - |s| else 0
  {
    if |s| < width {
      PadLeftZeros(['0'] + s, width);
      var k := width - |s|;
      assert Zeros(k - 1) + (['0'] + s) == Zeros(k) + s by {
        assert Zeros(k) == Zeros(k - 1) + ['0'];
      }
    } else {
      assert Zeros(0) + s == s;
    }
  }

  /**
   * `{n:04d}` is at least 4 characters wide, ends with the full decimal text of `n`
   * (nothing is truncated, so 12345 keeps 5 digits) and has only zeros before it.
   */
  lemma Pad4Layout(n: nat)
    ensures var p, d := Pad4(n), Digits(n);
      && |p| == (if |d| < 4 then 4 else |d|)
      && p[|p| - |d|..] == d
      && forall i :: 0 <= i < |p| - |d| ==> p[i] == '0'
  {
    var d := Digits(n);
    PadLeftZeros(d, 4);
    var z := Zeros(if |d| < 4 then 4 - |d| else 0);
    assert (z + d)[|z|..] == d;
  }

  /** Reading `{n:04d}` back as a decimal number gives `n`. */
  lemma Pad4RoundTrip(n: nat)
    ensures AllDigits(Pad4(n)) && ValueOf(Pad4(n)) == n
  {
    var d := Digits(n);
    ValueOfDigits(n);
    PadLeftZeros(d, 4);
    ValueOfLeadingZeros(if |d| < 4 then 4 - |d| else 0, d);
  }

  /** Distinct indices have distinct `{i:04d}` texts. */
  lemma Pad4Injective(i: nat, j: nat)
    ensures Pad4(i) == Pad4(j) <==> i == j
  {
    Pad4RoundTrip(i);
    Pad4RoundTrip(j);
  }

  /** Short numbers are padded: `{7:04d}` is "0007" and `{42:04d}` is "0042". */
  lemma Pad4PaddedExamples()
    ensures Pad4(7) == "0007" && Pad4(42) == "0042"
  {
    assert Pad4(7) == "0007" by {
      PadLeftZeros(Digits(7), 4);
      assert Digits(7) == "7" && Zeros(3) == "000";
    }
    assert Pad4(42) == "0042" by {
      PadLeftZeros(Digits(42), 4);
      assert Digits(42) == "42" && Zeros(2) == "00";
    }
  }

  /** Long numbers are not truncated: `{12345:04d}` is "12345". */
  lemma Pad4WideExample()
    ensures Pad4(12345) == "12345"
  {
    PadLeftZeros(Digits(12345), 4);
    assert Digits(12345) == "12345" && Zeros(0) == "";
  }

  // ---------------------------------------------------------------------------
  // Pose names and paths

  /** Under one prefix, pose names determine the index: distinct indices give distinct names. */
  lemma PoseNameInjective(prefix: string, i: nat, j: nat)
    ensures PoseName(prefix, i) == PoseName(prefix, j) <==> i == j
  {
    if PoseName(prefix, i) == PoseName(prefix, j) {
      assert Pad4(i) == PoseName(prefix, i)[|prefix| + 1..];
      assert Pad4(j) == PoseName(prefix, j)[|prefix| + 1..];
      Pad4Injective(i, j);
    }
  }

  /** A pose name ends in a digit, so it is never the engine name "docked" or "undocked". */
  lemma PoseNameNotReserved(prefix: string, i: nat)
    ensures PoseName(prefix, i) != "docked" && PoseName(prefix, i) != "undocked"
  {
    var name := PoseName(prefix, i);
    Pad4RoundTrip(i);
    Pad4Layout(i);
    assert name[|name| - 1] == Pad4(i)[|Pad4(i)| - 1];
  }

  /** `os.path.join` keeps `name` as the tail of the path. */
  lemma JoinEndsWithName(dir: string, name: string)
    ensures var path := Join(dir, name);
      |path| >= |name| && path[|path| - |name|..] == name
  {
  }

  /** Joining onto one directory is injective among names that are all absolute or all relative. */
  lemma JoinInjective(dir: string, a: string, b: string)
    requires IsAbsolute(a) == IsAbsolute(b)
    ensures Join(dir, a) == Join(dir, b) <==> a == b
  {
    if Join(dir, a) == Join(dir, b) {
      JoinEndsWithName(dir, a);
      JoinEndsWithName(dir, b);
      assert |a| == |b|;
    }
  }

  /** Under one directory and prefix, distinct indices give distinct pose paths. */
  lemma PosePathInjective(dir: string, prefix: string, i: nat, j: nat)
    ensures PosePath(dir, prefix, i) == PosePath(dir, prefix, j) <==> i == j
  {
    var a, b := PoseFile(prefix, i), PoseFile(prefix, j);
    assert a[0] == b[0] == (prefix + "_")[0];
    JoinInjective(dir, a, b);
    if a == b {
      assert PoseName(prefix, i) == a[..|a| - 5];
      assert PoseName(prefix, j) == b[..|b| - 5];
      PoseNameInjective(prefix, i, j);
    }
  }

  /** No pose name is "docked" or "undocked". */
  lemma {:induction false} PoseNamesNotReserved(prefix: string, k: nat)
    ensures "docked" !in PoseNames(prefix, k) && "undocked" !in PoseNames(prefix, k)
  {
    if k > 0 {
      PoseNamesNotReserved(prefix, k - 1);
      PoseNameNotReserved(prefix, k);
    }
  }

  /** Pose `i` is among the names of poses 1..k exactly when i is in 1..k. */
  lemma {:induction false} PoseNamesContains(prefix: string, k: nat, i: nat)
    ensures PoseName(prefix, i) in PoseNames(prefix, k) <==> 1 <= i <= k
  {
    if k > 0 {
      PoseNamesContains(prefix, k - 1, i);
      PoseNameInjective(prefix, i, k);
    }
  }

  /** The path of pose `i` is among the paths of poses 1..k exactly when i is in 1..k. */
  lemma {:induction false} PosePathSetContains(dir: string, prefix: string, k: nat, i: nat)
    ensures PosePath(dir, prefix, i) in PosePathSet(dir, prefix, k) <==> 1 <= i <= k
  {
    if k > 0 {
      PosePathSetContains(dir, prefix, k - 1, i);
      PosePathInjective(dir, prefix, i, k);
    }
  }

  /** The pose path list holds the path of pose j+1 at position j. */
  lemma {:induction false} PosePathsAt(dir: string, prefix: string, k: nat, j: nat)
    requires j < k
    ensures PosePaths(dir, prefix, k)[j] == PosePath(dir, prefix, j + 1)
  {
    var prev := PosePaths(dir, prefix, k - 1);
    assert PosePaths(dir, prefix, k) == prev + [PosePath(dir, prefix, k)];
    if j < k - 1 {
      PosePathsAt(dir, prefix, k - 1, j);
      assert (prev + [PosePath(dir, prefix, k)])[j] == prev[j];
    }
  }

  lemma PoseNameExample()
    ensures PoseName("dock", 3) == "dock_0003"
  {
    assert Pad4(3) == "0003" by {
      PadLeftZeros(Digits(3), 4);
      assert Digits(3) == "3" && Zeros(3) == "000";
    }
  }

  lemma PosePathExample()
    ensures PosePath("out", "dock", 3) == "out/dock_0003.mol2"
  {
    PoseNameExample();
    assert PoseFile("dock", 3) == "dock_0003.mol2";
  }

  lemma ReportPathExample()
    ensures ReportPath("out", "dock") == "out/RMSD_results_dock.xlsx"
  {
    assert "RMSD_results_" + "dock" + ".xlsx" == "RMSD_results_dock.xlsx";
  }
}
