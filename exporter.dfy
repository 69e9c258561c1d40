/**
 * `export_to_excel`: a sheet titled "RMSD Results" with the header row
 * `Pose Number | RMSD` and then one row per record, record r in row r+2.
 * The sheet is a map from cell name ("A1", "B7", ...) to cell value; writing
 * the workbook file is modelled as the workbook value carrying its path.
 */
module Exporter {
  import opened Wrappers
  import opened Naming
  import opened Scorer

  /** A cell value as openpyxl stores it: text, an integer or a float. */
  datatype Cell = Str(text: string) | Int(number: int) | Float(value: real)

  type Sheet = map<string, Cell>

  /** The workbook `wb.save(path)` writes: its path, the active sheet's title and its cells. */
  datatype Workbook = Workbook(path: string, title: string, cells: Sheet)

  const SheetTitle := "RMSD Results"

  /** The name of the cell in `column` and `row`, as `f'A{idx}'`. */
  function CellName(column: char, row: nat): string
  {
    [column] + Digits(row)
  }

  /** The cells written for `records`, in the order the loop writes them. */
  function Layout(records: seq<Record>): Sheet
  {
    if records == [] then map["A1" := Str("Pose Number"), "B1" := Str("RMSD")]
    else
      var k := |records| - 1;
      Layout(records[..k])[CellName('A', k + 2) := Int(records[k].pose)][CellName('B', k + 2) := Float(records[k].rmsd)]
  }

  /** Runs the export: header, then one row per record. */
  method ExportToExcel(rmsdResults: seq<Record>, outputFile: string) returns (wb: Workbook)
    ensures wb == Workbook(outputFile, SheetTitle, Layout(rmsdResults))
  {
    var sheet: Sheet := map[];
    sheet := sheet["A1" := Str("Pose Number")];
    sheet := sheet["B1" := Str("RMSD")];
    for r := 0 to |rmsdResults|
      invariant sheet == Layout(rmsdResults[..r])
    {
      var idx := r + 2;
      sheet := sheet[CellName('A', idx) := Int(rmsdResults[r].pose)];
      sheet := sheet[CellName('B', idx) := Float(rmsdResults[r].rmsd)];
      assert rmsdResults[..r + 1][..r] == rmsdResults[..r];
    }
    assert rmsdResults[..|rmsdResults|] == rmsdResults;
    wb := Workbook(outputFile, SheetTitle, sheet);
  }

  /** The cells of rows 1..rows in columns A and B. */
  function Grid(rows: nat): set<string>
  {
    set row, column | 1 <= row <= rows && column in ['A', 'B'] :: CellName(column, row)
  }

  /** Reads row `row` back as a record, if it holds an integer and a float. */
  function ReadRow(sheet: Sheet, row: nat): Option<Record>
  {
    var a, b := CellName('A', row), CellName('B', row);
    if a in sheet && b in sheet && sheet[a].Int? && sheet[b].Float? then
      Some(Record(sheet[a].number, sheet[b].value))
    else None
  }

  /** Reads rows 2..k+1 back as records. */
  function ReadRecords(sheet: Sheet, k: nat): Option<seq<Record>>
  {
    if k == 0 then Some([])
    else match (ReadRecords(sheet, k - 1), ReadRow(sheet, k + 1))
      case (Some(rs), Some(r)) => Some(rs + [r])
      case _ => None
  }

  // ---------------------------------------------------------------------------

  lemma HeaderCellNames()
    ensures CellName('A', 1) == "A1" && CellName('B', 1) == "B1"
  {
  }

  /** A cell name determines its column and row. */
  lemma CellNameInjective(c1: char, r1: nat, c2: char, r2: nat)
    ensures CellName(c1, r1) == CellName(c2, r2) <==> c1 == c2 && r1 == r2
  {
    if CellName(c1, r1) == CellName(c2, r2) {
      assert Digits(r1) == CellName(c1, r1)[1..];
      assert Digits(r2) == CellName(c2, r2)[1..];
      ValueOfDigits(r1);
      ValueOfDigits(r2);
    }
  }

  lemma GridStep(rows: nat)
    ensures Grid(rows + 1) == Grid(rows) + {CellName('A', rows + 1), CellName('B', rows + 1)}
  {
    var bigger, smaller := Grid(rows + 1), Grid(rows) + {CellName('A', rows + 1), CellName('B', rows + 1)};
    forall name | name in bigger ensures name in smaller {
      var row, column :| 1 <= row <= rows + 1 && column in ['A', 'B'] && name == CellName(column, row);
      if row <= rows {
        assert CellName(column, row) in Grid(rows);
      }
    }
    forall name | name in smaller ensures name in bigger {
      if name in Grid(rows) {
        var row, column :| 1 <= row <= rows && column in ['A', 'B'] && name == CellName(column, row);
        assert CellName(column, row) in bigger;
      } else if name == CellName('A', rows + 1) {
        assert CellName('A', rows + 1) in bigger;
      } else {
        assert CellName('B', rows + 1) in bigger;
      }
    }
  }

  /** Exactly the cells of columns A and B in rows 1..K+1 are written: K+1 populated rows. */
  lemma {:induction false} LayoutKeys(records: seq<Record>)
    ensures Layout(records).Keys == Grid(|records| + 1)
    decreases |records|
  {
    if records == [] {
      HeaderCellNames();
      GridStep(0);
    } else {
      var k := |records| - 1;
      LayoutKeys(records[..k]);
      GridStep(k + 1);
    }
  }

  /** The header cells are written first and never overwritten. */
  lemma {:induction false} LayoutHeader(records: seq<Record>)
    ensures var sheet := Layout(records);
      && "A1" in sheet && sheet["A1"] == Str("Pose Number")
      && "B1" in sheet && sheet["B1"] == Str("RMSD")
    decreases |records|
  {
    if records != [] {
      var k := |records| - 1;
      LayoutHeader(records[..k]);
      HeaderCellNames();
      CellNameInjective('A', 1, 'A', k + 2);
      CellNameInjective('B', 1, 'A', k + 2);
      CellNameInjective('A', 1, 'B', k + 2);
      CellNameInjective('B', 1, 'B', k + 2);
    }
  }

  /** For each record r, cells A{r+2} and B{r+2} hold its pose number and its RMSD. */
  lemma {:induction false} LayoutRows(records: seq<Record>)
    ensures var sheet := Layout(records);
      forall row :: 2 <= row <= |records| + 1 ==>
        && CellName('A', row) in sheet && sheet[CellName('A', row)] == Int(records[row - 2].pose)
        && CellName('B', row) in sheet && sheet[CellName('B', row)] == Float(records[row - 2].rmsd)
    decreases |records|
  {
    if records != [] {
      var k := |records| - 1;
      var prev, sheet := records[..k], Layout(records);
      LayoutRows(prev);
      var last := k + 2;
      assert sheet == Layout(prev)[CellName('A', last) := Int(records[k].pose)][CellName('B', last) := Float(records[k].rmsd)];
      CellNameInjective('A', last, 'B', last);
      forall row | 2 <= row < last
        ensures && CellName('A', row) in sheet && sheet[CellName('A', row)] == Int(records[row - 2].pose)
                && CellName('B', row) in sheet && sheet[CellName('B', row)] == Float(records[row - 2].rmsd)
      {
        CellNameInjective('A', row, 'A', last);
        CellNameInjective('A', row, 'B', last);
        CellNameInjective('B', row, 'A', last);
        CellNameInjective('B', row, 'B', last);
        assert prev[row - 2] == records[row - 2];
      }
    }
  }

  /**
   * A1 and B1 hold the header; for each record r, cells A{r+2} and B{r+2} hold
   * its pose number and its RMSD.
   */
  lemma LayoutCells(records: seq<Record>)
    ensures var sheet := Layout(records);
      && "A1" in sheet && sheet["A1"] == Str("Pose Number")
      && "B1" in sheet && sheet["B1"] == Str("RMSD")
      && forall row :: 2 <= row <= |records| + 1 ==>
           && CellName('A', row) in sheet && sheet[CellName('A', row)] == Int(records[row - 2].pose)
           && CellName('B', row) in sheet && sheet[CellName('B', row)] == Float(records[row - 2].rmsd)
  {
    LayoutHeader(records);
    LayoutRows(records);
  }

  /**
   * Reading the sheet back gives the records in order, and the row after the
   * last record is empty.
   */
  lemma ExportReadBack(records: seq<Record>)
    ensures ReadRecords(Layout(records), |records|) == Some(records)
    ensures ReadRow(Layout(records), |records| + 2) == None
  {
    var sheet := Layout(records);
    LayoutCells(records);
    ReadPrefix(records, |records|);
    assert records[..|records|] == records;
    LayoutKeys(records);
    var a := CellName('A', |records| + 2);
    if a in sheet {
      var row, column :| 1 <= row <= |records| + 1 && column in ['A', 'B'] && a == CellName(column, row);
      CellNameInjective('A', |records| + 2, column, row);
    }
  }

  lemma {:induction false} ReadPrefix(records: seq<Record>, k: nat)
    requires k <= |records|
    ensures ReadRecords(Layout(records), k) == Some(records[..k])
  {
    if k > 0 {
      ReadPrefix(records, k - 1);
      LayoutCells(records);
      assert ReadRow(Layout(records), k + 1) == Some(records[k - 1]);
      assert records[..k] == records[..k - 1] + [records[k - 1]];
    }
  }
}
