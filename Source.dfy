/**
 The personnel export as the program reads it. Opening the workbook or the
 delimited file is abstracted away: a reader receives the file's rows of
 cells and keeps the program's row slicing and blank-cell rule.

 After slicing, a staff row carries eight semantic columns:
 0 description, 1 last name, 2 first name, 3 site, 4 email, 5 title,
 6 phone, 7 employee id (the external reference).
 */
module Source {
  import opened Values

  /** The row from cell `k` on, as Python slices it: empty when the row has
      fewer than `k` cells. */
  function Drop(row: seq<Value>, k: nat): seq<Value>
  {
    if k <= |row| then row[k..] else []
  }

  /** Every blank cell read as "", the other cells kept. */
  function Clean(cells: seq<Value>): seq<Value>
  {
    seq(|cells|, j requires 0 <= j < |cells| => OrEmpty(cells[j]))
  }

  /** readADExport: the sheet's rows from the second on (the first is the
      header), each without its three leading columns, blanks read as "". */
  function ReadADExport(sheet: seq<seq<Value>>): (rows: seq<seq<Value>>)
    ensures |rows| == if sheet == [] then 0 else |sheet| - 1
    ensures forall i :: 0 <= i < |rows| ==>
      |rows[i]| == if |sheet[i + 1]| < 3 then 0 else |sheet[i + 1]| - 3
    ensures forall i, j :: 0 <= i < |rows| && 0 <= j < |rows[i]| ==>
      rows[i][j] == OrEmpty(sheet[i + 1][j + 3])
  {
    if sheet == [] then []
    else seq(|sheet| - 1, i requires 0 <= i < |sheet| - 1 => Clean(Drop(sheet[i + 1], 3)))
  }

  /** readADExportCSV: every row without its TWO leading columns, blanks read
      as "", and then the first (header) row dropped. */
  function ReadADExportCSV(lines: seq<seq<Value>>): (rows: seq<seq<Value>>)
    ensures |rows| == if lines == [] then 0 else |lines| - 1
    ensures forall i :: 0 <= i < |rows| ==>
      |rows[i]| == if |lines[i + 1]| < 2 then 0 else |lines[i + 1]| - 2
    ensures forall i, j :: 0 <= i < |rows| && 0 <= j < |rows[i]| ==>
      rows[i][j] == OrEmpty(lines[i + 1][j + 2])
  {
    var allCells := seq(|lines|, i requires 0 <= i < |lines| => Clean(Drop(lines[i], 2)));
    if allCells == [] then [] else allCells[1..]
  }

  /** The two readers give the same rows when the delimited file is the sheet
      without its first column: the only difference between them is the
      number of leading columns they drop. */
  lemma ReadersAgree(sheet: seq<seq<Value>>, lines: seq<seq<Value>>)
    requires |lines| == |sheet|
    requires forall i :: 1 <= i < |sheet| ==> |sheet[i]| > 0 && lines[i] == sheet[i][1..]
    ensures ReadADExportCSV(lines) == ReadADExport(sheet)
  {
  }

  /** Every cell is a string, as the csv module delivers them. */
  predicate AllText(row: seq<Value>)
  {
    forall j :: 0 <= j < |row| ==> row[j].Text?
  }

  /** The delimited reader yields only string cells when the file holds
      only strings. */
  lemma CSVRowsAreText(lines: seq<seq<Value>>)
    requires forall i :: 0 <= i < |lines| ==> AllText(lines[i])
    ensures forall i :: 0 <= i < |ReadADExportCSV(lines)| ==> AllText(ReadADExportCSV(lines)[i])
  {
  }

  /** A row the reconciliation can index: it has the eight staff columns
      (a shorter row makes the program raise IndexError). */
  predicate IsStaffRow(row: seq<Value>)
  {
    |row| >= 8
  }

  predicate StaffRows(rows: seq<seq<Value>>)
  {
    forall i :: 0 <= i < |rows| ==> IsStaffRow(rows[i])
  }

  /** The employee id (column 7) converted to a string, as the program
      compares it. */
  function ExtRef(row: seq<Value>): string
    requires IsStaffRow(row)
  {
    Str(row[7])
  }
}
