/** The spreadsheet as the loader hands it over: a header of column labels
    and rows of cells. */
module Sheets {

  /** One spreadsheet cell: empty (read as NaN), text, or a number. */
  datatype Cell = Missing | Text(s: string) | Number(x: real)

  /** A row maps column labels to cells; a label the row lacks is an empty cell. */
  type Record = map<string, Cell>

  datatype Sheet = Sheet(columns: seq<string>, rows: seq<Record>)

  /** The unlabelled first column, holding contributor names. */
  const NameColumn: string := "Unnamed: 0"

  /** The column holding each row's contribution. */
  const AmountColumn: string := "Total Individuel"

  function CellOf(r: Record, column: string): Cell {
    if column in r then r[column] else Missing
  }

  /** Both columns the pipeline reads are present in the header. */
  predicate HasExpectedColumns(sheet: Sheet) {
    NameColumn in sheet.columns && AmountColumn in sheet.columns
  }

  /** The error that stops the run: the labels that were found instead. */
  datatype ColumnError = ColumnsNotFound(available: seq<string>)
}
