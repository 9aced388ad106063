/**
 * The records the spreadsheet processor reads, stores and returns: cell values,
 * rows, the stored file metadata and data rows, and the response shapes.
 */
module Entities {
  import opened Wrappers

  /**
   * A JSON value as it appears in a row of imported data. Numbers keep the cell
   * text they were parsed from (a number is only created when that text survives
   * the float round trip, so the text identifies the number).
   */
  datatype Value = Null | Bool(b: bool) | Number(text: string) | Str(s: string)

  /** One spreadsheet row: column header to cell value (`HashMap<String, Value>`). */
  type Row = map<string, Value>

  /** A row of the `files` table, keyed by its path in the store. */
  datatype FileRecord = FileRecord(
    name: string,
    size: int,
    hash: string,
    fieldOrder: Option<seq<string>>,
    createdAt: int,
    updatedAt: int)

  /** A row of the `excel_data` table; `path` stands for the owning file's id. */
  datatype DataRow = DataRow(
    path: string,
    sheet: string,
    rowNumber: int,
    data: Row,
    searchText: string,
    importTime: int)

  /** Counters reported by a batch import. */
  datatype ImportStats = ImportStats(success: nat, failed: nat, total: nat, skipped: nat)

  /** A search hit joined with its file's name and field order. */
  datatype ExcelData = ExcelData(row: DataRow, fileName: Option<string>, fieldOrder: Option<seq<string>>)

  /** The answer to a search: one page of hits and the number of all hits. */
  datatype SearchResponse = SearchResponse(results: seq<ExcelData>, total: nat, limit: int, offset: int)

  /** Row count, file count and latest import time. */
  datatype StatsResponse = StatsResponse(totalRows: nat, totalFiles: nat, lastUpdate: int)
}
