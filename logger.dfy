/**
 * `log_daily_update`: append one row with the nine fields of an update to
 * the sheet named after the employee, provided the spreadsheet has a sheet
 * with that title.
 *
 * The spreadsheet is a map from sheet title to the rows of that sheet.  The
 * two calls to the Sheets service (reading the spreadsheet's metadata, then
 * appending the row) either go through or fail with a message; which of the
 * three happens is a parameter, `Transport`.
 */
module Logger {
  import opened Text
  import opened Entry

  /** Sheet title to the rows in that sheet, each row a list of cells. */
  type Sheets = map<string, seq<seq<string>>>

  /** The dictionary `log_daily_update` returns: a report, or an error message. */
  datatype Response = Success(report: string) | Error(message: string)

  /** How the service calls end: both succeed, reading the metadata fails, or the append fails. */
  datatype Transport = Delivered | MetadataFails(reason: string) | AppendFails(reason: string)

  function MissingSheet(sheet: string): string {
    "Sheet '" + sheet + "' does not exist. Cannot add entry."
  }

  function Added(sheet: string): string {
    "Daily update added to sheet '" + sheet + "'."
  }

  /** The row written for an entry: its values in column order, `""` for a missing key. */
  function RowFor(entry: Record): (row: seq<string>)
    ensures |row| == |Columns| == 9
    ensures forall i :: 0 <= i < 9 ==> row[i] == Get(entry, Columns[i])
  {
    [Get(entry, DateKey), Get(entry, ProjectKey), Get(entry, LeaveKey), Get(entry, TasksKey),
     Get(entry, HoursKey), Get(entry, BlockersKey), Get(entry, TomorrowKey), Get(entry, NotesKey),
     Get(entry, UpdatedOnKey)]
  }

  /** A row read back under the column names. */
  function RecordOfRow(row: seq<string>): (entry: Record)
    requires |row| == 9
    ensures entry.Keys == set k | k in Columns
    ensures forall i :: 0 <= i < 9 ==> entry[Columns[i]] == row[i]
  {
    map[DateKey := row[0], ProjectKey := row[1], LeaveKey := row[2], TasksKey := row[3],
        HoursKey := row[4], BlockersKey := row[5], TomorrowKey := row[6], NotesKey := row[7],
        UpdatedOnKey := row[8]]
  }

  /**
   * What `log_daily_update(name, entry)` answers and what the spreadsheet
   * holds afterwards.  The title is the name stripped of whitespace; nothing
   * is written unless both calls go through and the sheet exists.
   */
  function LogOutcome(sheets: Sheets, name: string, entry: Record, transport: Transport): (out: (Response, Sheets))
    ensures out.0.Success? <==> transport.Delivered? && Trim(name) in sheets
    ensures out.1.Keys == sheets.Keys
    ensures forall s :: s in sheets ==>
      out.1[s] == sheets[s] + (if out.0.Success? && s == Trim(name) then [RowFor(entry)] else [])
  {
    var sheet := Trim(name);
    if transport.MetadataFails? then (Error(transport.reason), sheets)
    else if sheet !in sheets then (Error(MissingSheet(sheet)), sheets)
    else if transport.AppendFails? then (Error(transport.reason), sheets)
    else (Success(Added(sheet)), sheets[sheet := sheets[sheet] + [RowFor(entry)]])
  }

  /** A spreadsheet whose sheets gain rows as updates are logged. */
  class Spreadsheet {
    var sheets: Sheets

    constructor (initial: Sheets)
      ensures sheets == initial
    {
      sheets := initial;
    }

    /** `log_daily_update`, with the outcome of the two service calls given by `transport`. */
    method LogDailyUpdate(name: string, entry: Record, transport: Transport) returns (r: Response)
      modifies this
      ensures (r, sheets) == LogOutcome(old(sheets), name, entry, transport)
    {
      var sheetName := Trim(name);
      if transport.MetadataFails? {
        return Error(transport.reason);
      }
      if sheetName !in sheets {
        return Error(MissingSheet(sheetName));
      }
      var values := RowFor(entry);
      if transport.AppendFails? {
        return Error(transport.reason);
      }
      sheets := sheets[sheetName := sheets[sheetName] + [values]];
      r := Success(Added(sheetName));
    }
  }

  /** Logging into an existing sheet with both calls going through: that sheet gains the entry's row. */
  lemma LogDelivered(sheets: Sheets, name: string, entry: Record)
    requires name in sheets && Trim(name) == name
    ensures LogOutcome(sheets, name, entry, Delivered) == (Success(Added(name)), sheets[name := sheets[name] + [RowFor(entry)]])
  {
  }

  /** A sheet that does not exist is reported by name, and nothing is written. */
  lemma MissingSheetRejected(sheets: Sheets, name: string, entry: Record, transport: Transport)
    requires !transport.MetadataFails? && Trim(name) !in sheets
    ensures LogOutcome(sheets, name, entry, transport) == (Error(MissingSheet(Trim(name))), sheets)
  {
  }

  /** A failing service call is reported with its own message, and nothing is written. */
  lemma FailedCallKeepsSheets(sheets: Sheets, name: string, entry: Record, transport: Transport)
    requires transport.MetadataFails? || (transport.AppendFails? && Trim(name) in sheets)
    ensures LogOutcome(sheets, name, entry, transport) == (Error(transport.reason), sheets)
  {
  }

  /**
   * Logging into an existing sheet reports success and adds exactly one row,
   * at the end of that sheet: the entry's nine values in column order.  No
   * other sheet changes.
   */
  lemma LogAppendsOneRow(sheets: Sheets, name: string, entry: Record)
    requires Trim(name) in sheets
    ensures var out := LogOutcome(sheets, name, entry, Delivered); var s := Trim(name);
      && out.0 == Success(Added(s))
      && |out.1[s]| == |sheets[s]| + 1 && out.1[s][..|sheets[s]|] == sheets[s]
      && (forall i :: 0 <= i < 9 ==> out.1[s][|sheets[s]|][i] == Get(entry, Columns[i]))
      && (forall t :: t in sheets && t != s ==> out.1[t] == sheets[t])
  {
    var out := LogOutcome(sheets, name, entry, Delivered);
    var s := Trim(name);
    assert out.1[s] == sheets[s] + [RowFor(entry)];
    assert out.1[s][|sheets[s]|] == RowFor(entry);
  }

  /** The row holds the entry: reading it back under the column names gives the entry again. */
  lemma RowRoundTrip(entry: Record)
    requires entry.Keys == set k | k in Columns
    ensures RecordOfRow(RowFor(entry)) == entry
  {
    var row := RowFor(entry);
    var e := RecordOfRow(row);
    forall k | k in e ensures e[k] == entry[k] {
      var i :| 0 <= i < 9 && Columns[i] == k;
      assert e[Columns[i]] == row[i];
    }
    assert e.Keys == entry.Keys;
  }

  /** And the other way: a row of nine cells read under the column names is written back as it was. */
  lemma RecordRoundTrip(row: seq<string>)
    requires |row| == 9
    ensures RowFor(RecordOfRow(row)) == row
  {
  }
}
