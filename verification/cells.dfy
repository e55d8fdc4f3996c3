/** Spreadsheet cells and tables as the data frame holds them: a cell is
    text, an integer, a timestamp or missing, and a table is a header row
    of column names over a sequence of equally long data rows. */
module Cells {
  import opened Strings
  import opened Calendar

  /** A pandas timestamp without fractional seconds or time zone. */
  datatype Timestamp = Timestamp(year: nat, month: nat, day: nat, hour: nat, minute: nat, second: nat) {
    function Date(): CivilDate {
      CivilDate(year, month, day)
    }
  }

  datatype Cell = Text(text: string) | Int(n: int) | Date(stamp: Timestamp) | Missing

  type Row = seq<Cell>

  datatype Table = Table(header: seq<string>, rows: seq<Row>)

  /** A data frame is rectangular: every row has one cell per column. */
  predicate WellFormed(t: Table) {
    forall i :: 0 <= i < |t.rows| ==> |t.rows[i]| == |t.header|
  }

  /** `str(timestamp)`: `YYYY-MM-DD HH:MM:SS`. */
  function TimestampText(t: Timestamp): string {
    ZeroPad(t.year, 4) + "-" + ZeroPad(t.month, 2) + "-" + ZeroPad(t.day, 2) + " "
    + ZeroPad(t.hour, 2) + ":" + ZeroPad(t.minute, 2) + ":" + ZeroPad(t.second, 2)
  }

  /** `astype(str)` of one cell: a missing value becomes `nan`. */
  function CellText(c: Cell): string {
    match c
    case Text(s) => s
    case Int(n) => IntToString(n)
    case Date(t) => TimestampText(t)
    case Missing => "nan"
  }

  /** Positional column lookup as `iloc` does it: a negative position
      counts from the right, anything else out of range is an
      `IndexError`, here `None`. */
  function ResolveColumn(width: nat, index: int): (r: Option<nat>)
    ensures r.Some? <==> -(width as int) <= index < width
    ensures r.Some? ==> r.value < width
    ensures r.Some? && index >= 0 ==> r.value == index
    ensures r.Some? && index < 0 ==> r.value == width + index
  {
    if 0 <= index < width then Some(index)
    else if -(width as int) <= index < 0 then Some(width + index)
    else None
  }
}
