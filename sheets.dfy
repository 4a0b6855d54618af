/** Spreadsheet rows as the readers receive them: one array of cells per row,
    cells that are absent reading as `undefined`. */
module Sheets {
  import opened Wrappers
  import opened Strings

  /** One cell: a text value, a non-text value (a number or a date) shown
      through its `toString()`, or an absent cell. */
  datatype Cell = Text(s: string) | Value(shown: string) | Missing

  type Row = seq<Cell>

  /** `row[i]`: an index outside the row, -1 included, reads as `undefined`. */
  function At(row: Row, i: int): (c: Cell)
    ensures 0 <= i < |row| ==> c == row[i]
    ensures !(0 <= i < |row|) ==> c == Missing
  {
    if 0 <= i < |row| then row[i] else Missing
  }

  /** JavaScript truthiness of a cell: the empty string, 0, NaN, false and
      `undefined` are falsy. */
  predicate Truthy(c: Cell) {
    match c
    case Text(s) => s != ""
    case Value(shown) => shown != "0" && shown != "NaN" && shown != "false"
    case Missing => false
  }

  /** `String(c)`. */
  function Show(c: Cell): string {
    match c
    case Text(s) => s
    case Value(shown) => shown
    case Missing => "undefined"
  }

  /** `c?.toString().trim()`, `None` standing for `undefined`. */
  function TrimmedText(c: Cell): (r: Option<string>)
    ensures r.None? <==> c.Missing?
    ensures r.Some? ==> r.value == Trim(Show(c))
  {
    if c.Missing? then None else Some(Trim(Show(c)))
  }

  /** `Number(c)` on a cell. */
  function NumberOf(c: Cell): JsNumber {
    if c.Missing? then NaN else ToNumber(Show(c))
  }

  /** `header.indexOf(name)`: the first column whose header is exactly the
      text `name`, or -1. */
  function ColumnOf(header: Row, name: string): (r: int)
    ensures -1 <= r < |header|
    ensures r >= 0 ==> header[r] == Text(name)
    ensures r >= 0 ==> forall j :: 0 <= j < r ==> header[j] != Text(name)
    ensures r == -1 <==> Text(name) !in header
  {
    if |header| == 0 then -1
    else if header[0] == Text(name) then 0
    else
      var k := ColumnOf(header[1..], name);
      assert Text(name) in header[1..] ==> Text(name) in header;
      if k == -1 then -1 else k + 1
  }

  /** A header names a column at most once. */
  predicate NamedOnce(header: Row, name: string) {
    forall i, j :: 0 <= i < j < |header| && header[i] == Text(name) ==> header[j] != Text(name)
  }

  /** A column is found by its name wherever it stands in the header. */
  lemma ColumnByName(header: Row, name: string, k: nat)
    requires k < |header| && header[k] == Text(name) && NamedOnce(header, name)
    ensures ColumnOf(header, name) == k
  {
  }
}
