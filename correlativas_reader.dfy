/** Turning the rows of a curriculum spreadsheet into the course records the
    two-state prerequisite board shows: one record per row whose first cell is
    filled, each field read from the column its header names. */
module CorrelativasReader {
  import opened Wrappers
  import opened Strings
  import opened Seqs
  import opened Sheets
  import LampEngine

  const EmptyFile := "El archivo está vacío"

  /** The term of a course: "/" marks a course taught outside the term
      scheme and an empty cell means 0; both read as term 0. */
  function TermOf(c: Cell): (r: JsNumber)
    ensures c == Text("/") || !Truthy(c) ==> r == Num(0)
    ensures c != Text("/") && Truthy(c) ==> r == NumberOf(c)
  {
    if c == Text("/") then Num(0)
    else if Truthy(c) then NumberOf(c)
    else Num(0)
  }

  /** The kind of a course, "Cuat" (a one-term course) when the cell is empty. */
  function KindOf(c: Cell): (r: string)
    ensures Truthy(c) ==> r == Show(c)
    ensures !Truthy(c) ==> r == "Cuat"
  {
    Show(if Truthy(c) then c else Text("Cuat"))
  }

  predicate NonEmpty(x: string) {
    x != ""
  }

  /** A prerequisite list as the sheet writes it: names separated by commas,
      white space around them ignored, empty names dropped. */
  function NameList(s: string): seq<string> {
    Filter(Map(Split(s, ","), Trim), NonEmpty)
  }

  /** A name belongs to the list exactly when some comma-separated piece
      of the text trims to it, and it is not empty. */
  lemma NameListMember(s: string, x: string)
    ensures x in NameList(s) <==> x != "" && exists part :: part in Split(s, ",") && Trim(part) == x
  {
    MapFilterMember(Split(s, ","), Trim, NonEmpty, x);
  }

  /** Every listed name is non-empty, trimmed and free of commas. */
  lemma {:induction false} NameListClean(s: string)
    ensures forall x :: x in NameList(s) ==> x != "" && Trim(x) == x && ',' !in x
  {
    var parts := Split(s, ",");
    SplitPartsFree(s, ',');
    forall x | x in NameList(s)
      ensures x != "" && Trim(x) == x && ',' !in x
    {
      NameListMember(s, x);
      var part :| part in parts && Trim(part) == x;
      TrimTwice(part);
      TrimInside(part);
    }
  }

  /** A list written back with commas reads as the same list. */
  lemma {:induction false} NameListJoin(names: seq<string>)
    requires forall k :: 0 <= k < |names| ==> names[k] != "" && Trim(names[k]) == names[k] && ',' !in names[k]
    ensures NameList(Join(names, ",")) == names
  {
    if names == [] {
      assert Split("", ",") == [""];
      assert Map([""], Trim) == [""];
    } else {
      SplitJoin(names, ',');
      assert Map(names, Trim) == names;
      FilterKeepsAll(names, NonEmpty);
    }
  }

  /** The record of one row. `header.indexOf` gives -1 for a header that is
      not there, so the field reads as `undefined`. */
  function Record(header: Row, row: Row): LampEngine.Course {
    var list := At(row, ColumnOf(header, "Correlativas"));
    LampEngine.Course(
      Show(At(row, ColumnOf(header, "Materia"))),
      NumberOf(At(row, ColumnOf(header, "Año"))),
      TermOf(At(row, ColumnOf(header, "Cuatrimestre"))),
      KindOf(At(row, ColumnOf(header, "Tipo"))),
      if Truthy(list) then NameList(Show(list)) else [])
  }

  /** Each field comes from the column headed with its name, wherever that
      column stands. */
  lemma RecordByName(header: Row, row: Row, m: nat, y: nat, t: nat, k: nat, p: nat)
    requires m < |header| && header[m] == Text("Materia") && NamedOnce(header, "Materia")
    requires y < |header| && header[y] == Text("Año") && NamedOnce(header, "Año")
    requires t < |header| && header[t] == Text("Cuatrimestre") && NamedOnce(header, "Cuatrimestre")
    requires k < |header| && header[k] == Text("Tipo") && NamedOnce(header, "Tipo")
    requires p < |header| && header[p] == Text("Correlativas") && NamedOnce(header, "Correlativas")
    ensures Record(header, row).materia == Show(At(row, m))
    ensures Record(header, row).anio == NumberOf(At(row, y))
    ensures Record(header, row).cuatrimestre == TermOf(At(row, t))
    ensures Record(header, row).tipo == KindOf(At(row, k))
    ensures Record(header, row).correlativas ==
              if Truthy(At(row, p)) then NameList(Show(At(row, p))) else []
  {
    ColumnByName(header, "Materia", m);
    ColumnByName(header, "Año", y);
    ColumnByName(header, "Cuatrimestre", t);
    ColumnByName(header, "Tipo", k);
    ColumnByName(header, "Correlativas", p);
  }

  /** A header without one of the columns gives every record the value an
      absent cell gives. */
  lemma RecordWithoutColumn(header: Row, row: Row)
    ensures Text("Materia") !in header ==> Record(header, row).materia == "undefined"
    ensures Text("Año") !in header ==> Record(header, row).anio == NaN
    ensures Text("Cuatrimestre") !in header ==> Record(header, row).cuatrimestre == Num(0)
    ensures Text("Tipo") !in header ==> Record(header, row).tipo == "Cuat"
    ensures Text("Correlativas") !in header ==> Record(header, row).correlativas == []
  {
  }

  /** Rows whose first cell is empty or absent are skipped. */
  predicate Kept(row: Row) {
    Truthy(At(row, 0))
  }

  /** The records of the data rows, in row order. */
  function Records(header: Row, rows: seq<Row>): seq<LampEngine.Course> {
    KeepMap(rows, Kept, row => Record(header, row))
  }

  /** A record is produced for every kept row and for nothing else. */
  lemma RecordsMember(header: Row, rows: seq<Row>, c: LampEngine.Course)
    ensures c in Records(header, rows) <==> exists row :: row in rows && Kept(row) && Record(header, row) == c
  {
    KeepMapMember(rows, Kept, row => Record(header, row), c);
  }

  /** One record per kept row, in the rows' order. */
  lemma RecordsAppend(header: Row, a: seq<Row>, b: seq<Row>)
    ensures Records(header, a + b) == Records(header, a) + Records(header, b)
  {
    KeepMapAppend(a, b, Kept, row => Record(header, row));
  }

  /** The number of records is the number of kept rows. */
  lemma RecordsCount(header: Row, rows: seq<Row>)
    ensures |Records(header, rows)| == |Filter(rows, Kept)|
  {
    KeepMapCount(rows, Kept, row => Record(header, row));
  }

  /** The record of one kept row, built field by field. */
  method ReadRow(header: Row, row: Row) returns (materia: LampEngine.Course)
    ensures materia == Record(header, row)
  {
    var cuatrimestre := At(row, ColumnOf(header, "Cuatrimestre"));
    var tipo := At(row, ColumnOf(header, "Tipo"));
    materia := LampEngine.Course(
      Show(At(row, ColumnOf(header, "Materia"))),
      NumberOf(At(row, ColumnOf(header, "Año"))),
      if cuatrimestre == Text("/") then Num(0) else if Truthy(cuatrimestre) then NumberOf(cuatrimestre) else Num(0),
      Show(if Truthy(tipo) then tipo else Text("Cuat")),
      []);
    var correlativasCell := At(row, ColumnOf(header, "Correlativas"));
    if Truthy(correlativasCell) {
      materia := materia.(correlativas := NameList(Show(correlativasCell)));
    }
  }

  /** The file the reader fetches for a career. */
  function CorrelativasFile(carreraId: string): string {
    "correlativas-" + carreraId + ".xlsx"
  }

  /** The reader. `response` is the first sheet of the fetched file as rows,
      or `None` when the response is not ok, which fails naming the file.
      Fewer than two rows is an empty file; otherwise the first row is the
      header and every later row with a first cell becomes a record. */
  method ReadCorrelativas(carreraId: string, response: Option<seq<Row>>) returns (r: Result<seq<LampEngine.Course>, string>)
    ensures response.None? <==> r == Err("Archivo no encontrado: " + CorrelativasFile(carreraId))
    ensures response.Some? ==> (|response.value| < 2 <==> r == Err(EmptyFile))
    ensures response.Some? && |response.value| >= 2 ==> r == Ok(Records(response.value[0], response.value[1..]))
  {
    if response.None? {
      return Err("Archivo no encontrado: " + CorrelativasFile(carreraId));
    }
    var rows := response.value;
    if |rows| < 2 {
      return Err(EmptyFile);
    }
    var header := rows[0];
    var materias: seq<LampEngine.Course> := [];
    for i := 1 to |rows|
      invariant materias == Records(header, rows[1..i])
    {
      var row := rows[i];
      assert rows[1..i + 1][..i - 1] == rows[1..i];
      if !Truthy(At(row, 0)) {
        continue;
      }
      var materia := ReadRow(header, row);
      materias := materias + [materia];
    }
    assert rows[1..|rows|] == rows[1..];
    return Ok(materias);
  }
}
