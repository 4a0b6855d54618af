/** The chatbot's timetable reader: a sheet whose first row names the five
    weekdays in columns 1 to 5, whose first column holds time ranges
    "start a end", and whose other cells hold "subject (teacher)". */
module ExcelSchedule {
  import opened Wrappers
  import opened Strings
  import opened Seqs
  import opened Sheets

  datatype Event = Event(materia: string, profesor: string, dia: string, inicio: string, fin: string)

  /** A cell split into the subject and the teacher in parentheses. */
  datatype Subject = Subject(materia: string, profesor: string)

  const Days: seq<string> := ["Lunes", "Martes", "Miércoles", "Jueves", "Viernes"]

  const ErrorPrefix := "Error al procesar el archivo Excel: "
  const NoSheets := "El archivo Excel no contiene hojas"
  const TooFewRows := "El archivo no tiene suficientes filas con datos"
  const BadHeader := "El archivo no tiene el formato esperado (encabezados de días incorrectos)"
  const NoEvents := "No se encontraron horarios en el archivo"
  const NoTeacher := "Sin profesor asignado"

  /** The weekday of a timetable column; any other column is an error. */
  function DiaByColumn(col: int): (r: Result<string, string>)
    ensures r.Ok? <==> 1 <= col <= 5
    ensures r.Ok? ==> r.value == Days[col - 1]
    ensures r.Err? ==> r.error == "Columna " + IntToString(col) + " no corresponde a un día válido"
  {
    if col == 1 then Ok("Lunes")
    else if col == 2 then Ok("Martes")
    else if col == 3 then Ok("Miércoles")
    else if col == 4 then Ok("Jueves")
    else if col == 5 then Ok("Viernes")
    else Err("Columna " + IntToString(col) + " no corresponde a un día válido")
  }

  /** The header row names the weekdays, Monday in column 1 to Friday in
      column 5. */
  predicate HeaderOk(header: Row) {
    At(header, 1) == Text("Lunes") && At(header, 2) == Text("Martes") && At(header, 3) == Text("Miércoles")
    && At(header, 4) == Text("Jueves") && At(header, 5) == Text("Viernes")
  }

  /** The day given to a column is the day its checked header names. */
  lemma DayIsHeader(header: Row, col: int)
    requires HeaderOk(header) && 1 <= col <= 5
    ensures At(header, col) == Text(DiaByColumn(col).value)
  {
  }

  /** "Subject (Teacher)": runs of white space become one blank, and when the
      text ends with ")" and holds a "(", the subject is what comes before the
      first "(" and the teacher what lies between it and the final ")". */
  function SplitTeacher(texto: string): Subject {
    SplitNormalized(Trim(CollapseSpaces(texto)))
  }

  /** The split proper, on text whose white space is already normalised:
      both halves come out with no white space at either end. */
  function SplitNormalized(t: string): (r: Subject)
    ensures Trimmed(t) ==> Trimmed(r.materia) && Trimmed(r.profesor)
  {
    if EndsWith(t, ")") && Contains(t, "(") then
      var p := IndexOf(t, "(").value;
      OccursChar(t, '(', p);
      assert t[|t| - 1] == t[|t| - 1..][0] == ')';
      Subject(Trim(t[..p]), Trim(t[p + 1..|t| - 1]))
    else
      assert Trimmed(NoTeacher) by {
        assert NoTeacher[0] == 'S' && NoTeacher[|NoTeacher| - 1] == 'o';
      }
      Subject(t, NoTeacher)
  }

  /** A subject and a teacher written as "subject (teacher)" are read back. */
  lemma SplitTeacherRoundTrip(m: string, q: string)
    requires m != [] && !IsSpace(m[0]) && !IsSpace(m[|m| - 1]) && Collapsed(m) && '(' !in m
    requires q == [] || (!IsSpace(q[0]) && !IsSpace(q[|q| - 1]))
    requires Collapsed(q)
    ensures SplitTeacher(m + " (" + q + ")") == Subject(m, q)
  {
    var s := m + " (" + q + ")";
    WrittenCollapsed(m, q);
    CollapseCollapsed(s);
    assert s[0] == m[0] && s[|s| - 1] == ')';
    TrimUntrimmed(s);
    WrittenSplits(m, q);
  }

  lemma WrittenCollapsed(m: string, q: string)
    requires m != [] && !IsSpace(m[|m| - 1]) && Collapsed(m)
    requires q == [] || !IsSpace(q[|q| - 1])
    requires Collapsed(q)
    ensures Collapsed(m + " (" + q + ")")
  {
    var s := m + " (" + q + ")";
    var n := |m|;
    assert s[n] == ' ' && s[n + 1] == '(' && s[|s| - 1] == ')';
    forall i | 0 <= i < |s| && IsSpace(s[i])
      ensures s[i] == ' ' && (i + 1 < |s| ==> !IsSpace(s[i + 1]))
    {
      if i < n {
        assert s[i] == m[i];
        if i + 1 < n {
          assert s[i + 1] == m[i + 1];
        }
      } else if n + 2 <= i < n + 2 + |q| {
        assert s[i] == q[i - n - 2];
        if i + 1 < n + 2 + |q| {
          assert s[i + 1] == q[i - n - 1];
        }
      }
    }
  }

  lemma WrittenSplits(m: string, q: string)
    requires m != [] && !IsSpace(m[0]) && !IsSpace(m[|m| - 1]) && '(' !in m
    requires q == [] || (!IsSpace(q[0]) && !IsSpace(q[|q| - 1]))
    ensures SplitNormalized(m + " (" + q + ")") == Subject(m, q)
  {
    var s := m + " (" + q + ")";
    FirstParenthesis(m, q);
    var p := |m| + 1;
    assert s[..p] == m + " ";
    TrimBlankAfter(m);
    assert s[p + 1..|s| - 1] == q;
    TrimUntrimmed(q);
    assert s[|s| - 1..] == ")";
  }

  lemma FirstParenthesis(m: string, q: string)
    requires '(' !in m
    ensures IndexOf(m + " (" + q + ")", "(") == Some(|m| + 1)
  {
    var s := m + " (" + q + ")";
    var n := |m|;
    assert s[n + 1..n + 2] == "(";
    assert OccursAt(s, "(", n + 1);
    var p := IndexOf(s, "(").value;
    OccursChar(s, '(', p);
    assert forall j :: 0 <= j < n ==> s[j] == m[j];
  }

  lemma TrimBlankAfter(m: string)
    requires m != [] && !IsSpace(m[0]) && !IsSpace(m[|m| - 1])
    ensures Trim(m + " ") == m
  {
    assert (m + " ")[..|m|] == m;
    assert TrimStart(m + " ") == m + " ";
    assert TrimEnd(m + " ") == TrimEnd(m) == m;
  }

  /** Text that does not end with ")" names no teacher. */
  lemma NoParenthesesNoTeacher(texto: string)
    requires !EndsWith(Trim(CollapseSpaces(texto)), ")")
    ensures SplitTeacher(texto) == Subject(Trim(CollapseSpaces(texto)), NoTeacher)
  {
  }

  /** A row that holds a time range: at least six cells and a first cell of
      text containing " a ". */
  predicate TimeRow(row: Row) {
    |row| >= 6 && row[0].Text? && Contains(row[0].s, " a ")
  }

  /** The start and end of a time row, the two sides of its first " a ". */
  function Times(row: Row): (r: (string, string))
    requires TimeRow(row)
  {
    var parts := Split(row[0].s, " a ");
    (Trim(parts[0]), Trim(parts[1]))
  }

  /** The text of a timetable cell when it is not blank. */
  function Entry(row: Row, col: int): Option<string> {
    match TrimmedText(At(row, col))
    case Some(celda) => if celda != "" then Some(celda) else None
    case None => None
  }

  /** The event a non-blank cell of column `col` stands for. */
  function CellEvent(celda: string, col: int, inicio: string, fin: string): Event
    requires 1 <= col <= 5
  {
    var sub := SplitTeacher(celda);
    Event(sub.materia, sub.profesor, Days[col - 1], inicio, fin)
  }

  /** The event column `col` of a row contributes, if any. */
  function EventAt(row: Row, col: nat, inicio: string, fin: string): Option<Event> {
    if 1 <= col <= 5 && Entry(row, col).Some? then Some(CellEvent(Entry(row, col).value, col, inicio, fin))
    else None
  }

  /** The events of columns 1 to `n` of a time row, in column order. */
  function ColumnEvents(row: Row, n: nat, inicio: string, fin: string): (r: seq<Event>) {
    Gather(n, col => EventAt(row, col, inicio, fin))
  }

  /** The events one row contributes. */
  function RowEvents(row: Row): (r: seq<Event>)
    ensures |r| <= 5
  {
    if TimeRow(row) then ColumnEvents(row, 5, Times(row).0, Times(row).1) else []
  }

  /** The events of a run of rows, in row order. */
  function Events(rows: seq<Row>): seq<Event> {
    if rows == [] then [] else Events(rows[..|rows| - 1]) + RowEvents(rows[|rows| - 1])
  }

  /** A column contributes an event exactly when it is a weekday column with
      a non-blank cell; the event carries the day of that column. */
  lemma EventAtSome(row: Row, col: nat, inicio: string, fin: string, e: Event)
    ensures EventAt(row, col, inicio, fin) == Some(e) <==>
              1 <= col <= 5 && Entry(row, col).Some? && e == CellEvent(Entry(row, col).value, col, inicio, fin)
  {
  }

  /** The events of a time row are those of its columns, and nothing else;
      each carries the times of that row. */
  lemma RowEventsMember(row: Row, e: Event)
    requires TimeRow(row)
    ensures e in RowEvents(row) <==> exists col :: EventAt(row, col, Times(row).0, Times(row).1) == Some(e)
  {
    var inicio := Times(row).0;
    var fin := Times(row).1;
    var f := col => EventAt(row, col, inicio, fin);
    assert RowEvents(row) == Gather(5, f);
    GatherMember(5, f, e);
    if exists col :: EventAt(row, col, inicio, fin) == Some(e) {
      var col :| EventAt(row, col, inicio, fin) == Some(e);
      assert f(col) == Some(e);
    }
  }

  lemma EventWellFormed(row: Row, col: nat, inicio: string, fin: string, e: Event)
    requires EventAt(row, col, inicio, fin) == Some(e)
    ensures e.dia in Days && e.materia == Trim(e.materia) && e.profesor == Trim(e.profesor)
  {
    EventAtSome(row, col, inicio, fin, e);
    TrimUntrimmed(e.materia);
    TrimUntrimmed(e.profesor);
  }

  /** Every event of a row is on a weekday, with a trimmed subject and teacher. */
  lemma RowEventsWellFormed(row: Row)
    ensures forall e :: e in RowEvents(row) ==> e.dia in Days && e.materia == Trim(e.materia) && e.profesor == Trim(e.profesor)
  {
    if TimeRow(row) {
      var inicio := Times(row).0;
      var fin := Times(row).1;
      forall e | e in RowEvents(row)
        ensures e.dia in Days && e.materia == Trim(e.materia) && e.profesor == Trim(e.profesor)
      {
        RowEventsMember(row, e);
        var col :| EventAt(row, col, inicio, fin) == Some(e);
        EventWellFormed(row, col, inicio, fin, e);
      }
    }
  }

  /** Every event is on a weekday, with a trimmed subject and teacher. */
  lemma {:induction false} EventsWellFormed(rows: seq<Row>)
    ensures forall e :: e in Events(rows) ==> e.dia in Days && e.materia == Trim(e.materia) && e.profesor == Trim(e.profesor)
  {
    if rows != [] {
      EventsWellFormed(rows[..|rows| - 1]);
      RowEventsWellFormed(rows[|rows| - 1]);
    }
  }

  /** At most five events per row. */
  lemma {:induction false} EventsBound(rows: seq<Row>)
    ensures |Events(rows)| <= 5 * |rows|
  {
    if rows != [] {
      EventsBound(rows[..|rows| - 1]);
    }
  }

  /** One cell of a time row: its event when the cell is not blank. */
  method ReadCell(row: Row, col: nat, inicio: string, fin: string) returns (ev: Option<Event>)
    requires 1 <= col <= 5
    ensures ev == EventAt(row, col, inicio, fin)
  {
    var celda := TrimmedText(At(row, col));
    if celda.Some? && celda.value != "" {
      var sub := SplitTeacher(celda.value);
      var dia := DiaByColumn(col);
      assert Entry(row, col) == Some(celda.value);
      return Some(Event(sub.materia, sub.profesor, dia.value, inicio, fin));
    }
    return None;
  }

  /** The events of one row, column by column. */
  method ReadTimeRow(row: Row) returns (evs: seq<Event>)
    requires TimeRow(row)
    ensures evs == RowEvents(row)
  {
    var parts := Split(row[0].s, " a ");
    var inicio := Trim(parts[0]);
    var fin := Trim(parts[1]);
    ghost var f: nat -> Option<Event> := (col: nat) => EventAt(row, col, inicio, fin);
    evs := [];
    for col := 1 to 6
      invariant evs == Gather(col - 1, f)
    {
      var ev := ReadCell(row, col, inicio, fin);
      if ev.Some? {
        evs := evs + [ev.value];
      }
    }
    assert RowEvents(row) == Gather(5, f);
  }

  /** The events of the rows below the header, row by row. */
  method ReadEvents(rows: seq<Row>) returns (events: seq<Event>)
    ensures events == Events(rows)
  {
    events := [];
    for i := 0 to |rows|
      invariant events == Events(rows[..i])
    {
      var row := rows[i];
      assert rows[..i + 1][..i] == rows[..i];
      if TimeRow(row) {
        var evs := ReadTimeRow(row);
        events := events + evs;
      }
    }
    assert rows[..|rows|] == rows;
  }

  /** The whole reader. Every failure is reported with the same prefix; an
      empty workbook, fewer than three rows, a header that does not name the
      weekdays, and a sheet without any timetable entry are failures. */
  method ParseScheduleXlsx(sheets: seq<seq<Row>>) returns (r: Result<seq<Event>, string>)
    ensures sheets == [] ==> r == Err(ErrorPrefix + NoSheets)
    ensures sheets != [] && |sheets[0]| < 3 ==> r == Err(ErrorPrefix + TooFewRows)
    ensures sheets != [] && |sheets[0]| >= 3 && !HeaderOk(sheets[0][0]) ==> r == Err(ErrorPrefix + BadHeader)
    ensures sheets != [] && |sheets[0]| >= 3 && HeaderOk(sheets[0][0]) ==>
              r == (if Events(sheets[0][1..]) == [] then Err(ErrorPrefix + NoEvents) else Ok(Events(sheets[0][1..])))
  {
    if sheets == [] {
      return Err(ErrorPrefix + NoSheets);
    }
    var rows := sheets[0];
    if |rows| < 3 {
      return Err(ErrorPrefix + TooFewRows);
    }
    if !HeaderOk(rows[0]) {
      return Err(ErrorPrefix + BadHeader);
    }
    var events := ReadEvents(rows[1..]);
    if events == [] {
      return Err(ErrorPrefix + NoEvents);
    }
    return Ok(events);
  }

  /** A successful read is never empty, and its events are all on weekdays. */
  lemma ParsedEventsOnWeekdays(sheets: seq<seq<Row>>, events: seq<Event>)
    requires sheets != [] && |sheets[0]| >= 3 && HeaderOk(sheets[0][0])
    requires events == Events(sheets[0][1..]) && events != []
    ensures forall e :: e in events ==> e.dia in Days
    ensures |events| <= 5 * (|sheets[0]| - 1)
  {
    EventsWellFormed(sheets[0][1..]);
    EventsBound(sheets[0][1..]);
  }
}
