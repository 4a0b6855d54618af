/** The Redes timetable loader: every row after the header whose first cell
    holds a time range gives one event per non-blank cell of columns 1 to 5,
    the classroom in a trailing parenthesis split off the subject, and the
    earliest start and latest end hour bound the calendar. */
module RedesSchedule {
  import opened Wrappers
  import opened Seqs
  import opened Strings
  import opened Sheets
  import opened Clock
  import LibSchedule
  import RedesFiles

  /** One timetable entry; `aula` is `None` when the cell names no classroom. */
  datatype Event = Event(materia: string, dia: Cell, inicio: string, fin: string, aula: Option<string>, sistema: string)

  /** The events and the hour range handed to the calendar. */
  datatype Loaded = Loaded(events: seq<Event>, startHour: int, endHour: int)

  /** The career line every event carries. */
  function Sistema(year: string, division: string): string {
    "Redes y Comunicación " + year + " " + division
  }

  // ---------------------------------------------------------------------------
  // Cells

  /** `String(c || "").trim()`. */
  function CellText(c: Cell): string {
    if Truthy(c) then Trim(Show(c)) else ""
  }

  /** The pattern `\(([^)]+)\)$` matches from position `p`: an opening
      parenthesis, at least one character none of which closes it, and a
      closing parenthesis that ends the text. */
  predicate AulaAt(t: string, p: nat) {
    p + 3 <= |t| && t[p] == '(' && t[|t| - 1] == ')' &&
    forall k :: p < k < |t| - 1 ==> t[k] != ')'
  }

  function AulaFrom(t: string, p: nat): (r: Option<nat>)
    ensures r.Some? ==> p <= r.value && r.value + 3 <= |t|
    decreases |t| - p
  {
    if p + 3 > |t| then None
    else if AulaAt(t, p) then Some(p)
    else AulaFrom(t, p + 1)
  }

  /** The search finds the leftmost position the pattern matches from. */
  lemma {:induction false} AulaFromLeftmost(t: string, p: nat)
    ensures var r := AulaFrom(t, p);
      (r.Some? ==> AulaAt(t, r.value) && forall q: nat :: p <= q < r.value ==> !AulaAt(t, q)) &&
      (r.None? ==> forall q: nat :: p <= q ==> !AulaAt(t, q))
    decreases |t| - p
  {
    if p + 3 <= |t| && !AulaAt(t, p) {
      AulaFromLeftmost(t, p + 1);
    }
  }

  /** Where the classroom pattern matches, leftmost first. */
  function AulaMatch(t: string): Option<nat> {
    AulaFrom(t, 0)
  }

  /** The match is the leftmost position the pattern matches from. */
  lemma AulaMatchLeftmost(t: string)
    ensures var r := AulaMatch(t);
      (r.Some? ==> AulaAt(t, r.value) && forall q: nat :: q < r.value ==> !AulaAt(t, q)) &&
      (r.None? ==> forall q: nat :: !AulaAt(t, q))
  {
    AulaFromLeftmost(t, 0);
  }

  /** Subject and classroom of a non-blank cell: without a match the whole
      text and no classroom; with a match at `p` the trimmed text before it
      and the trimmed text inside the parentheses. */
  function SplitAula(t: string): (string, Option<string>) {
    match AulaMatch(t)
    case None => (t, None)
    case Some(p) => (Trim(t[..p]), Some(Trim(t[p + 1..|t| - 1])))
  }

  /** The split as written: the matched text is removed where it FIRST
      occurs in the cell, which need not be where it matched. */
  function SplitAulaAsWritten(t: string): (string, Option<string>) {
    match AulaMatch(t)
    case None => (t, None)
    case Some(p) => (Trim(ReplaceFirst(t, t[p..], "")), Some(Trim(t[p + 1..|t| - 1])))
  }

  lemma SplitAulaAt(t: string, p: nat)
    requires AulaMatch(t) == Some(p)
    ensures SplitAula(t) == (Trim(t[..p]), Some(Trim(t[p + 1..|t| - 1])))
  {
  }

  lemma SplitAulaAsWrittenAt(t: string, p: nat)
    requires AulaMatch(t) == Some(p)
    ensures p < |t| && SplitAulaAsWritten(t) == (Trim(ReplaceFirst(t, t[p..], "")), Some(Trim(t[p + 1..|t| - 1])))
  {
    AulaMatchLeftmost(t);
  }

  /** Every opening parenthesis is closed later on. */
  predicate Closed(x: string) {
    forall p :: 0 <= p < |x| && x[p] == '(' ==> exists k :: p < k < |x| && x[k] == ')'
  }

  /** A subject whose parentheses are all closed, followed by a classroom in
      parentheses, splits back into the two. */
  lemma AulaRoundTrip(x: string, a: string)
    requires Closed(x) && a != [] && ')' !in a
    ensures AulaMatch(x + "(" + a + ")") == Some(|x|)
    ensures SplitAula(x + "(" + a + ")") == (Trim(x), Some(Trim(a)))
  {
    var t := x + "(" + a + ")";
    forall k | |x| < k < |t| - 1
      ensures t[k] != ')'
    {
      assert t[k] == a[k - |x| - 1];
    }
    assert AulaAt(t, |x|);
    forall q: nat | q < |x|
      ensures !AulaAt(t, q)
    {
      if t[q] == '(' {
        assert x[q] == '(';
        var k :| q < k < |x| && x[k] == ')';
        assert t[k] == ')';
      }
    }
    AulaMatchLeftmost(t);
    assert t[..|x|] == x;
    assert t[|x| + 1..|t| - 1] == a;
  }

  /** When the classroom in parentheses does not already occur in the
      subject, the split as written agrees with the split at the match and
      gives the subject and the classroom back. */
  lemma AsWrittenRoundTrip(x: string, a: string)
    requires Closed(x) && a != [] && ')' !in a && !Contains(x, "(" + a + ")")
    ensures SplitAulaAsWritten(x + "(" + a + ")") == SplitAula(x + "(" + a + ")") == (Trim(x), Some(Trim(a)))
  {
    var m := "(" + a + ")";
    var t := x + m;
    assert t == x + "(" + a + ")";
    AulaRoundTrip(x, a);
    FirstCopyAtMatch(x, a);
    assert t[|x|..] == m;
    assert t[..|x|] == x && t[|x| + |m|..] == [];
    assert ReplaceFirst(t, m, "") == x;
    SplitAulaAsWrittenAt(t, |x|);
  }

  /** The first copy of the classroom in parentheses is the matched one. */
  lemma FirstCopyAtMatch(x: string, a: string)
    requires a != [] && ')' !in a && !Contains(x, "(" + a + ")")
    ensures IndexOf(x + "(" + a + ")", "(" + a + ")") == Some(|x|)
  {
    var m := "(" + a + ")";
    var t := x + m;
    assert t == x + "(" + a + ")";
    forall j: nat | j < |x| ensures !OccursAt(t, m, j) {
      NotEarlier(x, a, j);
    }
    assert t[|x|..|x| + |m|] == m;
    FirstOccurrence(t, m, |x|);
  }

  lemma FirstOccurrence(t: string, m: string, p: nat)
    requires OccursAt(t, m, p) && forall j: nat :: j < p ==> !OccursAt(t, m, j)
    ensures IndexOf(t, m) == Some(p)
  {
  }

  /** The classroom in parentheses occurs nowhere before the match. */
  lemma NotEarlier(x: string, a: string, j: nat)
    requires a != [] && ')' !in a && !Contains(x, "(" + a + ")") && j < |x|
    ensures !OccursAt(x + "(" + a + ")", "(" + a + ")", j)
  {
    var m := "(" + a + ")";
    var t := x + m;
    assert t == x + "(" + a + ")";
    if j + |m| <= |x| {
      assert t[j..j + |m|] == x[j..j + |m|];
      assert !OccursAt(x, m, j);
    } else {
      var k := j + |m| - 1;
      assert |x| <= k < |t| - 1;
      assert t[k] != ')' by {
        if k > |x| {
          assert t[k] == a[k - |x| - 1];
        }
      }
      assert t[j..j + |m|][|m| - 1] == t[k];
      assert m[|m| - 1] == ')';
    }
  }

  /** A cell that does not end in a closing parenthesis names no classroom
      and is the subject as it is. */
  lemma NoAula(t: string)
    requires t == [] || t[|t| - 1] != ')'
    ensures SplitAula(t) == (t, None)
  {
    AulaMatchLeftmost(t);
  }

  /** A subject that itself names the classroom, as in
      "Redes (Lab 2) y Taller (Lab 2)" (x1 = "Redes ", a = "Lab 2",
      y = " y Taller", w = " "): the written split removes the first copy of
      "(Lab 2)" and leaves the trailing one in the subject, giving
      "Redes  y Taller (Lab 2)", where the intended subject is the text
      before the trailing one, "Redes (Lab 2) y Taller". */
  lemma ReplaceCutsEarlierCopy(x1: string, a: string, y: string, w: string)
    requires '(' !in x1 && '(' !in a && ')' !in a && a != []
    requires '(' !in y && y != [] && !IsSpace(y[|y| - 1]) && y[|y| - 1] != ')'
    requires forall i :: 0 <= i < |w| ==> IsSpace(w[i])
    ensures var m := "(" + a + ")";
      SplitAula(x1 + m + y + w + m) == (Trim(x1 + m + y), Some(Trim(a))) &&
      SplitAulaAsWritten(x1 + m + y + w + m).0 == Trim(x1 + y + w + m) &&
      SplitAulaAsWritten(x1 + m + y + w + m).0 != SplitAula(x1 + m + y + w + m).0
  {
    var m := "(" + a + ")";
    var x := x1 + m + y;
    assert '(' !in y + w;
    SplitsAtBoth(x1, a, y + w);
    CellParts(x1, m, y, w);
    TrimBlanksAfter(x, w);
    assert x[|x| - 1] == y[|y| - 1];
    TrimsDiffer(x1 + y + w + m, x);
  }

  lemma CellParts(x1: string, m: string, y: string, w: string)
    ensures x1 + m + (y + w) + m == x1 + m + y + w + m
    ensures x1 + (y + w) + m == x1 + y + w + m
    ensures x1 + m + (y + w) == x1 + m + y + w
  {
  }

  /** Two texts whose last characters are different non-blanks trim apart. */
  lemma TrimsDiffer(p: string, q: string)
    requires p != [] && q != [] && !IsSpace(p[|p| - 1]) && !IsSpace(q[|q| - 1]) && p[|p| - 1] != q[|q| - 1]
    ensures Trim(p) != Trim(q)
  {
    TrimLast(p);
    TrimLast(q);
  }

  /** A cell whose classroom also appears earlier: the match splits at the
      trailing copy, the written replace removes the earlier one. */
  lemma SplitsAtBoth(x1: string, a: string, z: string)
    requires '(' !in x1 && '(' !in a && ')' !in a && a != [] && '(' !in z
    ensures var m := "(" + a + ")";
      SplitAula(x1 + m + z + m) == (Trim(x1 + m + z), Some(Trim(a))) &&
      SplitAulaAsWritten(x1 + m + z + m).0 == Trim(x1 + z + m)
  {
    var m := "(" + a + ")";
    var x := x1 + m + z;
    OneOpening(x1, a, z);
    assert x == x1 + "(" + a + ")" + z;
    assert x1 + m + z + m == x + "(" + a + ")";
    AulaRoundTrip(x, a);
    WrittenSubject(x, a);
    WrittenCut(x1, a, z);
  }

  /** As written, the subject is the cell with the first copy of the match removed. */
  lemma WrittenSubject(x: string, a: string)
    requires AulaMatch(x + "(" + a + ")") == Some(|x|)
    ensures var m := "(" + a + ")";
      SplitAulaAsWritten(x + m).0 == Trim(ReplaceFirst(x + m, m, ""))
  {
    var m := "(" + a + ")";
    var t := x + m;
    assert t == x + "(" + a + ")";
    WrittenAt(t, |x|);
    assert t[|x|..] == m;
  }

  lemma WrittenAt(t: string, p: nat)
    requires AulaMatch(t) == Some(p)
    ensures SplitAulaAsWritten(t).0 == Trim(ReplaceFirst(t, t[p..], ""))
  {
  }

  /** Removing the first copy of the parenthesised classroom leaves the trailing one. */
  lemma WrittenCut(x1: string, a: string, y: string)
    requires '(' !in x1
    ensures var m := "(" + a + ")";
      ReplaceFirst(x1 + m + y + m, m, "") == x1 + y + m
  {
    var m := "(" + a + ")";
    var t := x1 + m + y + m;
    FirstCopy(x1, a, y);
    assert t[..|x1|] == x1;
    assert t[|x1| + |m|..] == y + m;
  }

  /** The subject part holds one opening parenthesis, closed right after the classroom. */
  lemma OneOpening(x1: string, a: string, y: string)
    requires '(' !in x1 && '(' !in a && '(' !in y
    ensures Closed(x1 + "(" + a + ")" + y)
  {
    var m := "(" + a + ")";
    var x := x1 + m + y;
    forall p | 0 <= p < |x| && p != |x1|
      ensures x[p] != '('
    {
      if p < |x1| {
        assert x[p] == x1[p];
      } else if p < |x1| + |a| + 1 {
        assert x[p] == a[p - |x1| - 1];
      } else if p == |x1| + |a| + 1 {
        assert x[p] == ')';
      } else {
        assert x[p] == y[p - |x1| - |m|];
      }
    }
    assert x[|x1| + |a| + 1] == ')';
    forall p | 0 <= p < |x| && x[p] == '('
      ensures exists k :: p < k < |x| && x[k] == ')'
    {
      assert x[|x1| + |a| + 1] == ')';
    }
    assert x == x1 + "(" + a + ")" + y;
  }

  /** The first copy of the parenthesised classroom is the one after `x1`. */
  lemma FirstCopy(x1: string, a: string, y: string)
    requires '(' !in x1
    ensures var m := "(" + a + ")";
      IndexOf(x1 + m + y + m, m) == Some(|x1|)
  {
    var m := "(" + a + ")";
    var t := x1 + m + y + m;
    assert t[|x1|..|x1| + |m|] == m;
    assert OccursAt(t, m, |x1|);
    forall j: nat | j < |x1|
      ensures !OccursAt(t, m, j)
    {
      assert t[j] == x1[j] && m[0] == '(';
      assert t[j..j + |m|][0] == t[j];
    }
  }

  // ---------------------------------------------------------------------------
  // Rows

  /** The start and end of a row whose first cell is truthy and holds a time
      range: the range's two clocks, colon-separated and zero-padded. */
  function RowTimes(row: Row): (r: Option<(string, string)>)
    ensures r.Some? <==> LibSchedule.TimeCell(At(row, 0))
    ensures r.Some? ==> IsHourMinute(r.value.0) && IsHourMinute(r.value.1)
    ensures r.Some? ==> IsClock(r.value.0) && IsClock(r.value.1)
  {
    if LibSchedule.TimeCell(At(row, 0)) then
      var g := FindRange(Show(At(row, 0))).value;
      NormalizeClockShape(g.0);
      NormalizeClockShape(g.1);
      NormalizeIdempotent(NormalizeClock(g.0));
      NormalizeIdempotent(NormalizeClock(g.1));
      Some((NormalizeClock(g.0), NormalizeClock(g.1)))
    else None
  }

  /** How many event columns the header allows: 1 up to 5, and only columns it has. */
  function Columns(header: Row): (n: nat)
    ensures n <= 5 && (n == 0 || n < |header|)
  {
    if |header| <= 1 then 0 else if |header| - 1 < 5 then |header| - 1 else 5
  }

  /** What column `col` of a time row contributes: nothing when its cell is
      blank, otherwise an event under the header cell above it, the
      classroom split off as written. */
  function CellEvent(row: Row, header: Row, col: nat, times: (string, string), sistema: string): Option<Event> {
    var t := CellText(At(row, col));
    if t == "" then None
    else
      var parts := SplitAulaAsWritten(t);
      Some(Event(parts.0, At(header, col), times.0, times.1, parts.1, sistema))
  }

  /** What each column of a row read at the given times contributes. */
  function CellFn(row: Row, header: Row, times: (string, string), sistema: string): nat -> Option<Event> {
    (col: nat) => CellEvent(row, header, col, times, sistema)
  }

  /** One more column. */
  lemma CellStep(row: Row, header: Row, times: (string, string), sistema: string, col: nat)
    requires col >= 1
    ensures var ev := CellEvent(row, header, col, times, sistema);
      Gather(col, CellFn(row, header, times, sistema)) ==
      Gather(col - 1, CellFn(row, header, times, sistema)) + if ev.Some? then [ev.value] else []
  {
    assert CellFn(row, header, times, sistema)(col) == CellEvent(row, header, col, times, sistema);
  }

  /** The events of the event columns of a row read at the given times. */
  function RowCells(row: Row, header: Row, times: (string, string), sistema: string): (r: seq<Event>)
    ensures |r| <= 5
  {
    Gather(Columns(header), CellFn(row, header, times, sistema))
  }

  /** The events of one row, column by column; none unless it is a time row. */
  function RowEvents(row: Row, header: Row, sistema: string): (r: seq<Event>)
    ensures |r| <= 5
  {
    match RowTimes(row)
    case None => []
    case Some(times) => RowCells(row, header, times, sistema)
  }

  /** The events of a run of rows, in row order. */
  function Events(rows: seq<Row>, header: Row, sistema: string): seq<Event> {
    if rows == [] then [] else Events(rows[..|rows| - 1], header, sistema) + RowEvents(rows[|rows| - 1], header, sistema)
  }

  /** The smallest start hour of the time rows, 23 when there is none. */
  function MinStart(rows: seq<Row>): (r: int)
    ensures 0 <= r <= 23
  {
    if rows == [] then 23
    else
      var m := MinStart(rows[..|rows| - 1]);
      match RowTimes(rows[|rows| - 1])
      case None => m
      case Some(times) => if HourValue(times.0) < m then HourValue(times.0) else m
  }

  /** The largest end hour of the time rows, 0 when there is none. */
  function MaxEnd(rows: seq<Row>): (r: int)
    ensures r >= 0
  {
    if rows == [] then 0
    else
      var m := MaxEnd(rows[..|rows| - 1]);
      match RowTimes(rows[|rows| - 1])
      case None => m
      case Some(times) => if HourValue(times.1) > m then HourValue(times.1) else m
  }

  /** The whole load: an error for a sheet with fewer than two rows,
      otherwise the events of the rows after the header and the hour range
      clamped to 0 to 23. */
  function Load(rows: seq<Row>, year: string, division: string): Result<Loaded, string> {
    if |rows| < 2 then Err("El archivo está vacío")
    else
      var data := rows[1..];
      var lo := MinStart(data);
      var hi := MaxEnd(data);
      Ok(Loaded(Events(data, rows[0], Sistema(year, division)), if lo < 0 then 0 else lo, if hi > 23 then 23 else hi))
  }

  // ---------------------------------------------------------------------------
  // Properties

  /** The hour range lies within the day. */
  lemma LoadRange(rows: seq<Row>, year: string, division: string)
    ensures Load(rows, year, division).Ok? <==> |rows| >= 2
    ensures Load(rows, year, division).Ok? ==> var l := Load(rows, year, division).value;
      0 <= l.startHour <= 23 && 0 <= l.endHour <= 23
  {
  }

  /** Every event starts no earlier than the range start, and ends no later
      than the range end unless the range end was clamped to 23. */
  lemma LoadCoversEvents(rows: seq<Row>, year: string, division: string)
    requires |rows| >= 2
    ensures var l := Load(rows, year, division).value;
      forall e :: e in l.events ==>
        IsHourMinute(e.inicio) && IsHourMinute(e.fin) &&
        l.startHour <= HourValue(e.inicio) && (HourValue(e.fin) <= l.endHour || l.endHour == 23)
  {
    EventsHours(rows[1..], rows[0], Sistema(year, division));
  }

  lemma {:induction false} EventsHours(rows: seq<Row>, header: Row, sistema: string)
    ensures forall e :: e in Events(rows, header, sistema) ==>
      IsHourMinute(e.inicio) && IsHourMinute(e.fin) &&
      MinStart(rows) <= HourValue(e.inicio) && HourValue(e.fin) <= MaxEnd(rows)
  {
    if rows != [] {
      var init := rows[..|rows| - 1];
      var last := rows[|rows| - 1];
      EventsHours(init, header, sistema);
      RowEventsTimes(last, header, sistema);
      assert MinStart(rows) <= MinStart(init) && MaxEnd(rows) >= MaxEnd(init);
      forall e | e in Events(rows, header, sistema)
        ensures MinStart(rows) <= HourValue(e.inicio) && HourValue(e.fin) <= MaxEnd(rows)
      {
        if e !in Events(init, header, sistema) {
          assert e in RowEvents(last, header, sistema);
        }
      }
    }
  }

  /** The events of a row carry the row's times. */
  lemma RowEventsTimes(row: Row, header: Row, sistema: string)
    ensures forall e :: e in RowEvents(row, header, sistema) ==>
      RowTimes(row) == Some((e.inicio, e.fin))
  {
    match RowTimes(row)
    case None =>
    case Some(times) =>
      forall e | e in RowEvents(row, header, sistema)
        ensures (e.inicio, e.fin) == times
      {
        GatherMember(Columns(header), CellFn(row, header, times, sistema), e);
      }
  }

  /** Without any time row there are no events and the range is 23 to 0. */
  lemma NoTimeRows(rows: seq<Row>, year: string, division: string)
    requires |rows| >= 2
    requires forall k :: 1 <= k < |rows| ==> !LibSchedule.TimeCell(At(rows[k], 0))
    ensures Load(rows, year, division) == Ok(Loaded([], 23, 0))
  {
    QuietRows(rows[1..], rows[0], Sistema(year, division));
  }

  lemma {:induction false} QuietRows(rows: seq<Row>, header: Row, sistema: string)
    requires forall k :: 0 <= k < |rows| ==> !LibSchedule.TimeCell(At(rows[k], 0))
    ensures Events(rows, header, sistema) == [] && MinStart(rows) == 23 && MaxEnd(rows) == 0
  {
    if rows != [] {
      QuietRows(rows[..|rows| - 1], header, sistema);
    }
  }

  /** An event as the loader builds it: the career line of the selection,
      the header cell of a column 1 to 5 that the header has, a trimmed
      subject that is the whole cell when no classroom was found, and a
      trimmed classroom. */
  predicate Fits(e: Event, header: Row, sistema: string) {
    e.sistema == sistema && Trimmed(e.materia) &&
    (e.aula.Some? ==> Trimmed(e.aula.value)) &&
    (e.aula.None? ==> e.materia != "") &&
    exists col :: 1 <= col <= 5 && col < |header| && e.dia == header[col]
  }

  lemma LoadFits(rows: seq<Row>, year: string, division: string)
    requires |rows| >= 2
    ensures forall e :: e in Load(rows, year, division).value.events ==> Fits(e, rows[0], Sistema(year, division))
  {
    EventsFit(rows[1..], rows[0], Sistema(year, division));
  }

  lemma {:induction false} EventsFit(rows: seq<Row>, header: Row, sistema: string)
    ensures forall e :: e in Events(rows, header, sistema) ==> Fits(e, header, sistema)
  {
    if rows != [] {
      EventsFit(rows[..|rows| - 1], header, sistema);
      RowEventsFit(rows[|rows| - 1], header, sistema);
    }
  }

  lemma RowEventsFit(row: Row, header: Row, sistema: string)
    ensures forall e :: e in RowEvents(row, header, sistema) ==> Fits(e, header, sistema)
  {
    match RowTimes(row)
    case None =>
    case Some(times) =>
      forall e | e in RowEvents(row, header, sistema)
        ensures Fits(e, header, sistema)
      {
        GatherMember(Columns(header), CellFn(row, header, times, sistema), e);
        var col :| 1 <= col <= Columns(header) && CellEvent(row, header, col, times, sistema) == Some(e);
        CellEventFits(row, header, col, times, sistema, e);
      }
  }

  lemma CellEventFits(row: Row, header: Row, col: nat, times: (string, string), sistema: string, e: Event)
    requires 1 <= col <= Columns(header)
    requires CellEvent(row, header, col, times, sistema) == Some(e)
    ensures Fits(e, header, sistema)
  {
    var t := CellText(At(row, col));
    assert e.dia == header[col];
    match AulaMatch(t)
    case None =>
    case Some(p) =>
  }

  /** A non-blank cell in an event column of a time row gives an event. */
  lemma EveryCellCounts(row: Row, header: Row, col: nat, sistema: string)
    requires RowTimes(row).Some? && 1 <= col <= Columns(header)
    requires CellText(At(row, col)) != ""
    ensures CellEvent(row, header, col, RowTimes(row).value, sistema).value in RowEvents(row, header, sistema)
  {
    var times := RowTimes(row).value;
    var x := CellEvent(row, header, col, times, sistema).value;
    assert CellFn(row, header, times, sistema)(col) == Some(x);
    GatherMember(Columns(header), CellFn(row, header, times, sistema), x);
    assert RowEvents(row, header, sistema) == RowCells(row, header, times, sistema);
  }

  // ---------------------------------------------------------------------------
  // The loader

  /** One cell of a time row. */
  method ReadCell(row: Row, header: Row, col: nat, times: (string, string), sistema: string) returns (ev: Option<Event>)
    ensures ev == CellEvent(row, header, col, times, sistema)
  {
    var cellContent := CellText(At(row, col));
    if cellContent == "" {
      return None;
    }
    var dia := At(header, col);
    var materia := cellContent;
    var aula: Option<string> := None;
    var aulaMatch := AulaMatch(cellContent);
    if aulaMatch.Some? {
      var p := aulaMatch.value;
      SplitAulaAsWrittenAt(cellContent, p);
      materia := Trim(ReplaceFirst(cellContent, cellContent[p..], ""));
      aula := Some(Trim(cellContent[p + 1..|cellContent| - 1]));
    }
    return Some(Event(materia, dia, times.0, times.1, aula, sistema));
  }

  /** The event columns of one time row. */
  method ReadTimeRow(row: Row, header: Row, times: (string, string), sistema: string) returns (evs: seq<Event>)
    ensures evs == RowCells(row, header, times, sistema)
  {
    evs := [];
    var col := 1;
    while col <= 5 && col < |header|
      invariant 1 <= col <= Columns(header) + 1
      invariant evs == Gather(col - 1, CellFn(row, header, times, sistema))
    {
      var ev := ReadCell(row, header, col, times, sistema);
      CellStep(row, header, times, sistema, col);
      if ev.Some? {
        evs := evs + [ev.value];
      }
      col := col + 1;
    }
    assert col - 1 == Columns(header);
  }

  /** The guard and the times of one row: nothing unless its first cell is
      truthy and holds a time range, otherwise the range's two clocks,
      normalised. */
  method ReadTimes(row: Row) returns (times: Option<(string, string)>)
    ensures times == RowTimes(row)
  {
    var first := At(row, 0);
    if !Truthy(first) {
      return None;
    }
    var timeMatch := FindRange(Show(first));
    if timeMatch.None? {
      return None;
    }
    var inicio := NormalizeClock(timeMatch.value.0);
    var fin := NormalizeClock(timeMatch.value.1);
    return Some((inicio, fin));
  }

  /** `parseInt(t.split(':')[0])` on a normalised time. */
  method ReadHour(t: string) returns (h: int)
    requires IsHourMinute(t)
    ensures IsClock(t) && h == HourValue(t)
  {
    var n := HourOf(t);
    HourOfHourMinute(t);
    NormalizeIdempotent(t);
    h := n.value;
  }

  /** One more row: its events follow, and its hours, if it is a time row,
      widen the range. */
  lemma RowStep(data: seq<Row>, i: nat, header: Row, sistema: string)
    requires i < |data|
    ensures var rows := data[..i + 1];
      var pre := data[..i];
      Events(rows, header, sistema) == Events(pre, header, sistema) + RowEvents(data[i], header, sistema) &&
      (RowTimes(data[i]).None? ==> MinStart(rows) == MinStart(pre) && MaxEnd(rows) == MaxEnd(pre)) &&
      (RowTimes(data[i]).Some? ==> var t := RowTimes(data[i]).value;
        MinStart(rows) == (if HourValue(t.0) < MinStart(pre) then HourValue(t.0) else MinStart(pre)) &&
        MaxEnd(rows) == (if HourValue(t.1) > MaxEnd(pre) then HourValue(t.1) else MaxEnd(pre)))
  {
    assert data[..i + 1][..i] == data[..i];
  }

  /** The rows after the header, keeping the smallest start and the largest end hour. */
  method ReadRows(data: seq<Row>, header: Row, sistema: string) returns (events: seq<Event>, minHour: int, maxHour: int)
    ensures events == Events(data, header, sistema)
    ensures minHour == MinStart(data) && maxHour == MaxEnd(data)
  {
    events := [];
    minHour := 23;
    maxHour := 0;
    for i := 0 to |data|
      invariant events == Events(data[..i], header, sistema)
      invariant minHour == MinStart(data[..i]) && maxHour == MaxEnd(data[..i])
    {
      var row := data[i];
      RowStep(data, i, header, sistema);
      var times := ReadTimes(row);
      if times.None? {
        continue;
      }
      var startHour := ReadHour(times.value.0);
      var endHour := ReadHour(times.value.1);
      minHour := if startHour < minHour then startHour else minHour;
      maxHour := if endHour > maxHour then endHour else maxHour;
      var evs := ReadTimeRow(row, header, times.value, sistema);
      events := events + evs;
    }
    assert data[..|data|] == data;
  }

  /** The error of a fetch whose response is not ok: it names the file,
      built from the lower-cased selection. */
  function NotFound(selectedYear: string, selectedDivision: string): string {
    "Horario no encontrado: " + RedesFiles.FileName(Lower(selectedYear), Lower(selectedDivision))
  }

  /** `loadSchedule`. `response` is the first sheet of the fetched file as
      rows, or `None` when the response is not ok. */
  method LoadSchedule(response: Option<seq<Row>>, selectedYear: string, selectedDivision: string)
    returns (r: Result<Loaded, string>)
    ensures response.None? ==> r == Err(NotFound(selectedYear, selectedDivision))
    ensures response.Some? ==> r == Load(response.value, selectedYear, selectedDivision)
  {
    if response.None? {
      return Err(NotFound(selectedYear, selectedDivision));
    }
    var rows := response.value;
    if |rows| < 2 {
      return Err("El archivo está vacío");
    }
    var header := rows[0];
    var events, minHour, maxHour := ReadRows(rows[1..], header, Sistema(selectedYear, selectedDivision));
    return Ok(Loaded(events, if minHour < 0 then 0 else minHour, if maxHour > 23 then 23 else maxHour));
  }
}
