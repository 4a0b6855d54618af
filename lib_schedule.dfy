/** The timetable reader of the course pages: the first cell names the year
    and the division, the second row names the days, and every later row
    whose first cell holds a time range gives one event per non-blank cell
    of columns 1 to 5. */
module LibSchedule {
  import opened Wrappers
  import opened Seqs
  import opened Strings
  import opened Sheets
  import opened Clock
  import ExcelSchedule

  /** One timetable entry. `dia` is the header cell above the entry, taken
      as it is. */
  datatype Event = Event(materia: string, dia: Cell, inicio: string, fin: string, anio: string, division: string)

  // ---------------------------------------------------------------------------
  // Year and division

  /** The trimmed first cell of the sheet, "" when there is none. */
  function FirstCell(rows: seq<Row>): (r: string)
    ensures Trimmed(r)
  {
    if rows == [] || At(rows[0], 0).Missing? then "" else Trim(Show(At(rows[0], 0)))
  }

  /** `extraerAnioYDivision`: the first two blank-separated words joined by a
      blank, and the third word or "". */
  function ExtraerAnioYDivision(texto: string): (string, string) {
    var partes := Split(texto, " ");
    (Join(partes[..if |partes| < 2 then |partes| else 2], " "), if |partes| > 2 then partes[2] else "")
  }

  /** Words without blanks, written one blank apart, are read back as the
      first two words and the third, or "" after only two words. */
  lemma ExtraerWords(words: seq<string>)
    requires 2 <= |words| && forall k :: 0 <= k < |words| ==> ' ' !in words[k]
    ensures ExtraerAnioYDivision(Join(words, " ")) == (words[0] + " " + words[1], if |words| > 2 then words[2] else "")
  {
    SplitJoin(words, ' ');
    var texto := Join(words, " ");
    assert Split(texto, " ") == words;
    JoinTwo(words[0], words[1]);
    assert words[..2] == [words[0], words[1]];
  }

  lemma JoinTwo(a: string, b: string)
    ensures Join([a, b], " ") == a + " " + b
  {
    assert [a, b][1..] == [b];
  }

  /** A name of exactly three words is the year and the division joined
      again by a blank. */
  lemma ExtraerRoundTrip(texto: string)
    requires |Split(texto, " ")| == 3
    ensures ExtraerAnioYDivision(texto).0 + " " + ExtraerAnioYDivision(texto).1 == texto
  {
    JoinSplit(texto, " ");
    var partes := Split(texto, " ");
    assert partes[..2] == [partes[0], partes[1]];
    JoinTwo(partes[0], partes[1]);
    JoinTwo(partes[1], partes[2]);
    assert partes[1..] == [partes[1], partes[2]];
    assert Join(partes, " ") == partes[0] + " " + Join(partes[1..], " ");
  }

  // ---------------------------------------------------------------------------
  // Times

  /** `convertirHora`: a time that holds a colon is kept, otherwise its first
      comma becomes a colon. */
  function ConvertirHora(hora: string): string {
    if Contains(hora, ":") then hora else ReplaceFirst(hora, ",", ":")
  }

  /** A clock comes out with a colon between its hour and its minutes. */
  lemma ConvertirClock(g: string)
    requires IsClock(g)
    ensures ConvertirHora(g) == ColonClock(g)
  {
    ColonForm(g);
    if Contains(g, ":") {
      var i := IndexOf(g, ":").value;
      OccursChar(g, ':', i);
      assert i == |g| - 3;
      assert g == HourDigits(g) + [g[|g| - 3]] + MinuteDigits(g);
    }
  }

  /** Converting twice is converting once. */
  lemma ConvertirTwice(hora: string)
    ensures ConvertirHora(ConvertirHora(hora)) == ConvertirHora(hora)
  {
    if !Contains(hora, ":") && Contains(hora, ",") {
      var i := IndexOf(hora, ",").value;
      var r := ReplaceFirst(hora, ",", ":");
      assert r[i..i + 1] == ":";
      ContainsAt(r, ":", i);
    }
  }

  /** A cell the row guard lets through: truthy, and holding a time range. */
  predicate TimeCell(c: Cell) {
    Truthy(c) && FindRange(Show(c)).Some?
  }

  /** A text holding a time range still holds an "a" once its first comma
      is a colon. */
  lemma RangeHasA(s: string)
    requires FindRange(s).Some?
    ensures Contains(ReplaceFirst(s, ",", ":"), "a")
  {
    FindRangeLeftmost(s);
    var i: nat :| RangeAt(s, i) == FindRange(s);
    var j := RangeHasSeparator(s, i);
    var t := ReplaceFirst(s, ",", ":");
    ReplaceKeeps(s, j);
    ContainsChar(t, 'a', j);
  }

  /** Turning the first comma into a colon keeps every other character. */
  lemma ReplaceKeeps(s: string, j: nat)
    requires j < |s| && s[j] != ','
    ensures |ReplaceFirst(s, ",", ":")| == |s| && ReplaceFirst(s, ",", ":")[j] == s[j]
  {
    if Contains(s, ",") {
      var k := IndexOf(s, ",").value;
      OccursChar(s, ',', k);
    }
  }

  /** The start and the end as the reader cuts them: the cell's first comma
      turned into a colon, the cell split at every "a", the first two parts
      trimmed, their first comma turned into a colon, and converted. */
  function TimesAsWritten(s: string): (string, string)
    requires Contains(ReplaceFirst(s, ",", ":"), "a")
  {
    var t := ReplaceFirst(s, ",", ":");
    var partes := Split(t, "a");
    (ConvertirHora(ReplaceFirst(Trim(partes[0]), ",", ":")), ConvertirHora(ReplaceFirst(Trim(partes[1]), ",", ":")))
  }

  /** The start and the end read from the range the row guard matched: its
      two clocks, converted. */
  function Times(s: string): (string, string)
    requires FindRange(s).Some?
  {
    var g := FindRange(s).value;
    (ConvertirHora(g.0), ConvertirHora(g.1))
  }

  /** The start and the end are the two clocks of the leftmost time range of
      the cell, with a colon, reading the same hours and minutes. */
  lemma TimesAreClocks(s: string)
    requires FindRange(s).Some?
    ensures var g := FindRange(s).value;
      IsClock(g.0) && IsClock(g.1) && Times(s) == (ColonClock(g.0), ColonClock(g.1))
    ensures IsClock(Times(s).0) && IsClock(Times(s).1)
  {
    var g := FindRange(s).value;
    ConvertirClock(g.0);
    ConvertirClock(g.1);
    ColonClockReads(g.0);
    ColonClockReads(g.1);
  }

  /** A range "g1 a g2" followed by text `u` and a later "a", as in
      "8:00 a 9:20 (tarde)": the split at every "a" also cuts at the later
      one, so the end read as written is `g2` with `u` still attached
      ("9:20 (t"), where the range the guard matched ends at `g2`. */
  lemma SplitCutsAtLaterA(g1: string, g2: string, u: string, v: string)
    requires IsClock(g1) && IsClock(g2) && g1[|g1| - 3] == ':' && g2[|g2| - 3] == ':'
    requires u != [] && !IsSpace(u[|u| - 1]) && ',' !in u && 'a' !in u && ',' !in v
    ensures FindRange(g1 + " a " + g2 + u + "a" + v) == Some((g1, g2))
    ensures Times(g1 + " a " + g2 + u + "a" + v) == (g1, g2)
    ensures Contains(ReplaceFirst(g1 + " a " + g2 + u + "a" + v, ",", ":"), "a")
    ensures TimesAsWritten(g1 + " a " + g2 + u + "a" + v).1 == g2 + u != g2
  {
    MatchedRange(g1, g2, u + "a" + v);
    assert g1 + " a " + g2 + u + "a" + v == g1 + " a " + g2 + (u + "a" + v);
    RangeHasA(g1 + " a " + g2 + u + "a" + v);
    WrittenEnd(g1, g2, u, v);
  }

  /** A range at the start of the text is the one the row guard matches. */
  lemma MatchedRange(g1: string, g2: string, w: string)
    requires IsClock(g1) && IsClock(g2) && g1[|g1| - 3] == ':' && g2[|g2| - 3] == ':'
    ensures FindRange(g1 + " a " + g2 + w) == Some((g1, g2))
    ensures Times(g1 + " a " + g2 + w) == (g1, g2)
  {
    var s := g1 + " a " + g2 + w;
    var n := |g1|;
    assert s[..n] == g1 && s[n + 3..n + 3 + |g2|] == g2;
    assert s[n] == ' ' && s[n + 1] == 'a' && s[n + 2] == ' ';
    assert AllSpace(s[n..n + 1]) && AllSpace(s[n + 2..n + 3]);
    RangeAtSlices(s, 0, n + 1, n + 3, g1, g2);
    FindRangeAtStart(s);
    ConvertirClock(g1);
    ConvertirClock(g2);
    ColonKept(g1);
    ColonKept(g2);
  }

  /** A clock already written with a colon is its own colon form. */
  lemma ColonKept(g: string)
    requires IsClock(g) && g[|g| - 3] == ':'
    ensures ColonClock(g) == g
  {
    assert g == HourDigits(g) + [g[|g| - 3]] + MinuteDigits(g);
  }

  lemma WrittenEnd(g1: string, g2: string, u: string, v: string)
    requires IsClock(g1) && IsClock(g2) && g1[|g1| - 3] == ':' && g2[|g2| - 3] == ':'
    requires u != [] && !IsSpace(u[|u| - 1]) && ',' !in u && 'a' !in u && ',' !in v
    requires Contains(ReplaceFirst(g1 + " a " + g2 + u + "a" + v, ",", ":"), "a")
    ensures TimesAsWritten(g1 + " a " + g2 + u + "a" + v).1 == g2 + u
  {
    WrittenParts(g1, g2, u, v);
    FinConverted(g2, u);
  }

  /** The cell holds no comma, and its second part at "a" is the end clock
      with the text after it. */
  lemma WrittenParts(g1: string, g2: string, u: string, v: string)
    requires IsClock(g1) && IsClock(g2) && g1[|g1| - 3] == ':' && g2[|g2| - 3] == ':'
    requires ',' !in u && 'a' !in u && ',' !in v
    ensures ReplaceFirst(g1 + " a " + g2 + u + "a" + v, ",", ":") == g1 + " a " + g2 + u + "a" + v
    ensures Split(g1 + " a " + g2 + u + "a" + v, "a") == [g1 + " ", " " + g2 + u] + Split(v, "a")
  {
    ClockFree(g1);
    ClockFree(g2);
    Regroup(g1, g2, u, v);
    NoComma(g1 + " a " + g2 + u + "a" + v);
    SplitTwice(g1 + " ", " " + g2 + u, v);
  }

  /** The cell regrouped around its two "a"s. */
  lemma Regroup(g1: string, g2: string, u: string, v: string)
    ensures g1 + " a " + g2 + u + "a" + v == (g1 + " ") + "a" + ((" " + g2 + u) + "a" + v)
    ensures forall c :: c in g1 + " a " + g2 + u + "a" + v <==> c in g1 || c in g2 || c in u || c in v || c == ' ' || c == 'a'
  {
  }

  lemma SplitTwice(p: string, q: string, v: string)
    requires 'a' !in p && 'a' !in q
    ensures Split(p + "a" + (q + "a" + v), "a") == [p, q] + Split(v, "a")
  {
    SplitAtFirst(p, 'a', q + "a" + v);
    SplitAtFirst(q, 'a', v);
  }

  /** The end part, trimmed and converted, keeps the text after the clock. */
  lemma FinConverted(g2: string, u: string)
    requires IsClock(g2) && g2[|g2| - 3] == ':'
    requires u != [] && !IsSpace(u[|u| - 1]) && ',' !in u
    ensures ConvertirHora(ReplaceFirst(Trim(" " + g2 + u), ",", ":")) == g2 + u
  {
    var w := g2 + u;
    assert " " + g2 + u == " " + w;
    assert w != [] && !IsSpace(w[0]) && !IsSpace(w[|w| - 1]);
    TrimBlankBefore(w);
    ClockFree(g2);
    assert ',' !in w;
    NoComma(w);
    ContainsChar(w, ':', |g2| - 3);
  }

  /** A clock holds neither a comma nor an "a" once written with a colon. */
  lemma ClockFree(g: string)
    requires IsClock(g) && g[|g| - 3] == ':'
    ensures ',' !in g && 'a' !in g
  {
  }

  /** Splitting at the first occurrence of a character. */
  lemma SplitAtFirst(p: string, c: char, q: string)
    requires c !in p
    ensures Split(p + [c] + q, [c]) == [p] + Split(q, [c])
  {
    var s := p + [c] + q;
    FirstChar(s, c, |p|);
    assert s[..|p|] == p && s[|p| + 1..] == q;
  }

  /** A text without a comma. */
  lemma NoComma(s: string)
    requires ',' !in s
    ensures ReplaceFirst(s, ",", ":") == s
  {
    if Contains(s, ",") {
      OccursChar(s, ',', IndexOf(s, ",").value);
    }
  }

  /** The first occurrence of a character in a text whose earlier
      characters differ from it. */
  lemma FirstChar(s: string, c: char, k: nat)
    requires k < |s| && s[k] == c && c !in s[..k]
    ensures IndexOf(s, [c]) == Some(k)
  {
    assert OccursAt(s, [c], k) by { assert s[k..k + 1] == [c]; }
    var i := IndexOf(s, [c]).value;
    OccursChar(s, c, i);
  }

  /** The start and the end of a time row: as the reader cuts them, or,
      `corrected`, the two clocks of the range the row guard matched. */
  function RowTimes(s: string, corrected: bool): (string, string)
    requires FindRange(s).Some?
  {
    RangeHasA(s);
    if corrected then Times(s) else TimesAsWritten(s)
  }

  /** On a cell holding nothing but a range "g1 a g2" both readings give the
      two clocks. */
  lemma PlainRangeAgrees(g1: string, g2: string)
    requires IsClock(g1) && IsClock(g2) && g1[|g1| - 3] == ':' && g2[|g2| - 3] == ':'
    ensures FindRange(g1 + " a " + g2).Some?
    ensures RowTimes(g1 + " a " + g2, false) == RowTimes(g1 + " a " + g2, true) == (g1, g2)
  {
    var s := g1 + " a " + g2;
    MatchedRange(g1, g2, "");
    assert s == g1 + " a " + g2 + "";
    RangeHasA(s);
    PlainParts(g1, g2);
    PartConverted(g1, true);
    PartConverted(g2, false);
  }

  /** The plain range holds no comma and splits at its one "a". */
  lemma PlainParts(g1: string, g2: string)
    requires IsClock(g1) && IsClock(g2) && g1[|g1| - 3] == ':' && g2[|g2| - 3] == ':'
    ensures ReplaceFirst(g1 + " a " + g2, ",", ":") == g1 + " a " + g2
    ensures Split(g1 + " a " + g2, "a") == [g1 + " ", " " + g2]
  {
    var s := g1 + " a " + g2;
    ClockFree(g1);
    ClockFree(g2);
    assert s == (g1 + " ") + "a" + (" " + g2);
    assert ',' !in s;
    NoComma(s);
    SplitAtFirst(g1 + " ", 'a', " " + g2);
    NoSplit(" " + g2, 'a');
  }

  /** A clock with a blank after it (`after` false: before it), trimmed and
      converted, is the clock. */
  lemma PartConverted(g: string, after: bool)
    requires IsClock(g) && g[|g| - 3] == ':'
    ensures ConvertirHora(ReplaceFirst(Trim(if after then g + " " else " " + g), ",", ":")) == g
  {
    assert Trimmed(g);
    if after {
      TrimBlankAfter(g);
    } else {
      TrimBlankBefore(g);
    }
    ClockFree(g);
    NoComma(g);
    ConvertirClock(g);
    ColonKept(g);
  }

  /** A text without the character is its own only part. */
  lemma NoSplit(w: string, c: char)
    requires c !in w
    ensures Split(w, [c]) == [w]
  {
    if Contains(w, [c]) {
      OccursChar(w, c, IndexOf(w, [c]).value);
    }
  }

  /** A blank after trimmed text is trimmed away. */
  lemma TrimBlankAfter(w: string)
    requires Trimmed(w)
    ensures Trim(w + " ") == w
  {
    if w == [] {
      assert TrimStart(" ") == [];
    } else {
      assert TrimStart(w + " ") == w + " ";
      assert (w + " ")[..|w|] == w;
      TrimUntrimmed(w);
    }
  }

  // ---------------------------------------------------------------------------
  // Rows

  /** The event column `col` of a time row contributes, if any. */
  function EventAt(row: Row, header: Row, col: nat, times: (string, string), place: (string, string)): Option<Event> {
    if 1 <= col <= 5 && ExcelSchedule.Entry(row, col).Some? then
      Some(Event(ExcelSchedule.Entry(row, col).value, At(header, col), times.0, times.1, place.0, place.1))
    else None
  }

  /** The events one row contributes: none unless its first cell holds a
      time range, otherwise one per non-blank cell of columns 1 to 5, with
      the times of the first cell read as written or `corrected`. */
  function RowEvents(row: Row, header: Row, place: (string, string), corrected: bool): (r: seq<Event>)
    ensures |r| <= 5
  {
    if TimeCell(At(row, 0)) then Gather(5, col => EventAt(row, header, col, RowTimes(Show(At(row, 0)), corrected), place))
    else []
  }

  /** The events of a run of rows, in row order. */
  function Events(rows: seq<Row>, header: Row, place: (string, string), corrected: bool): seq<Event> {
    if rows == [] then []
    else Events(rows[..|rows| - 1], header, place, corrected) + RowEvents(rows[|rows| - 1], header, place, corrected)
  }

  /** The events of the rows from the third on, under the days of the second
      row and the year and division of the first cell; what the reader
      returns is the reading with `corrected` false. */
  function Parsed(rows: seq<Row>, corrected: bool): seq<Event> {
    if |rows| > 2 then Events(rows[2..], rows[1], ExtraerAnioYDivision(FirstCell(rows)), corrected) else []
  }

  /** An event as the reader builds it: the year and division of the sheet,
      the day of a column 1 to 5 and a non-blank trimmed subject. */
  predicate Fits(e: Event, header: Row, place: (string, string)) {
    e.anio == place.0 && e.division == place.1 && e.materia != "" && Trimmed(e.materia) &&
    exists col :: 1 <= col <= 5 && e.dia == At(header, col)
  }

  /** The event's start and end are the times of the first cell of one of
      the time rows. */
  predicate TimedBy(e: Event, rows: seq<Row>, corrected: bool) {
    exists k :: 0 <= k < |rows| && TimeCell(At(rows[k], 0)) && (e.inicio, e.fin) == RowTimes(Show(At(rows[k], 0)), corrected)
  }

  lemma RowEventsFit(row: Row, header: Row, place: (string, string), corrected: bool)
    ensures forall e :: e in RowEvents(row, header, place, corrected) ==>
              Fits(e, header, place) && (e.inicio, e.fin) == RowTimes(Show(At(row, 0)), corrected)
  {
    if TimeCell(At(row, 0)) {
      var s := Show(At(row, 0));
      var times := RowTimes(s, corrected);
      var f := col => EventAt(row, header, col, times, place);
      assert RowEvents(row, header, place, corrected) == Gather(5, f);
      forall e | e in Gather(5, f)
        ensures Fits(e, header, place) && (e.inicio, e.fin) == times
      {
        GatherMember(5, f, e);
        var col :| 1 <= col <= 5 && f(col) == Some(e);
        EventAtFits(row, header, col, times, place, e);
      }
    }
  }

  lemma EventAtFits(row: Row, header: Row, col: nat, times: (string, string), place: (string, string), e: Event)
    requires EventAt(row, header, col, times, place) == Some(e)
    ensures Fits(e, header, place) && (e.inicio, e.fin) == times
  {
    assert e.dia == At(header, col);
  }

  lemma {:induction false} EventsFit(rows: seq<Row>, header: Row, place: (string, string), corrected: bool)
    ensures forall e :: e in Events(rows, header, place, corrected) ==> Fits(e, header, place) && TimedBy(e, rows, corrected)
  {
    if rows != [] {
      var init := rows[..|rows| - 1];
      EventsFit(init, header, place, corrected);
      RowEventsFit(rows[|rows| - 1], header, place, corrected);
      forall e | e in Events(rows, header, place, corrected)
        ensures TimedBy(e, rows, corrected)
      {
        if e in Events(init, header, place, corrected) {
          TimedByPrefix(e, rows, corrected);
        } else {
          TimedByLast(e, rows, header, place, corrected);
        }
      }
    }
  }

  lemma TimedByPrefix(e: Event, rows: seq<Row>, corrected: bool)
    requires rows != [] && TimedBy(e, rows[..|rows| - 1], corrected)
    ensures TimedBy(e, rows, corrected)
  {
    var init := rows[..|rows| - 1];
    var k :| 0 <= k < |init| && TimeCell(At(init[k], 0)) && (e.inicio, e.fin) == RowTimes(Show(At(init[k], 0)), corrected);
    assert init[k] == rows[k];
  }

  lemma TimedByLast(e: Event, rows: seq<Row>, header: Row, place: (string, string), corrected: bool)
    requires rows != [] && e in RowEvents(rows[|rows| - 1], header, place, corrected)
    requires (e.inicio, e.fin) == RowTimes(Show(At(rows[|rows| - 1], 0)), corrected)
    ensures TimedBy(e, rows, corrected)
  {
    assert TimeCell(At(rows[|rows| - 1], 0));
  }

  /** Every event carries the year and division of the first cell, the day
      of the second row above its column, a non-blank subject, and the times
      of the first cell of a data row, cut at every "a" as the program does
      (`corrected` false) or taken from the matched range (`corrected` true);
      there are at most five per data row. */
  lemma ParsedFits(rows: seq<Row>, corrected: bool)
    ensures forall e :: e in Parsed(rows, corrected) ==>
              |rows| > 2 && Fits(e, rows[1], ExtraerAnioYDivision(FirstCell(rows))) && TimedBy(e, rows[2..], corrected)
    ensures |Parsed(rows, corrected)| <= if |rows| > 2 then 5 * (|rows| - 2) else 0
  {
    if |rows| > 2 {
      EventsFit(rows[2..], rows[1], ExtraerAnioYDivision(FirstCell(rows)), corrected);
      EventsBound(rows[2..], rows[1], ExtraerAnioYDivision(FirstCell(rows)), corrected);
    }
  }

  /** With the times read from the matched range, every event has two
      clocks. */
  lemma CorrectedTimesAreClocks(rows: seq<Row>)
    ensures forall e :: e in Parsed(rows, true) ==> IsClock(e.inicio) && IsClock(e.fin)
  {
    ParsedFits(rows, true);
    forall e | e in Parsed(rows, true) ensures IsClock(e.inicio) && IsClock(e.fin) {
      var k :| 0 <= k < |rows[2..]| && TimeCell(At(rows[2..][k], 0)) &&
               (e.inicio, e.fin) == RowTimes(Show(At(rows[2..][k], 0)), true);
      TimesAreClocks(Show(At(rows[2..][k], 0)));
    }
  }

  lemma {:induction false} EventsBound(rows: seq<Row>, header: Row, place: (string, string), corrected: bool)
    ensures |Events(rows, header, place, corrected)| <= 5 * |rows|
  {
    if rows != [] {
      EventsBound(rows[..|rows| - 1], header, place, corrected);
    }
  }

  /** One cell of a time row: its event when the cell is not blank. */
  method ReadCell(row: Row, header: Row, col: nat, times: (string, string), place: (string, string)) returns (ev: Option<Event>)
    requires 1 <= col <= 5
    ensures ev == EventAt(row, header, col, times, place)
  {
    var celda := TrimmedText(At(row, col));
    if celda.Some? && celda.value != "" {
      assert ExcelSchedule.Entry(row, col) == Some(celda.value);
      return Some(Event(celda.value, At(header, col), times.0, times.1, place.0, place.1));
    }
    return None;
  }

  /** The events of one time row, column by column. */
  method ReadTimeRow(row: Row, header: Row, place: (string, string)) returns (evs: seq<Event>)
    requires TimeCell(At(row, 0))
    ensures evs == RowEvents(row, header, place, false)
  {
    var s := Show(At(row, 0));
    RangeHasA(s);
    var times := TimesAsWritten(s);
    ghost var f: nat -> Option<Event> := (col: nat) => EventAt(row, header, col, times, place);
    evs := [];
    for col := 1 to 6
      invariant evs == Gather(col - 1, f)
    {
      var ev := ReadCell(row, header, col, times, place);
      if ev.Some? {
        evs := evs + [ev.value];
      }
    }
  }

  /** The data rows, row by row. */
  method ReadRows(data: seq<Row>, header: Row, place: (string, string)) returns (parsed: seq<Event>)
    ensures parsed == Events(data, header, place, false)
  {
    parsed := [];
    for k := 0 to |data|
      invariant parsed == Events(data[..k], header, place, false)
    {
      var row := data[k];
      assert data[..k + 1][..k] == data[..k];
      if TimeCell(At(row, 0)) {
        var evs := ReadTimeRow(row, header, place);
        parsed := parsed + evs;
      }
    }
    assert data[..|data|] == data;
  }

  /** `parseScheduleXlsx` from the rows on. */
  method ParseScheduleXlsx(rows: seq<Row>) returns (parsed: seq<Event>)
    ensures parsed == Parsed(rows, false)
  {
    var firstCell := FirstCell(rows);
    var place := ExtraerAnioYDivision(firstCell);
    if |rows| <= 2 {
      return [];
    }
    parsed := ReadRows(rows[2..], rows[1], place);
  }
}
