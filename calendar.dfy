/** The weekly calendar that draws a timetable: the colour each subject is
    painted in, the first hour shown, clock times read as minutes, the hour
    rows down the side and the day column an event is placed in. Pixel
    positions and heights are left to the page. */
module Calendar {
  import opened Wrappers
  import opened Seqs
  import opened Strings
  import opened Sheets
  import opened Clock
  import ExcelSchedule
  import RedesSchedule

  /** The events the calendar is handed. */
  type Event = RedesSchedule.Event

  // ---------------------------------------------------------------------------
  // Colours

  /** The palette holds ten pairwise different colour classes; a colour is
      its position in the palette. */
  const PaletteSize: nat := 10

  /** The colour the subject first seen in position `k` (from 0) receives:
      its own palette entry while the palette lasts, the first one after. */
  function PaletteColour(k: nat): (c: nat)
    ensures c < PaletteSize
  {
    if k < PaletteSize then k else 0
  }

  function Subject(e: Event): string {
    e.materia
  }

  /** The subjects of the events, each once, in order of first appearance. */
  function Subjects(events: seq<Event>): (r: seq<string>)
    ensures Distinct(r)
    ensures forall x :: x in r <==> exists e :: e in events && e.materia == x
  {
    SubjectsMember(events);
    Dedup(Map(events, Subject))
  }

  lemma SubjectsMember(events: seq<Event>)
    ensures forall x :: x in Map(events, Subject) <==> exists e :: e in events && e.materia == x
  {
    forall x
      ensures x in Map(events, Subject) <==> exists e :: e in events && e.materia == x
    {
      MapMember(events, Subject, x);
    }
  }

  /** `indexOf`: the first position holding `x`. */
  function Rank(s: seq<string>, x: string): (k: nat)
    requires x in s
    ensures k < |s| && s[k] == x
    ensures forall j :: 0 <= j < k ==> s[j] != x
  {
    if s[0] == x then 0 else 1 + Rank(s[1..], x)
  }

  /** The colours handed out once `n` subjects have one: the first
      `min(n, 10)` palette entries. */
  function Used(n: nat): set<nat> {
    if n == 0 then {} else Used(n - 1) + {PaletteColour(n - 1)}
  }

  lemma {:induction false} UsedMember(n: nat, c: nat)
    ensures c in Used(n) <==> c < n && c < PaletteSize
  {
    if n > 0 {
      UsedMember(n - 1, c);
      if n > PaletteSize {
        UsedMember(n - 1, 0);
      }
    }
  }

  /** `availableColors.find(color => !usedColors.has(color))`, searching
      from palette position `from`. */
  function FirstFree(used: set<nat>, from: nat): (r: Option<nat>)
    requires from <= PaletteSize
    ensures r.Some? ==> from <= r.value < PaletteSize && r.value !in used
    ensures r.Some? ==> forall c :: from <= c < r.value ==> c in used
    ensures r.None? ==> forall c :: from <= c < PaletteSize ==> c in used
    decreases PaletteSize - from
  {
    if from == PaletteSize then None
    else if from !in used then Some(from)
    else FirstFree(used, from + 1)
  }

  /** The colour a subject is painted in: the colour map's entry, or the
      first palette colour for a subject the map does not hold. */
  function ColourOf(events: seq<Event>, materia: string): (c: nat)
    ensures c < PaletteSize
  {
    var subjects := Subjects(events);
    if materia in subjects then PaletteColour(Rank(subjects, materia)) else 0
  }

  /** With `n` subjects coloured, the search finds position `n` while the
      palette lasts and nothing after. */
  lemma FirstFreeUsed(n: nat)
    ensures FirstFree(Used(n), 0) == if n < PaletteSize then Some(n) else None
  {
    var used := Used(n);
    var r := FirstFree(used, 0);
    forall c | 0 <= c < PaletteSize
      ensures c in used <==> c < n
    {
      UsedMember(n, c);
    }
    if n < PaletteSize {
      assert n !in used;
      assert r.Some?;
      assert r.value == n;
    } else {
      assert r.None?;
    }
  }

  /** The colour the search picks for the next subject, and the used
      colours once it is taken. */
  lemma PickColour(n: nat)
    ensures var c := match FirstFree(Used(n), 0) case Some(v) => v case None => 0;
      c == PaletteColour(n) && Used(n) + {c} == Used(n + 1)
  {
    FirstFreeUsed(n);
  }

  /** One more event lists its subject last, unless it was already listed. */
  lemma SubjectsSnoc(events: seq<Event>, e: Event)
    ensures Subjects(events + [e]) ==
      if e.materia in Subjects(events) then Subjects(events) else Subjects(events) + [e.materia]
  {
    MapAppend(events, [e], Subject);
    assert Map([e], Subject) == [e.materia];
    DedupSnoc(Map(events, Subject), e.materia);
  }

  lemma SubjectsStep(events: seq<Event>, i: nat)
    requires i < |events|
    ensures Subjects(events[..i + 1]) ==
      if events[i].materia in Subjects(events[..i]) then Subjects(events[..i])
      else Subjects(events[..i]) + [events[i].materia]
  {
    assert events[..i + 1] == events[..i] + [events[i]];
    SubjectsSnoc(events[..i], events[i]);
  }

  /** The colour map holds exactly the listed subjects, each with the
      colour its position earns. */
  predicate Coloured(colours: map<string, nat>, subjects: seq<string>) {
    colours.Keys == Elems(subjects)
    && forall k :: 0 <= k < |subjects| ==> colours[subjects[k]] == PaletteColour(k)
  }

  lemma ColouredExtend(colours: map<string, nat>, subjects: seq<string>, x: string)
    requires Coloured(colours, subjects) && x !in subjects
    ensures Coloured(colours[x := PaletteColour(|subjects|)], subjects + [x])
  {
    var next := subjects + [x];
    forall k | 0 <= k < |next|
      ensures colours[x := PaletteColour(|subjects|)][next[k]] == PaletteColour(k)
    {
      if k < |subjects| {
        assert next[k] == subjects[k] != x;
      }
    }
  }

  /** The colour map built over the events (`useColorAssignment`): each
      event's subject not yet in the map receives the first colour not yet
      used, or the first palette colour once all ten are used. */
  method AssignColours(events: seq<Event>) returns (colours: map<string, nat>)
    ensures forall x :: x in colours <==> exists e :: e in events && e.materia == x
    ensures forall x :: x in colours ==> colours[x] == ColourOf(events, x)
  {
    colours := map[];
    var used: set<nat> := {};
    ghost var subjects: seq<string> := [];
    for i := 0 to |events|
      invariant subjects == Subjects(events[..i])
      invariant Coloured(colours, subjects)
      invariant used == Used(|subjects|)
    {
      var x := events[i].materia;
      SubjectsStep(events, i);
      if x !in colours {
        ghost var n := |subjects|;
        var free := FirstFree(used, 0);
        var c: nat := if free.Some? then free.value else 0;
        PickColour(n);
        ColouredExtend(colours, subjects, x);
        colours := colours[x := c];
        used := used + {c};
        subjects := subjects + [x];
        assert |subjects| == n + 1;
      }
    }
    assert events[..|events|] == events;
    ColouredMeans(colours, events);
  }

  lemma ColouredMeans(colours: map<string, nat>, events: seq<Event>)
    requires Coloured(colours, Subjects(events))
    ensures forall x :: x in colours <==> exists e :: e in events && e.materia == x
    ensures forall x :: x in colours ==> colours[x] == ColourOf(events, x)
  {
    var subjects := Subjects(events);
    forall x | x in colours
      ensures colours[x] == ColourOf(events, x)
    {
      var k := Rank(subjects, x);
    }
  }

  /** A subject keeps its colour whatever events come after it: the
      colour a subject is painted in is the one given at its first event. */
  lemma ColourStable(events: seq<Event>, more: seq<Event>, materia: string)
    requires exists e :: e in events && e.materia == materia
    ensures ColourOf(events + more, materia) == ColourOf(events, materia)
  {
    var p := Subjects(events);
    var s := Subjects(events + more);
    MapAppend(events, more, Subject);
    DedupPrefix(Map(events, Subject), Map(more, Subject));
    RankPrefix(p, s, materia);
  }

  lemma {:induction false} RankPrefix(p: seq<string>, s: seq<string>, x: string)
    requires x in p && |p| <= |s| && s[..|p|] == p
    ensures x in s && Rank(s, x) == Rank(p, x)
  {
    assert s[0] == p[0];
    if p[0] != x {
      assert s[1..][..|p| - 1] == p[1..];
      RankPrefix(p[1..], s[1..], x);
    }
  }

  /** The colours the subjects of `events` are painted in. */
  function UsedBy(events: seq<Event>): set<nat> {
    set x | x in Subjects(events) :: ColourOf(events, x)
  }

  /** A new subject receives the first colour none of the earlier subjects
      uses, or the first palette colour when all ten are in use. */
  lemma NewSubjectColour(events: seq<Event>, e: Event)
    requires forall d :: d in events ==> d.materia != e.materia
    ensures ColourOf(events + [e], e.materia) ==
      match FirstFree(UsedBy(events), 0) case Some(c) => c case None => 0
  {
    var subjects := Subjects(events);
    UsedByIs(events);
    PickColour(|subjects|);
    SubjectsSnoc(events, e);
    RankLast(subjects, e.materia);
  }

  lemma RankLast(s: seq<string>, x: string)
    requires x !in s
    ensures Rank(s + [x], x) == |s|
  {
    assert forall j :: 0 <= j < |s| ==> (s + [x])[j] != x;
  }

  lemma UsedByIs(events: seq<Event>)
    ensures UsedBy(events) == Used(|Subjects(events)|)
  {
    var subjects := Subjects(events);
    var n := |subjects|;
    forall c | c in UsedBy(events)
      ensures c in Used(n)
    {
      var x :| x in subjects && ColourOf(events, x) == c;
      UsedMember(n, c);
    }
    forall c: nat | c in Used(n)
      ensures c in UsedBy(events)
    {
      UsedMember(n, c);
      var x := subjects[c];
      assert Rank(subjects, x) == c;
      assert ColourOf(events, x) == c;
    }
  }

  /** While there are at most ten subjects, no two share a colour. */
  lemma ColoursDistinct(events: seq<Event>, x: string, y: string)
    requires |Subjects(events)| <= PaletteSize
    requires x in Subjects(events) && y in Subjects(events) && x != y
    ensures ColourOf(events, x) != ColourOf(events, y)
  {
  }

  // ---------------------------------------------------------------------------
  // Hours and minutes

  /** `Math.min` on two numbers: NaN if either is NaN. */
  function JsMin(a: JsNumber, b: JsNumber): (r: JsNumber) {
    if a.NaN? || b.NaN? then NaN else Num(if a.value <= b.value then a.value else b.value)
  }

  /** `Math.min(...xs)` on a non-empty list. */
  function MinOf(xs: seq<JsNumber>): JsNumber
    requires xs != []
  {
    if |xs| == 1 then xs[0] else JsMin(MinOf(xs[..|xs| - 1]), xs[|xs| - 1])
  }

  /** `Number(event.inicio.split(":")[0])`: the hour an event starts at. */
  function StartOf(e: Event): JsNumber {
    ToNumber(Split(e.inicio, ":")[0])
  }

  /** `calculateStartHour`: 8 with no events, otherwise one hour before the
      earliest start but never below 0 (NaN stays NaN). */
  function CalculateStartHour(events: seq<Event>): JsNumber {
    if events == [] then Num(8)
    else match MinOf(Map(events, StartOf))
      case NaN => NaN
      case Num(h) => Num(HourBefore(h))
  }

  /** `propStartHour ?? calculateStartHour(events)`: a given start hour,
      0 included, wins. */
  function StartHour(propStartHour: Option<int>, events: seq<Event>): JsNumber {
    if propStartHour.Some? then Num(propStartHour.value) else CalculateStartHour(events)
  }

  function HourBefore(h: int): int {
    if h - 1 > 0 then h - 1 else 0
  }

  /** Two digits read as a number. */
  lemma TwoDigitsNumber(d: string)
    requires |d| == 2 && IsDigit(d[0]) && IsDigit(d[1])
    ensures ToNumber(d) == Num(Digit(d[0]) * 10 + Digit(d[1]))
  {
    TwoDigitsValue(d);
    DigitsNumber(d);
  }

  lemma TwoDigitsValue(d: string)
    requires |d| == 2 && IsDigit(d[0]) && IsDigit(d[1])
    ensures AllDigits(d) && DigitsValue(d) == Digit(d[0]) * 10 + Digit(d[1])
  {
    var p := d[..1];
    assert p[..0] == [];
    assert DigitsValue(p) == Digit(d[0]);
  }

  /** An "HH:MM" time splits at its colon into two two-digit numbers. */
  lemma HourMinuteParts(t: string)
    requires IsHourMinute(t)
    ensures Split(t, ":") == [t[..2], t[3..]]
    ensures ToNumber(t[..2]) == Num(HourValue(t)) && ToNumber(t[3..]) == Num(MinuteValue(t))
  {
    HourMinuteSplit(t);
    HourNumber(t);
    MinuteNumber(t);
  }

  lemma HourMinuteSplit(t: string)
    requires IsHourMinute(t)
    ensures Split(t, ":") == [t[..2], t[3..]]
  {
    var parts := [t[..2], t[3..]];
    assert ':' !in parts[0] && ':' !in parts[1];
    assert t == Join(parts, ":");
    SplitJoin(parts, ':');
  }

  lemma HourNumber(t: string)
    requires IsHourMinute(t)
    ensures ToNumber(t[..2]) == Num(HourValue(t))
  {
    TwoDigitsNumber(t[..2]);
  }

  lemma MinuteNumber(t: string)
    requires IsHourMinute(t)
    ensures ToNumber(t[3..]) == Num(MinuteValue(t))
  {
    TwoDigitsNumber(t[3..]);
  }

  /** The minimum of numbers is one of them and no larger than any. */
  lemma {:induction false} MinOfNumbers(xs: seq<JsNumber>)
    requires xs != [] && forall i :: 0 <= i < |xs| ==> xs[i].Num?
    ensures MinOf(xs).Num?
    ensures forall i :: 0 <= i < |xs| ==> MinOf(xs).value <= xs[i].value
    ensures exists i :: 0 <= i < |xs| && MinOf(xs).value == xs[i].value
  {
    if |xs| > 1 {
      var init := xs[..|xs| - 1];
      MinOfNumbers(init);
      var m := MinOf(init).value;
      assert forall i :: 0 <= i < |init| ==> init[i] == xs[i];
      if m <= xs[|xs| - 1].value {
        var i :| 0 <= i < |init| && m == init[i].value;
        assert xs[i] == init[i];
      }
    }
  }

  /** The hour an "HH:MM" start reads. */
  function ClockHour(e: Event): nat
    requires IsHourMinute(e.inicio)
  {
    HourValue(e.inicio)
  }

  lemma StartOfClock(e: Event)
    requires IsHourMinute(e.inicio)
    ensures StartOf(e) == Num(ClockHour(e))
  {
    HourMinuteSplit(e.inicio);
    HourNumber(e.inicio);
  }

  /** The start hour the calendar computes: 8 for no events, otherwise one
      hour before the earliest start hour, not below 0; a start hour handed
      in overrides it. */
  lemma StartHourOfClocks(propStartHour: Option<int>, events: seq<Event>)
    requires forall e :: e in events ==> IsHourMinute(e.inicio)
    ensures StartHour(propStartHour, events).Num?
    ensures propStartHour.Some? ==> StartHour(propStartHour, events).value == propStartHour.value
    ensures propStartHour.None? && events == [] ==> StartHour(propStartHour, events).value == 8
    ensures propStartHour.None? && events != [] ==>
      var h := StartHour(propStartHour, events).value;
      h >= 0
      && (forall e :: e in events ==> h <= HourBefore(ClockHour(e)))
      && (exists e :: e in events && h == HourBefore(ClockHour(e)))
  {
    if propStartHour.None? && events != [] {
      var xs := Map(events, StartOf);
      forall i | 0 <= i < |xs|
        ensures xs[i] == Num(ClockHour(events[i]))
      {
        StartOfClock(events[i]);
      }
      MinOfNumbers(xs);
      var h := StartHour(propStartHour, events).value;
      forall e | e in events
        ensures h <= HourBefore(ClockHour(e))
      {
        var i :| 0 <= i < |events| && events[i] == e;
        assert xs[i] == Num(ClockHour(e));
      }
      var i :| 0 <= i < |xs| && MinOf(xs).value == xs[i].value;
      assert events[i] in events;
    }
  }

  /** `Number` arithmetic `hh * 60 + mm`: NaN as soon as either is NaN. */
  function JsMinutes(hh: JsNumber, mm: JsNumber): JsNumber {
    if hh.NaN? || mm.NaN? then NaN else Num(hh.value * 60 + mm.value)
  }

  /** `timeToMinutes`: the text before the first colon read as hours, the
      text after it up to the next colon as minutes; without a colon the
      minutes are `undefined` and the sum is NaN. */
  function Minutes(t: string): JsNumber {
    var parts := Split(t, ":");
    if |parts| < 2 then NaN else JsMinutes(ToNumber(parts[0]), ToNumber(parts[1]))
  }

  /** An "HH:MM" time is HH hours and MM minutes after midnight. */
  lemma MinutesOfClock(t: string)
    requires IsHourMinute(t)
    ensures Minutes(t) == Num(HourValue(t) * 60 + MinuteValue(t))
  {
    HourMinuteParts(t);
  }

  /** The label of an hour row, `${hour.toString().padStart(2, '0')}:00`. */
  function HourLabel(h: nat): string {
    PadStart2(NatToString(h)) + ":00"
  }

  /** An hour row's label, for the hours a day has, is read back as that
      hour on the hour. */
  lemma HourLabelMinutes(h: nat)
    requires h < 24
    ensures IsHourMinute(HourLabel(h)) && HourValue(HourLabel(h)) == h && MinuteValue(HourLabel(h)) == 0
    ensures Minutes(HourLabel(h)) == Num(h * 60)
  {
    var l := HourLabel(h);
    if h < 10 {
      assert NatToString(h) == [DigitChar(h)];
      assert l == ['0', DigitChar(h), ':', '0', '0'];
    } else {
      assert NatToString(h / 10) == [DigitChar(h / 10)];
      assert NatToString(h) == [DigitChar(h / 10), DigitChar(h % 10)];
      assert l == [DigitChar(h / 10), DigitChar(h % 10), ':', '0', '0'];
    }
    MinutesOfClock(l);
  }

  /** `Array.from({ length: endHour - startHour + 1 }, (_, i) => startHour + i)`:
      a length below zero or NaN gives no rows. */
  function Hours(startHour: JsNumber, endHour: int): seq<int> {
    if startHour.NaN? || endHour < startHour.value then []
    else seq(endHour - startHour.value + 1, i => startHour.value + i)
  }

  /** The hour rows are the whole hours from the start hour to the end hour,
      both included, in increasing order; none when the start is NaN. */
  lemma HoursSpan(startHour: JsNumber, endHour: int)
    ensures startHour.NaN? ==> Hours(startHour, endHour) == []
    ensures startHour.Num? ==> forall h :: h in Hours(startHour, endHour) <==> startHour.value <= h <= endHour
    ensures forall i :: 0 < i < |Hours(startHour, endHour)| ==>
      Hours(startHour, endHour)[i] == Hours(startHour, endHour)[i - 1] + 1
  {
    var r := Hours(startHour, endHour);
    if startHour.Num? {
      forall h | startHour.value <= h <= endHour
        ensures h in r
      {
        assert r[h - startHour.value] == h;
      }
    }
  }

  // ---------------------------------------------------------------------------
  // Day columns

  /** `days.indexOf(event.dia) + 1`: the grid column of an event, 0 for a
      day that is not one of Lunes to Viernes. */
  function Column(dia: Cell): (c: int)
    ensures 0 <= c <= |ExcelSchedule.Days|
    ensures c == 0 <==> !(dia.Text? && dia.s in ExcelSchedule.Days)
    ensures c > 0 ==> dia == Text(ExcelSchedule.Days[c - 1])
  {
    if dia.Text? && dia.s in ExcelSchedule.Days then Rank(ExcelSchedule.Days, dia.s) + 1 else 0
  }

  /** Each weekday is drawn in its own column, Lunes first. */
  lemma ColumnOfDay(k: nat)
    requires k < |ExcelSchedule.Days|
    ensures Column(Text(ExcelSchedule.Days[k])) == k + 1
  {
    var days := ExcelSchedule.Days;
    assert Distinct(days);
    assert Rank(days, days[k]) == k;
  }
}
