/** The chatbot's read-only query service over the timetable of one career.
    The timetable is fixed when the service is built and no query changes
    it, so the service is a value here. */
module ChatService {
  import opened Wrappers
  import opened Seqs
  import opened Strings
  import ExcelSchedule
  import Sheets

  type Event = ExcelSchedule.Event

  /** What `getScheduleForSubject` lists for each class of the subject. */
  datatype SubjectSlot = SubjectSlot(dia: string, horario: string, profesor: string)
  /** What `getScheduleByTeacher` lists for each class of the teacher. */
  datatype TeacherSlot = TeacherSlot(materia: string, dia: string, horario: string)
  /** What `getScheduleByDay` lists for each class on the day. */
  datatype DaySlot = DaySlot(materia: string, horario: string, profesor: string)

  /** The time range of a class as the chatbot prints it. */
  function Horario(e: Event): string {
    e.inicio + " a " + e.fin
  }

  function SubjectOf(e: Event): string { e.materia }
  function TeacherOf(e: Event): string { e.profesor }
  predicate NonEmpty(s: string) { s != "" }

  function ToSubjectSlot(e: Event): SubjectSlot { SubjectSlot(e.dia, Horario(e), e.profesor) }
  function ToTeacherSlot(e: Event): TeacherSlot { TeacherSlot(e.materia, e.dia, Horario(e)) }
  function ToDaySlot(e: Event): DaySlot { DaySlot(e.materia, Horario(e), e.profesor) }

  /** `Array.from(new Set(values)).filter(Boolean)`. */
  function DistinctNonEmpty(values: seq<string>): (r: seq<string>)
    ensures Distinct(r)
    ensures forall x :: x in r <==> x != "" && x in values
  {
    FilterDistinct(Dedup(values), NonEmpty);
    Filter(Dedup(values), NonEmpty)
  }

  /** Adding one more value: it is listed last if it is new and not empty. */
  lemma DistinctNonEmptySnoc(values: seq<string>, x: string)
    ensures DistinctNonEmpty(values + [x]) ==
      if x == "" || x in values then DistinctNonEmpty(values) else DistinctNonEmpty(values) + [x]
  {
    DedupSnoc(values, x);
    FilterSnoc(Dedup(values), x, NonEmpty);
  }

  lemma ImagesMember(data: seq<Event>, f: Event -> string)
    ensures forall x :: x in Map(data, f) <==> exists e :: e in data && f(e) == x
  {
    forall x
      ensures x in Map(data, f) <==> exists e :: e in data && f(e) == x
    {
      MapMember(data, f, x);
    }
  }

  lemma KeepMapImages<U>(data: seq<Event>, keep: Event -> bool, f: Event -> U)
    ensures forall y :: y in KeepMap(data, keep, f) <==> exists e :: e in data && keep(e) && f(e) == y
  {
    forall y
      ensures y in KeepMap(data, keep, f) <==> exists e :: e in data && keep(e) && f(e) == y
    {
      KeepMapMember(data, keep, f, y);
    }
  }

  // ---------------------------------------------------------------------------
  // How the chatbot prints the slots a query returns, one per line.

  function SubjectLine(h: SubjectSlot): string { h.dia + ": " + h.horario + " (Prof. " + h.profesor + ")" }
  function TeacherLine(h: TeacherSlot): string { h.materia + ": " + h.dia + " " + h.horario }
  function DayLine(h: DaySlot): string { h.materia + ": " + h.horario + " (Prof. " + h.profesor + ")" }

  /** `lines.join('\n')`. */
  function Listing(lines: seq<string>): string {
    Join(lines, "\n")
  }

  /** A class whose texts hold no line break prints on a single line. */
  predicate SingleLine(e: Event) {
    '\n' !in e.materia && '\n' !in e.profesor && '\n' !in e.dia && '\n' !in e.inicio && '\n' !in e.fin
  }

  /** A listing of lines without breaks is split back into the same lines. */
  lemma ListingLines(lines: seq<string>)
    requires lines != []
    requires forall k :: 0 <= k < |lines| ==> '\n' !in lines[k]
    ensures Split(Listing(lines), "\n") == lines
  {
    SplitJoin(lines, '\n');
  }

  /** The weekdays the chatbot offers. */
  const Weekdays: seq<string> := ExcelSchedule.Days

  datatype Service = Service(scheduleData: seq<Event>) {

    /** `getSubjects`: every subject named in the timetable, once, blanks left out. */
    function Subjects(): (r: seq<string>)
      ensures Distinct(r)
      ensures forall x :: x in r <==> x != "" && exists e :: e in scheduleData && e.materia == x
    {
      ImagesMember(scheduleData, SubjectOf);
      DistinctNonEmpty(Map(scheduleData, SubjectOf))
    }

    /** `getTeachers`: every teacher named in the timetable, once, blanks left out. */
    function Teachers(): (r: seq<string>)
      ensures Distinct(r)
      ensures forall x :: x in r <==> x != "" && exists e :: e in scheduleData && e.profesor == x
    {
      ImagesMember(scheduleData, TeacherOf);
      DistinctNonEmpty(Map(scheduleData, TeacherOf))
    }

    /** `getAvailableDays`: Monday to Friday, whatever the timetable holds. */
    function AvailableDays(): (r: seq<string>)
      ensures |r| == 5 && Distinct(r)
      ensures r == ["Lunes", "Martes", "Miércoles", "Jueves", "Viernes"]
    {
      Weekdays
    }

    /** `getScheduleForSubject`: one slot per class of the subject. */
    function ScheduleForSubject(subject: string): (r: seq<SubjectSlot>)
      ensures |r| <= |scheduleData|
      ensures forall x :: x in r <==> exists e :: e in scheduleData && e.materia == subject && ToSubjectSlot(e) == x
    {
      KeepMapImages(scheduleData, (e: Event) => e.materia == subject, ToSubjectSlot);
      KeepMap(scheduleData, (e: Event) => e.materia == subject, ToSubjectSlot)
    }

    /** `getScheduleByTeacher`: one slot per class the teacher gives. */
    function ScheduleByTeacher(teacher: string): (r: seq<TeacherSlot>)
      ensures |r| <= |scheduleData|
      ensures forall x :: x in r <==> exists e :: e in scheduleData && e.profesor == teacher && ToTeacherSlot(e) == x
    {
      KeepMapImages(scheduleData, (e: Event) => e.profesor == teacher, ToTeacherSlot);
      KeepMap(scheduleData, (e: Event) => e.profesor == teacher, ToTeacherSlot)
    }

    /** `getScheduleByDay`: one slot per class on the day. */
    function ScheduleByDay(day: string): (r: seq<DaySlot>)
      ensures |r| <= |scheduleData|
      ensures forall x :: x in r <==> exists e :: e in scheduleData && e.dia == day && ToDaySlot(e) == x
    {
      KeepMapImages(scheduleData, (e: Event) => e.dia == day, ToDaySlot);
      KeepMap(scheduleData, (e: Event) => e.dia == day, ToDaySlot)
    }
  }

  /** Subjects are listed in the order they first appear: a class of a new
      subject adds it at the end, and a class of a known one changes nothing. */
  lemma SubjectsSnoc(data: seq<Event>, e: Event)
    ensures Service(data + [e]).Subjects() ==
      if e.materia == "" || e.materia in Service(data).Subjects() then Service(data).Subjects()
      else Service(data).Subjects() + [e.materia]
  {
    MapAppend(data, [e], SubjectOf);
    assert Map(data + [e], SubjectOf) == Map(data, SubjectOf) + [e.materia];
    ImagesMember(data, SubjectOf);
    DistinctNonEmptySnoc(Map(data, SubjectOf), e.materia);
  }

  /** Teachers are listed in the order they first appear. */
  lemma TeachersSnoc(data: seq<Event>, e: Event)
    ensures Service(data + [e]).Teachers() ==
      if e.profesor == "" || e.profesor in Service(data).Teachers() then Service(data).Teachers()
      else Service(data).Teachers() + [e.profesor]
  {
    MapAppend(data, [e], TeacherOf);
    assert Map(data + [e], TeacherOf) == Map(data, TeacherOf) + [e.profesor];
    ImagesMember(data, TeacherOf);
    DistinctNonEmptySnoc(Map(data, TeacherOf), e.profesor);
  }

  /** The slots of a subject follow the timetable's order: one more class
      adds its slot at the end exactly when it is of that subject. */
  lemma ScheduleForSubjectSnoc(data: seq<Event>, e: Event, subject: string)
    ensures Service(data + [e]).ScheduleForSubject(subject) ==
      Service(data).ScheduleForSubject(subject) + (if e.materia == subject then [ToSubjectSlot(e)] else [])
  {
    KeepMapAppend(data, [e], (e: Event) => e.materia == subject, ToSubjectSlot);
  }

  lemma ScheduleByTeacherSnoc(data: seq<Event>, e: Event, teacher: string)
    ensures Service(data + [e]).ScheduleByTeacher(teacher) ==
      Service(data).ScheduleByTeacher(teacher) + (if e.profesor == teacher then [ToTeacherSlot(e)] else [])
  {
    KeepMapAppend(data, [e], (e: Event) => e.profesor == teacher, ToTeacherSlot);
  }

  lemma ScheduleByDaySnoc(data: seq<Event>, e: Event, day: string)
    ensures Service(data + [e]).ScheduleByDay(day) ==
      Service(data).ScheduleByDay(day) + (if e.dia == day then [ToDaySlot(e)] else [])
  {
    KeepMapAppend(data, [e], (e: Event) => e.dia == day, ToDaySlot);
  }

  /** There are exactly as many slots as classes of the subject. */
  lemma ScheduleForSubjectCount(data: seq<Event>, subject: string)
    ensures |Service(data).ScheduleForSubject(subject)| == |Filter(data, (e: Event) => e.materia == subject)|
  {
    KeepMapCount(data, (e: Event) => e.materia == subject, ToSubjectSlot);
  }

  /** A subject the service offers always has at least one class listed. */
  lemma OfferedSubjectHasClasses(s: Service, subject: string)
    requires subject in s.Subjects()
    ensures s.ScheduleForSubject(subject) != []
  {
    var e :| e in s.scheduleData && e.materia == subject;
    assert ToSubjectSlot(e) in s.ScheduleForSubject(subject);
  }

  /** A teacher the service offers always has at least one class listed. */
  lemma OfferedTeacherHasClasses(s: Service, teacher: string)
    requires teacher in s.Teachers()
    ensures s.ScheduleByTeacher(teacher) != []
  {
    var e :| e in s.scheduleData && e.profesor == teacher;
    assert ToTeacherSlot(e) in s.ScheduleByTeacher(teacher);
  }

  /** On a timetable read from a spreadsheet every class falls on one of the
      offered days, so asking day by day reaches every class. */
  lemma OfferedDaysCoverTimetable(rows: seq<Sheets.Row>, e: Event)
    requires e in ExcelSchedule.Events(rows)
    ensures e.dia in Service(ExcelSchedule.Events(rows)).AvailableDays()
    ensures ToDaySlot(e) in Service(ExcelSchedule.Events(rows)).ScheduleByDay(e.dia)
  {
    ExcelSchedule.EventsWellFormed(rows);
  }

  /** The printed time range is read back by cutting at the first " a " when
      the start time holds no blank. */
  lemma HorarioSplits(e: Event)
    requires ' ' !in e.inicio
    ensures IndexOf(Horario(e), " a ") == Some(|e.inicio|)
    ensures Horario(e)[..|e.inicio|] == e.inicio && Horario(e)[|e.inicio| + 3..] == e.fin
  {
    var h := Horario(e);
    assert OccursAt(h, " a ", |e.inicio|) by {
      assert h[|e.inicio|..|e.inicio| + 3] == " a ";
    }
    forall j: nat | j < |e.inicio|
      ensures !OccursAt(h, " a ", j)
    {
      assert h[j] == e.inicio[j] != ' ';
    }
  }

  /** On a timetable whose texts hold no line break, every printed slot of a
      query is a single line. */
  lemma SlotsSingleLine(s: Service, subject: string, teacher: string, day: string)
    requires forall e :: e in s.scheduleData ==> SingleLine(e)
    ensures forall h :: h in s.ScheduleForSubject(subject) ==> '\n' !in SubjectLine(h)
    ensures forall h :: h in s.ScheduleByTeacher(teacher) ==> '\n' !in TeacherLine(h)
    ensures forall h :: h in s.ScheduleByDay(day) ==> '\n' !in DayLine(h)
  {
  }
}
