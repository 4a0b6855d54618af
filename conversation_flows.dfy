/** The older single-file menu of the timetable chatbot: the three ways to
    ask for timetables and the answer to each query. */
module ConversationFlows {
  import opened Wrappers
  import opened Seqs
  import opened Strings
  import opened ChatTypes
  import opened ChatService

  const AskBySubject := "Consultar horarios de materias"
  const AskByTeacher := "Buscar por profesor"
  const AskByDay := "Ver horarios por día"

  /** The three ways to ask for timetables. */
  const Queries: seq<string> := [AskBySubject, AskByTeacher, AskByDay]

  /** The four options offered after every answer and on a misunderstanding. */
  const MainOptions: seq<string> := Queries + ["Tengo otra consulta"]

  function Last(s: seq<string>): string
    requires s != []
  {
    s[|s| - 1]
  }

  const Footer := "\n\n¿En qué más puedo ayudarte?"

  /** `handleInitialOptions`: each of the three options opens its flow and
      offers the values to choose from; anything else is not understood and
      leaves the context alone. */
  function InitialOptions(option: string, s: Service): (r: Response)
    ensures r.contextUpdate.SetTo? <==> option in Queries
    ensures r.contextUpdate.SetTo? ==> r.contextUpdate.context.kind == Horarios
    ensures r.contextUpdate.SetTo? ==> r.quickReplies.Some? && r.quickReplies.value != [] && Last(r.quickReplies.value) == "Volver"
    ensures r.contextUpdate.NoUpdate? ==> r.quickReplies == Some(MainOptions)
    ensures option == AskBySubject ==> r.contextUpdate == SetTo(Enter(Horarios, Materia)) && r.quickReplies == Some(s.Subjects() + ["Volver"])
    ensures option == AskByTeacher ==> r.contextUpdate == SetTo(Enter(Horarios, Profesor)) && r.quickReplies == Some(s.Teachers() + ["Volver"])
    ensures option == AskByDay ==> r.contextUpdate == SetTo(Enter(Horarios, Dia)) && r.quickReplies == Some(s.AvailableDays() + ["Volver"])
  {
    if option == AskBySubject then
      Response("¿Qué materia deseas consultar?", Some(s.Subjects() + ["Volver"]), SetTo(Enter(Horarios, Materia)))
    else if option == AskByTeacher then
      Response("¿Qué profesor deseas consultar?", Some(s.Teachers() + ["Volver"]), SetTo(Enter(Horarios, Profesor)))
    else if option == AskByDay then
      Response("¿Qué día de la semana deseas consultar?", Some(s.AvailableDays() + ["Volver"]), SetTo(Enter(Horarios, Dia)))
    else
      Response("No entendí tu consulta. ¿Podrías ser más específico?", Some(MainOptions), NoUpdate)
  }

  /** `handleSubjectFlow`: the classes of a subject, one per line, or an
      offer to pick another subject when it has none. */
  function SubjectFlow(subject: string, s: Service): (r: Response)
    ensures r.contextUpdate == Reset
    ensures IsMiss(r) <==> s.ScheduleForSubject(subject) == []
    ensures r.quickReplies == Some(if IsMiss(r) then s.Subjects() + ["Volver"] else MainOptions)
  {
    var horarios := s.ScheduleForSubject(subject);
    if |horarios| == 0 then
      var r := Response(NotFound + " horarios para " + subject + ". ¿Quieres consultar otra materia?", Some(s.Subjects() + ["Volver"]), Reset);
      Missed(r, NotFound);
      r
    else
      var r := Response(SubjectHeading(subject) + Listing(Map(horarios, SubjectLine)) + Footer, Some(MainOptions), Reset);
      OtherOpening(r);
      r
  }

  function SubjectHeading(subject: string): string { "Horarios para " + subject + ":\n" }
  function TeacherHeading(teacher: string): string { "Horarios del profesor " + teacher + ":\n" }
  function DayHeading(day: string): string { "Horarios para el " + day + ":\n" }

  /** `handleTeacherFlow`: the classes a teacher gives, or an offer to pick
      another teacher. */
  function TeacherFlow(teacher: string, s: Service): (r: Response)
    ensures r.contextUpdate == Reset
    ensures IsMiss(r) <==> s.ScheduleByTeacher(teacher) == []
    ensures r.quickReplies == Some(if IsMiss(r) then s.Teachers() + ["Volver"] else MainOptions)
  {
    var horarios := s.ScheduleByTeacher(teacher);
    if |horarios| == 0 then
      var r := Response(NotFound + " horarios para el profesor " + teacher + ". ¿Quieres consultar otro profesor?", Some(s.Teachers() + ["Volver"]), Reset);
      Missed(r, NotFound);
      r
    else
      var r := Response(TeacherHeading(teacher) + Listing(Map(horarios, TeacherLine)) + Footer, Some(MainOptions), Reset);
      OtherOpening(r);
      r
  }

  /** `handleDayFlow`: the classes on a day, or an offer to pick another day. */
  function DayFlow(day: string, s: Service): (r: Response)
    ensures r.contextUpdate == Reset
    ensures IsMiss(r) <==> s.ScheduleByDay(day) == []
    ensures r.quickReplies == Some(if IsMiss(r) then s.AvailableDays() + ["Volver"] else MainOptions)
  {
    var horarios := s.ScheduleByDay(day);
    if |horarios| == 0 then
      var r := Response(NotFound + " horarios para el día " + day + ". ¿Quieres consultar otro día?", Some(s.AvailableDays() + ["Volver"]), Reset);
      Missed(r, NotFound);
      r
    else
      var r := Response(DayHeading(day) + Listing(Map(horarios, DayLine)) + Footer, Some(MainOptions), Reset);
      OtherOpening(r);
      r
  }

  /** The options offered on a misunderstanding are understood, except
      "Tengo otra consulta", which nothing here handles. */
  lemma MainOptionsUnderstood(s: Service, option: string)
    requires option in MainOptions
    ensures InitialOptions(option, s).contextUpdate.SetTo? <==> option != "Tengo otra consulta"
  {
  }

  /** Every subject offered when asking by subject has classes to show. */
  lemma OfferedSubjectListed(s: Service, subject: string)
    requires subject in InitialOptions(AskBySubject, s).quickReplies.value && subject != "Volver"
    ensures !IsMiss(SubjectFlow(subject, s))
  {
    OfferedSubjectHasClasses(s, subject);
  }

  /** Every teacher offered when asking by teacher has classes to show. */
  lemma OfferedTeacherListed(s: Service, teacher: string)
    requires teacher in InitialOptions(AskByTeacher, s).quickReplies.value && teacher != "Volver"
    ensures !IsMiss(TeacherFlow(teacher, s))
  {
    OfferedTeacherHasClasses(s, teacher);
  }

  /** An answer about a subject holds one line per class of the subject, in
      timetable order, between the heading and the closing question. */
  lemma SubjectFlowLines(subject: string, s: Service)
    requires s.ScheduleForSubject(subject) != []
    requires forall e :: e in s.scheduleData ==> SingleLine(e)
    ensures var t := SubjectFlow(subject, s).text;
      StartsWith(t, SubjectHeading(subject)) && EndsWith(t, Footer)
      && Split(t[|SubjectHeading(subject)|..|t| - |Footer|], "\n") == Map(s.ScheduleForSubject(subject), SubjectLine)
  {
    var lines := Map(s.ScheduleForSubject(subject), SubjectLine);
    var t := SubjectFlow(subject, s).text;
    var head := SubjectHeading(subject);
    assert t == head + Listing(lines) + Footer;
    assert t[|head|..|t| - |Footer|] == Listing(lines);
    SlotsSingleLine(s, subject, "", "");
    ListingLines(lines);
  }

  /** An answer about a teacher holds one line per class the teacher gives. */
  lemma TeacherFlowLines(teacher: string, s: Service)
    requires s.ScheduleByTeacher(teacher) != []
    requires forall e :: e in s.scheduleData ==> SingleLine(e)
    ensures var t := TeacherFlow(teacher, s).text;
      StartsWith(t, TeacherHeading(teacher)) && EndsWith(t, Footer)
      && Split(t[|TeacherHeading(teacher)|..|t| - |Footer|], "\n") == Map(s.ScheduleByTeacher(teacher), TeacherLine)
  {
    var lines := Map(s.ScheduleByTeacher(teacher), TeacherLine);
    var t := TeacherFlow(teacher, s).text;
    var head := TeacherHeading(teacher);
    assert t == head + Listing(lines) + Footer;
    assert t[|head|..|t| - |Footer|] == Listing(lines);
    SlotsSingleLine(s, "", teacher, "");
    ListingLines(lines);
  }

  /** An answer about a day holds one line per class on that day. */
  lemma DayFlowLines(day: string, s: Service)
    requires s.ScheduleByDay(day) != []
    requires forall e :: e in s.scheduleData ==> SingleLine(e)
    ensures var t := DayFlow(day, s).text;
      StartsWith(t, DayHeading(day)) && EndsWith(t, Footer)
      && Split(t[|DayHeading(day)|..|t| - |Footer|], "\n") == Map(s.ScheduleByDay(day), DayLine)
  {
    var lines := Map(s.ScheduleByDay(day), DayLine);
    var t := DayFlow(day, s).text;
    var head := DayHeading(day);
    assert t == head + Listing(lines) + Footer;
    assert t[|head|..|t| - |Footer|] == Listing(lines);
    SlotsSingleLine(s, "", "", day);
    ListingLines(lines);
  }
}
