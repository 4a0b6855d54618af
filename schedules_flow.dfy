/** The timetable branch of the chatbot: choose how to search (by subject,
    teacher or day), pick a value, read the classes found. */
module SchedulesFlow {
  import opened Wrappers
  import opened Seqs
  import opened Strings
  import opened ChatTypes
  import opened ChatService

  const Kind := Horarios

  /** The contexts this branch may leave behind: a timetable context with no
      flow or one of the three search flows. */
  predicate ScheduleContext(c: Context) {
    c.kind == Kind && (c.flow.None? || c.flow.value in {Materia, Profesor, Dia})
  }

  /** `handleInitialSelection`: the three ways to search, in a timetable
      context without a flow. */
  function InitialSelection(s: Service): (r: Response)
    ensures r.contextUpdate == SetTo(Context(Kind, None, None))
    ensures r.quickReplies == Some(["Por materia", "Por profesor", "Por día", "Volver"])
    ensures !IsMiss(r)
  {
    var r := Response("¿Cómo deseas consultar los horarios?", Some(["Por materia", "Por profesor", "Por día", "Volver"]),
             SetTo(Context(Kind, None, None)));
    OtherOpening(r);
    r
  }

  /** `handleMateriaSelection`: every subject, then "Volver". */
  function MateriaSelection(s: Service): (r: Response)
    ensures r.contextUpdate == SetTo(Enter(Kind, Materia))
    ensures r.quickReplies.Some? && forall x :: x in r.quickReplies.value <==> x in s.Subjects() || x == "Volver"
    ensures r.quickReplies == Some(s.Subjects() + ["Volver"])
    ensures !IsMiss(r)
  {
    var r := Response("Selecciona una materia:", Some(s.Subjects() + ["Volver"]), SetTo(Enter(Kind, Materia)));
    OtherOpening(r);
    r
  }

  /** `handleProfesorSelection`: every teacher, then "Volver". */
  function ProfesorSelection(s: Service): (r: Response)
    ensures r.contextUpdate == SetTo(Enter(Kind, Profesor))
    ensures r.quickReplies.Some? && forall x :: x in r.quickReplies.value <==> x in s.Teachers() || x == "Volver"
    ensures r.quickReplies == Some(s.Teachers() + ["Volver"])
    ensures !IsMiss(r)
  {
    var r := Response("Selecciona un profesor:", Some(s.Teachers() + ["Volver"]), SetTo(Enter(Kind, Profesor)));
    OtherOpening(r);
    r
  }

  /** `handleDiaSelection`: the five weekdays, then "Volver". */
  function DiaSelection(s: Service): (r: Response)
    ensures r.contextUpdate == SetTo(Enter(Kind, Dia))
    ensures r.quickReplies.Some? && forall x :: x in r.quickReplies.value <==> x in s.AvailableDays() || x == "Volver"
    ensures r.quickReplies == Some(["Lunes", "Martes", "Miércoles", "Jueves", "Viernes", "Volver"])
    ensures !IsMiss(r)
  {
    assert s.AvailableDays() + ["Volver"] == ["Lunes", "Martes", "Miércoles", "Jueves", "Viernes", "Volver"];
    var r := Response("Selecciona un día:", Some(s.AvailableDays() + ["Volver"]), SetTo(Enter(Kind, Dia)));
    OtherOpening(r);
    r
  }

  function MateriaHeading(subject: string): string { "📚 Horarios para " + subject + ":\n\n" }
  function ProfesorHeading(teacher: string): string { "👨‍🏫 Horarios del profesor " + teacher + ":\n\n" }
  function DiaHeading(day: string): string { "📅 Horarios para el " + day + ":\n\n" }

  /** `handleMateriaFlow`: the classes of the subject, or, when there are
      none, a miss that keeps the flow and remembers the subject. */
  function MateriaFlow(subject: string, s: Service): (r: Response)
    ensures IsMiss(r) <==> s.ScheduleForSubject(subject) == []
    ensures IsMiss(r) ==> r.contextUpdate == SetTo(Remember(Kind, Materia, "materia", subject)) &&
                          r.quickReplies == Some(["Consultar otra materia", "Volver"])
    ensures !IsMiss(r) ==> r.contextUpdate == Reset &&
                           r.quickReplies == Some(["Consultar otra materia", "Ver por profesor", "Ver por día", "Menú principal"])
  {
    var horarios := s.ScheduleForSubject(subject);
    if |horarios| == 0 then
      var r := Response(NotFound + " horarios para " + subject, Some(["Consultar otra materia", "Volver"]),
               SetTo(Remember(Kind, Materia, "materia", subject)));
      Missed(r, NotFound);
      r
    else
      var r := Response(MateriaHeading(subject) + Listing(Map(horarios, SubjectLine)),
                        Some(["Consultar otra materia", "Ver por profesor", "Ver por día", "Menú principal"]), Reset);
      OtherOpening(r);
      r
  }

  /** `handleProfesorFlow`: the classes the teacher gives, or a miss that
      keeps the flow and remembers the teacher. */
  function ProfesorFlow(teacher: string, s: Service): (r: Response)
    ensures IsMiss(r) <==> s.ScheduleByTeacher(teacher) == []
    ensures IsMiss(r) ==> r.contextUpdate == SetTo(Remember(Kind, Profesor, "profesor", teacher)) &&
                          r.quickReplies == Some(["Consultar otro profesor", "Volver"])
    ensures !IsMiss(r) ==> r.contextUpdate == Reset &&
                           r.quickReplies == Some(["Consultar otro profesor", "Ver por materia", "Ver por día", "Menú principal"])
  {
    var horarios := s.ScheduleByTeacher(teacher);
    if |horarios| == 0 then
      var r := Response(NotFound + " horarios para el profesor " + teacher, Some(["Consultar otro profesor", "Volver"]),
               SetTo(Remember(Kind, Profesor, "profesor", teacher)));
      Missed(r, NotFound);
      r
    else
      var r := Response(ProfesorHeading(teacher) + Listing(Map(horarios, TeacherLine)),
                        Some(["Consultar otro profesor", "Ver por materia", "Ver por día", "Menú principal"]), Reset);
      OtherOpening(r);
      r
  }

  /** `handleDiaFlow`: the classes on the day, or a miss that keeps the flow
      and remembers the day. */
  function DiaFlow(day: string, s: Service): (r: Response)
    ensures IsMiss(r) <==> s.ScheduleByDay(day) == []
    ensures IsMiss(r) ==> r.contextUpdate == SetTo(Remember(Kind, Dia, "dia", day)) &&
                          r.quickReplies == Some(["Consultar otro día", "Volver"])
    ensures !IsMiss(r) ==> r.contextUpdate == Reset &&
                           r.quickReplies == Some(["Consultar otro día", "Ver por materia", "Ver por profesor", "Menú principal"])
  {
    var horarios := s.ScheduleByDay(day);
    if |horarios| == 0 then
      var r := Response(NotFound + " horarios para el día " + day, Some(["Consultar otro día", "Volver"]),
               SetTo(Remember(Kind, Dia, "dia", day)));
      Missed(r, NotFound);
      r
    else
      var r := Response(DiaHeading(day) + Listing(Map(horarios, DayLine)),
                        Some(["Consultar otro día", "Ver por materia", "Ver por profesor", "Menú principal"]), Reset);
      OtherOpening(r);
      r
  }

  /** The phrases a flow reads as navigation rather than as a value to look up. */
  function Navigation(flow: Option<Flow>): seq<string> {
    ["Volver", "Menú principal"] +
    if flow == Some(Materia) then ["Consultar otra materia", "Ver por profesor", "Ver por día"]
    else if flow == Some(Profesor) then ["Consultar otro profesor", "Ver por materia", "Ver por día"]
    else if flow == Some(Dia) then ["Consultar otro día", "Ver por materia", "Ver por profesor"]
    else ["Por materia", "Por profesor", "Por día"]
  }

  /** The replies the branch may give: a buttons list, and either a reset
      or a timetable context. */
  predicate InBranch(r: Response) {
    r.quickReplies.Some? && (r.contextUpdate.Reset? || (r.contextUpdate.SetTo? && ScheduleContext(r.contextUpdate.context)))
  }

  /** Inside the subject flow. */
  function MateriaStep(text: string, s: Service): (r: Response)
    ensures InBranch(r)
    ensures text == "Consultar otra materia" ==> r == MateriaSelection(s)
    ensures text == "Ver por profesor" ==> r == ProfesorSelection(s)
    ensures text == "Ver por día" ==> r == DiaSelection(s)
    ensures text !in Navigation(Some(Materia)) ==> r == MateriaFlow(text, s)
  {
    if text == "Consultar otra materia" then MateriaSelection(s)
    else if text == "Ver por profesor" then ProfesorSelection(s)
    else if text == "Ver por día" then DiaSelection(s)
    else MateriaFlow(text, s)
  }

  /** Inside the teacher flow. */
  function ProfesorStep(text: string, s: Service): (r: Response)
    ensures InBranch(r)
    ensures text == "Consultar otro profesor" ==> r == ProfesorSelection(s)
    ensures text == "Ver por materia" ==> r == MateriaSelection(s)
    ensures text == "Ver por día" ==> r == DiaSelection(s)
    ensures text !in Navigation(Some(Profesor)) ==> r == ProfesorFlow(text, s)
  {
    if text == "Consultar otro profesor" then ProfesorSelection(s)
    else if text == "Ver por materia" then MateriaSelection(s)
    else if text == "Ver por día" then DiaSelection(s)
    else ProfesorFlow(text, s)
  }

  /** Inside the day flow. */
  function DiaStep(text: string, s: Service): (r: Response)
    ensures InBranch(r)
    ensures text == "Consultar otro día" ==> r == DiaSelection(s)
    ensures text == "Ver por materia" ==> r == MateriaSelection(s)
    ensures text == "Ver por profesor" ==> r == ProfesorSelection(s)
    ensures text !in Navigation(Some(Dia)) ==> r == DiaFlow(text, s)
  {
    if text == "Consultar otro día" then DiaSelection(s)
    else if text == "Ver por materia" then MateriaSelection(s)
    else if text == "Ver por profesor" then ProfesorSelection(s)
    else DiaFlow(text, s)
  }

  /** With no flow: the three ways to search, or "not recognised". */
  function MenuStep(text: string, s: Service): (r: Response)
    ensures InBranch(r)
    ensures text == "Por materia" ==> r == MateriaSelection(s)
    ensures text == "Por profesor" ==> r == ProfesorSelection(s)
    ensures text == "Por día" ==> r == DiaSelection(s)
    ensures text !in Navigation(None) ==>
      StartsWith(r.text, Unrecognised) && r.contextUpdate == SetTo(Context(Kind, None, None)) &&
      r.quickReplies == Some(["Por materia", "Por profesor", "Por día", "Volver"])
  {
    if text == "Por materia" then MateriaSelection(s)
    else if text == "Por profesor" then ProfesorSelection(s)
    else if text == "Por día" then DiaSelection(s)
    else
      var r := Response(Unrecognised + ". ¿Cómo deseas consultar los horarios?",
                        Some(["Por materia", "Por profesor", "Por día", "Volver"]), SetTo(Context(Kind, None, None)));
      Missed(r, Unrecognised);
      r
  }

  /** `handleUserResponse`: "Volver" and "Menú principal" first, then the
      navigation phrases of the current flow, then a lookup of the text in
      that flow; with no flow, the three ways to search or "not recognised". */
  function HandleUserResponse(text: string, s: Service, context: Context): (r: Response)
    ensures text == "Volver" ==> r == InitialSelection(s)
    ensures text == "Menú principal" ==> r == BackToMainMenu
    ensures InBranch(r)
  {
    if text == "Volver" then InitialSelection(s)
    else if text == "Menú principal" then BackToMainMenu
    else if context.flow == Some(Materia) then MateriaStep(text, s)
    else if context.flow == Some(Profesor) then ProfesorStep(text, s)
    else if context.flow == Some(Dia) then DiaStep(text, s)
    else MenuStep(text, s)
  }

  /** A search that finds nothing keeps the flow it was made in. */
  lemma MissKeepsFlow(text: string, s: Service, context: Context)
    requires ScheduleContext(context)
    requires IsMiss(HandleUserResponse(text, s, context))
    ensures var u := HandleUserResponse(text, s, context).contextUpdate;
      u.SetTo? && u.context.flow == context.flow
  {
    OtherOpening(BackToMainMenu);
  }

  /** Only the flow of the context steers the answer; its filters do not. */
  lemma RoutingByFlowOnly(text: string, s: Service, c: Context, d: Context)
    requires c.flow == d.flow
    ensures HandleUserResponse(text, s, c) == HandleUserResponse(text, s, d)
  {
  }

  /** Text that is not a navigation phrase of a search flow is looked up in
      that flow. */
  lemma ValueIsLookedUp(text: string, s: Service, context: Context)
    requires context.flow.Some? && context.flow.value in {Materia, Profesor, Dia}
    requires text !in Navigation(context.flow)
    ensures HandleUserResponse(text, s, context) ==
      if context.flow == Some(Materia) then MateriaFlow(text, s)
      else if context.flow == Some(Profesor) then ProfesorFlow(text, s)
      else DiaFlow(text, s)
  {
    if context.flow == Some(Materia) {
      assert HandleUserResponse(text, s, context) == MateriaStep(text, s);
    } else if context.flow == Some(Profesor) {
      assert HandleUserResponse(text, s, context) == ProfesorStep(text, s);
    } else {
      assert HandleUserResponse(text, s, context) == DiaStep(text, s);
    }
  }

  /** Every button of the first menu is understood in the context it sets. */
  lemma InitialButtonsUnderstood(s: Service, button: string)
    requires button in InitialSelection(s).quickReplies.value
    ensures var r := HandleUserResponse(button, s, InitialSelection(s).contextUpdate.context);
      !IsMiss(r) && r.contextUpdate.SetTo?
  {
  }

  /** Every subject offered for choosing has classes to show, unless its name
      is itself a navigation phrase of the subject flow. */
  lemma OfferedSubjectListed(s: Service, subject: string)
    requires subject in MateriaSelection(s).quickReplies.value
    requires subject !in Navigation(Some(Materia))
    ensures var r := HandleUserResponse(subject, s, MateriaSelection(s).contextUpdate.context);
      !IsMiss(r) && r.contextUpdate == Reset
  {
    OfferedSubjectHasClasses(s, subject);
  }

  /** Every teacher offered for choosing has classes to show. */
  lemma OfferedTeacherListed(s: Service, teacher: string)
    requires teacher in ProfesorSelection(s).quickReplies.value
    requires teacher !in Navigation(Some(Profesor))
    ensures var r := HandleUserResponse(teacher, s, ProfesorSelection(s).contextUpdate.context);
      !IsMiss(r) && r.contextUpdate == Reset
  {
    OfferedTeacherHasClasses(s, teacher);
  }

  /** A subject answer holds one line per class of the subject, in timetable order. */
  lemma MateriaFlowLines(subject: string, s: Service)
    requires s.ScheduleForSubject(subject) != []
    requires forall e :: e in s.scheduleData ==> SingleLine(e)
    ensures var t := MateriaFlow(subject, s).text;
      StartsWith(t, MateriaHeading(subject))
      && Split(t[|MateriaHeading(subject)|..], "\n") == Map(s.ScheduleForSubject(subject), SubjectLine)
  {
    var lines := Map(s.ScheduleForSubject(subject), SubjectLine);
    var t := MateriaFlow(subject, s).text;
    assert t == MateriaHeading(subject) + Listing(lines);
    assert t[|MateriaHeading(subject)|..] == Listing(lines);
    SlotsSingleLine(s, subject, "", "");
    ListingLines(lines);
  }

  /** A teacher answer holds one line per class the teacher gives. */
  lemma ProfesorFlowLines(teacher: string, s: Service)
    requires s.ScheduleByTeacher(teacher) != []
    requires forall e :: e in s.scheduleData ==> SingleLine(e)
    ensures var t := ProfesorFlow(teacher, s).text;
      StartsWith(t, ProfesorHeading(teacher))
      && Split(t[|ProfesorHeading(teacher)|..], "\n") == Map(s.ScheduleByTeacher(teacher), TeacherLine)
  {
    var lines := Map(s.ScheduleByTeacher(teacher), TeacherLine);
    var t := ProfesorFlow(teacher, s).text;
    assert t == ProfesorHeading(teacher) + Listing(lines);
    assert t[|ProfesorHeading(teacher)|..] == Listing(lines);
    SlotsSingleLine(s, "", teacher, "");
    ListingLines(lines);
  }

  /** A day answer holds one line per class on the day. */
  lemma DiaFlowLines(day: string, s: Service)
    requires s.ScheduleByDay(day) != []
    requires forall e :: e in s.scheduleData ==> SingleLine(e)
    ensures var t := DiaFlow(day, s).text;
      StartsWith(t, DiaHeading(day))
      && Split(t[|DiaHeading(day)|..], "\n") == Map(s.ScheduleByDay(day), DayLine)
  {
    var lines := Map(s.ScheduleByDay(day), DayLine);
    var t := DiaFlow(day, s).text;
    assert t == DiaHeading(day) + Listing(lines);
    assert t[|DiaHeading(day)|..] == Listing(lines);
    SlotsSingleLine(s, "", "", day);
    ListingLines(lines);
  }
}
