/** The prerequisites branch of the chatbot: look a subject up by name or
    list the subjects of a year, read from a fixed study plan. */
module CurriculumFlow {
  import opened Wrappers
  import opened Seqs
  import opened Strings
  import opened ChatTypes

  const Kind := Correlatividades

  /** A subject of the study plan, its year, and the subjects to have passed
      before taking it (`paraCursar`) and before passing it (`paraAprobar`). */
  datatype Subject = Subject(nombre: string, nivel: string, paraCursar: seq<string>, paraAprobar: seq<string>)

  /** `CURRICULUM_DATA.niveles`. */
  const Levels: seq<string> := ["Primer Año", "Segundo Año", "Tercer Año", "Cuarto Año"]

  /** `CURRICULUM_DATA.materias`. */
  const Subjects: seq<Subject> := [
    Subject("Matemática I", "Primer Año", [], []),
    Subject("Programación I", "Primer Año", [], []),
    Subject("Programación II", "Segundo Año", ["Programación I"], ["Programación I", "Matemática I"]),
    Subject("Bases de Datos", "Tercer Año", ["Programación II"], ["Programación II"])
  ]

  function SubjectName(m: Subject): string { m.nombre }

  /** The subject names of the plan, in plan order. */
  lemma NamesListed()
    ensures Map(Subjects, SubjectName) == ["Matemática I", "Programación I", "Programación II", "Bases de Datos"]
  {
  }

  /** `CURRICULUM_DATA.materias.find(m => m.nombre === name)`. */
  function SubjectNamed(name: string): (r: Option<Subject>)
    ensures r.Some? <==> name in Map(Subjects, SubjectName)
    ensures r.Some? ==> r.value in Subjects && r.value.nombre == name
  {
    MapMember(Subjects, SubjectName, name);
    Find(Subjects, (m: Subject) => m.nombre == name)
  }

  /** The filter of a year's subjects. */
  function InLevel(nivel: string): Subject -> bool {
    (m: Subject) => m.nivel == nivel
  }

  /** The subjects of each year of the plan, in plan order. */
  lemma LevelNames(nivel: string)
    ensures KeepMap(Subjects, InLevel(nivel), SubjectName) ==
            if nivel == "Primer Año" then ["Matemática I", "Programación I"]
            else if nivel == "Segundo Año" then ["Programación II"]
            else if nivel == "Tercer Año" then ["Bases de Datos"]
            else []
  {
    var p := InLevel(nivel);
    var s := Subjects;
    assert s[..4] == s && s[..3][..2] == s[..2] && s[..2][..1] == s[..1] && s[..1][..0] == [];
    assert s[..4][..3] == s[..3];
    var k1 := KeepMap(s[..1], p, SubjectName);
    var k2 := KeepMap(s[..2], p, SubjectName);
    var k3 := KeepMap(s[..3], p, SubjectName);
    assert k1 == if nivel == "Primer Año" then ["Matemática I"] else [];
    assert k2 == k1 + if nivel == "Primer Año" then ["Programación I"] else [];
    assert k3 == k2 + if nivel == "Segundo Año" then ["Programación II"] else [];
    assert KeepMap(s, p, SubjectName) == k3 + if nivel == "Tercer Año" then ["Bases de Datos"] else [];
  }

  /** The names of the subjects of a year, in plan order. */
  function SubjectsOf(nivel: string): (r: seq<string>)
    ensures forall x :: x in r <==> exists m :: m in Subjects && m.nivel == nivel && m.nombre == x
    ensures r == [] <==> forall m :: m in Subjects ==> m.nivel != nivel
    ensures r == if nivel == "Primer Año" then ["Matemática I", "Programación I"]
                 else if nivel == "Segundo Año" then ["Programación II"]
                 else if nivel == "Tercer Año" then ["Bases de Datos"]
                 else []
  {
    var inLevel := InLevel(nivel);
    var r := KeepMap(Subjects, inLevel, SubjectName);
    forall x ensures x in r <==> exists m :: m in Subjects && m.nivel == nivel && m.nombre == x {
      KeepMapMember(Subjects, inLevel, SubjectName, x);
    }
    KeepMapCount(Subjects, inLevel, SubjectName);
    FilterEmpty(Subjects, inLevel);
    LevelNames(nivel);
    r
  }

  /** `formatCorrelativas`: the names separated by commas, or "Ninguna". */
  function FormatCorrelativas(names: seq<string>): (r: string)
    ensures names == [] ==> r == "Ninguna"
    ensures names != [] ==> |r| >= |names[0]| && r[..|names[0]|] == names[0]
  {
    if |names| > 0 then Join(names, ", ") else "Ninguna"
  }

  /** A non-empty list of names without commas is read back from its
      formatted form by splitting at the separator. */
  lemma FormatReadsBack(names: seq<string>)
    requires names != []
    requires forall k :: 0 <= k < |names| ==> ',' !in names[k]
    ensures Split(FormatCorrelativas(names), ", ") == names
  {
    SplitJoinSep(names, ", ");
  }

  /** The answer about one subject: its year and both prerequisite lists. */
  function PrerequisitesText(m: Subject): string {
    "📚 Correlatividades para " + m.nombre + " (" + m.nivel + "):\n\n"
    + "🔹 Para cursar: " + FormatCorrelativas(m.paraCursar) + "\n"
    + "🔹 Para aprobar: " + FormatCorrelativas(m.paraAprobar) + "\n\n"
    + "¿Qué más deseas consultar?"
  }

  /** The answer listing the subjects of a year, one per line. */
  function LevelText(nivel: string): string {
    "📖 Materias de " + nivel + ":\n\n" + Join(SubjectsOf(nivel), "\n") + "\n\n"
    + "Selecciona una materia para ver sus correlatividades o consulta otro nivel:"
  }

  /** The buttons of the first menu. */
  const MenuButtons: seq<string> := ["Por materia", "Por nivel", "Volver"]

  /** The context the first menu leaves behind. As written it is already
      the subject flow, where both buttons are read as subject names;
      `corrected`, it is a prerequisites context without a flow, so the
      buttons reach the branch that understands them. */
  function MenuContext(corrected: bool): Context {
    if corrected then Context(Kind, None, None) else Enter(Kind, Materia)
  }

  /** `handleInitialSelection`: both ways to search and "Volver". */
  function InitialSelection(corrected: bool): (r: Response)
    ensures r.quickReplies == Some(MenuButtons)
    ensures r.contextUpdate == SetTo(MenuContext(corrected))
    ensures !IsMiss(r)
  {
    var r := Response("¿Cómo deseas consultar las correlatividades?", Some(MenuButtons), SetTo(MenuContext(corrected)));
    OtherOpening(r);
    r
  }

  /** `handleMateriaSelection`: every subject name, then "Volver". */
  function MateriaSelection(): (r: Response)
    ensures r.contextUpdate == SetTo(Enter(Kind, Materia))
    ensures r.quickReplies.Some? && forall x :: x in r.quickReplies.value <==> x in Map(Subjects, SubjectName) || x == "Volver"
    ensures r.quickReplies == Some(["Matemática I", "Programación I", "Programación II", "Bases de Datos", "Volver"])
    ensures !IsMiss(r)
  {
    NamesListed();
    assert Map(Subjects, SubjectName) + ["Volver"] ==
           ["Matemática I", "Programación I", "Programación II", "Bases de Datos", "Volver"];
    var r := Response("Selecciona una materia " + "para ver sus correlatividades:", Some(Map(Subjects, SubjectName) + ["Volver"]),
                      SetTo(Enter(Kind, Materia)));
    OtherOpening(r);
    r
  }

  /** `handleMateriaFlow`: the prerequisites of the named subject, or a miss
      that keeps the subject flow and remembers the name. */
  function MateriaFlow(name: string): (r: Response)
    ensures IsMiss(r) <==> name !in Map(Subjects, SubjectName)
    ensures IsMiss(r) ==> r.contextUpdate == SetTo(Remember(Kind, Materia, "materia", name))
    ensures !IsMiss(r) ==> r.contextUpdate == Reset && r.text == PrerequisitesText(SubjectNamed(name).value)
  {
    match SubjectNamed(name)
    case None =>
      var r := Response(NotFound + " información para la materia " + name, Some(["Consultar otra materia", "Volver"]),
               SetTo(Remember(Kind, Materia, "materia", name)));
      Missed(r, NotFound);
      r
    case Some(m) =>
      var r := Response(PrerequisitesText(m), Some(["Consultar otra materia", "Ver por nivel", "Menú principal"]), Reset);
      OtherOpening(r);
      r
  }

  /** `handleNivelSelection`: every year, then "Volver". */
  function NivelSelection(): (r: Response)
    ensures r.contextUpdate == SetTo(Enter(Kind, Nivel))
    ensures r.quickReplies == Some(Levels + ["Volver"])
    ensures !IsMiss(r)
  {
    var r := Response("Selecciona un nivel para ver sus materias:", Some(Levels + ["Volver"]), SetTo(Enter(Kind, Nivel)));
    OtherOpening(r);
    r
  }

  /** The flow a year listing leaves behind: as written the subject flow,
      where the "Consultar otro nivel" button it offers is read as a subject
      name; `corrected`, the year flow, which understands both its subject
      buttons and that one. */
  function ListingFlow(corrected: bool): Flow {
    if corrected then Nivel else Materia
  }

  /** `handleNivelFlow`: the subjects of the year, offered as buttons next
      to "Consultar otro nivel"; or, for a year without subjects, a miss
      that remembers the year. */
  function NivelFlow(nivel: string, corrected: bool): (r: Response)
    ensures IsMiss(r) <==> SubjectsOf(nivel) == []
    ensures IsMiss(r) ==> r.contextUpdate == SetTo(Remember(Kind, Nivel, "nivel", nivel))
    ensures !IsMiss(r) ==>
      r.contextUpdate == SetTo(Enter(Kind, ListingFlow(corrected))) && r.text == LevelText(nivel)
      && r.quickReplies == Some(SubjectsOf(nivel) + ["Consultar otro nivel", "Menú principal"])
  {
    var materias := SubjectsOf(nivel);
    if |materias| == 0 then
      var r := Response(NotFound + " materias para el nivel " + nivel, Some(["Consultar otro nivel", "Volver"]),
               SetTo(Remember(Kind, Nivel, "nivel", nivel)));
      Missed(r, NotFound);
      r
    else
      var r := Response(LevelText(nivel), Some(materias + ["Consultar otro nivel", "Menú principal"]),
                        SetTo(Enter(Kind, ListingFlow(corrected))));
      OtherOpening(r);
      r
  }

  /** The reply to text the first menu does not know: the first menu again,
      in the same context as the first menu. */
  function NotRecognised(corrected: bool): (r: Response)
    ensures StartsWith(r.text, Unrecognised) && IsMiss(r) && r.quickReplies == Some(MenuButtons)
    ensures r.contextUpdate == SetTo(MenuContext(corrected))
    ensures r.contextUpdate.context.flow == if corrected then None else Some(Materia)
  {
    var r := Response(Unrecognised + ". ¿Cómo deseas consultar las correlatividades?", Some(MenuButtons), SetTo(MenuContext(corrected)));
    Missed(r, Unrecognised);
    r
  }

  /** The phrases a flow reads as navigation rather than as a name to look up. */
  function Navigation(flow: Option<Flow>): seq<string> {
    ["Volver", "Menú principal"] +
    if flow == Some(Materia) then ["Consultar otra materia", "Ver por nivel"]
    else if flow == Some(Nivel) then ["Consultar otro nivel"]
    else ["Por materia", "Por nivel"]
  }

  /** The contexts this branch may leave behind. */
  predicate CurriculumContext(c: Context) {
    c.kind == Kind && (c.flow.None? || c.flow.value in {Materia, Nivel})
  }

  /** The replies the branch may give: a buttons list, and either a reset
      or a prerequisites context. */
  predicate InBranch(r: Response) {
    r.quickReplies.Some? && (r.contextUpdate.Reset? || (r.contextUpdate.SetTo? && CurriculumContext(r.contextUpdate.context)))
  }

  /** Inside the subject flow. */
  function MateriaStep(text: string): (r: Response)
    ensures InBranch(r)
    ensures text == "Consultar otra materia" ==> r == MateriaSelection()
    ensures text == "Ver por nivel" ==> r == NivelSelection()
    ensures text !in Navigation(Some(Materia)) ==> r == MateriaFlow(text)
  {
    if text == "Consultar otra materia" then MateriaSelection()
    else if text == "Ver por nivel" then NivelSelection()
    else MateriaFlow(text)
  }

  /** Inside the year flow: a subject name is answered as in the subject
      flow, anything else is taken for a year. */
  function NivelStep(text: string, corrected: bool): (r: Response)
    ensures InBranch(r)
    ensures text == "Consultar otro nivel" ==> r == NivelSelection()
    ensures text !in Navigation(Some(Nivel)) ==>
      r == if text in Map(Subjects, SubjectName) then MateriaFlow(text) else NivelFlow(text, corrected)
  {
    if text == "Consultar otro nivel" then NivelSelection()
    else if SubjectNamed(text).Some? then MateriaFlow(text)
    else NivelFlow(text, corrected)
  }

  /** With no flow: the two ways to search, or "not recognised". */
  function MenuStep(text: string, corrected: bool): (r: Response)
    ensures InBranch(r)
    ensures text == "Por materia" ==> r == MateriaSelection()
    ensures text == "Por nivel" ==> r == NivelSelection()
    ensures text !in Navigation(None) ==> r == NotRecognised(corrected)
  {
    if text == "Por materia" then MateriaSelection()
    else if text == "Por nivel" then NivelSelection()
    else NotRecognised(corrected)
  }

  /** `handleUserResponse`: "Volver" and "Menú principal" first, then the
      navigation phrases of the current flow, then a lookup of the text; with
      no flow, the two ways to search or "not recognised". The component is
      the reading with `corrected` false. */
  function HandleUserResponse(text: string, context: Context, corrected: bool): (r: Response)
    ensures text == "Volver" ==> r == InitialSelection(corrected)
    ensures text == "Menú principal" ==> r == BackToMainMenu
    ensures InBranch(r)
  {
    if text == "Volver" then InitialSelection(corrected)
    else if text == "Menú principal" then BackToMainMenu
    else if context.flow == Some(Materia) then MateriaStep(text)
    else if context.flow == Some(Nivel) then NivelStep(text, corrected)
    else MenuStep(text, corrected)
  }

  /** On the first menu only the two ways to search are understood. */
  lemma MenuStepMiss(text: string, corrected: bool)
    ensures IsMiss(MenuStep(text, corrected)) <==> text != "Por materia" && text != "Por nivel"
  {
    if text != "Por materia" && text != "Por nivel" {
      assert MenuStep(text, corrected) == NotRecognised(corrected);
    }
  }

  /** Text that is not a navigation phrase of a flow is looked up: as a
      subject in the subject flow, and in the year flow as a subject when it
      names one and as a year otherwise. */
  lemma ValueIsLookedUp(text: string, context: Context, corrected: bool)
    requires context.flow == Some(Materia) || context.flow == Some(Nivel)
    requires text !in Navigation(context.flow)
    ensures HandleUserResponse(text, context, corrected) ==
      if context.flow == Some(Materia) || text in Map(Subjects, SubjectName) then MateriaFlow(text) else NivelFlow(text, corrected)
  {
    if context.flow == Some(Materia) {
      assert HandleUserResponse(text, context, corrected) == MateriaStep(text);
    } else {
      assert HandleUserResponse(text, context, corrected) == NivelStep(text, corrected);
    }
  }

  /** A lookup that finds nothing keeps the flow it was made in. */
  lemma MissKeepsFlow(text: string, context: Context, corrected: bool)
    requires context.flow.Some? && context.flow.value in {Materia, Nivel}
    requires IsMiss(HandleUserResponse(text, context, corrected))
    ensures var u := HandleUserResponse(text, context, corrected).contextUpdate;
      u.SetTo? && u.context.flow.Some? && u.context.filter.Some?
  {
    OtherOpening(BackToMainMenu);
  }

  /** As written, pressing either way to search on the first menu, or after
      "not recognised", is read as the name of a subject and answered with
      a miss. */
  lemma MenuButtonsMisread(button: string)
    requires button == "Por materia" || button == "Por nivel"
    ensures var r := HandleUserResponse(button, InitialSelection(false).contextUpdate.context, false);
      IsMiss(r) && r == MateriaFlow(button)
    ensures NotRecognised(false).contextUpdate == InitialSelection(false).contextUpdate
  {
    NamesListed();
    assert button !in Map(Subjects, SubjectName);
    assert button !in Navigation(Some(Materia));
    ValueIsLookedUp(button, Enter(Kind, Materia), false);
  }

  /** As written, pressing "Consultar otro nivel" under a year listing is
      read as the name of a subject and answered with a miss. */
  lemma OtherLevelMisread(nivel: string)
    requires SubjectsOf(nivel) != []
    ensures var r := HandleUserResponse("Consultar otro nivel", NivelFlow(nivel, false).contextUpdate.context, false);
      "Consultar otro nivel" in NivelFlow(nivel, false).quickReplies.value
      && IsMiss(r) && r == MateriaFlow("Consultar otro nivel")
  {
    assert !IsMiss(NivelFlow(nivel, false));
    OtherLevelReadAsSubject(false);
  }

  /** In the subject flow, "Consultar otro nivel" is taken for a subject name. */
  lemma OtherLevelReadAsSubject(corrected: bool)
    ensures var r := HandleUserResponse("Consultar otro nivel", Enter(Kind, Materia), corrected);
      IsMiss(r) && r == MateriaFlow("Consultar otro nivel")
  {
    NamesListed();
    assert "Consultar otro nivel" !in Map(Subjects, SubjectName);
    assert "Consultar otro nivel" !in Navigation(Some(Materia));
    ValueIsLookedUp("Consultar otro nivel", Enter(Kind, Materia), corrected);
  }

  /** With the corrected first menu every button is understood. */
  lemma MenuButtonsUnderstood(button: string)
    requires button in InitialSelection(true).quickReplies.value
    ensures var r := HandleUserResponse(button, InitialSelection(true).contextUpdate.context, true);
      !IsMiss(r) && r.contextUpdate.SetTo?
  {
    if button != "Volver" {
      assert HandleUserResponse(button, Context(Kind, None, None), true) == MenuStep(button, true);
      MenuStepMiss(button, true);
    }
  }

  /** Every button a year listing offers is understood, each subject being
      answered and "Consultar otro nivel" listing the years again; as
      written, all but "Consultar otro nivel". */
  lemma LevelButtonsUnderstood(nivel: string, button: string, corrected: bool)
    requires SubjectsOf(nivel) != []
    requires button in NivelFlow(nivel, corrected).quickReplies.value
    requires corrected || button != "Consultar otro nivel"
    ensures !IsMiss(HandleUserResponse(button, NivelFlow(nivel, corrected).contextUpdate.context, corrected))
  {
    var after := NivelFlow(nivel, corrected);
    assert after.contextUpdate.context == Enter(Kind, ListingFlow(corrected))
      && button in SubjectsOf(nivel) + ["Consultar otro nivel", "Menú principal"] by {
      assert !IsMiss(after);
    }
    if button == "Menú principal" {
      OtherOpening(BackToMainMenu);
    } else if button == "Consultar otro nivel" {
      OtherLevelUnderstood(corrected);
    } else {
      assert button in SubjectsOf(nivel);
      MapMember(Subjects, SubjectName, button);
      assert button in Map(Subjects, SubjectName);
      SubjectAnswered(button, ListingFlow(corrected), corrected);
    }
  }

  /** In the year flow, "Consultar otro nivel" lists the years again. */
  lemma OtherLevelUnderstood(corrected: bool)
    ensures HandleUserResponse("Consultar otro nivel", Enter(Kind, Nivel), corrected) == NivelSelection()
  {
    assert HandleUserResponse("Consultar otro nivel", Enter(Kind, Nivel), corrected) == NivelStep("Consultar otro nivel", corrected);
  }

  /** In either flow, the name of a subject is answered with its
      prerequisites. */
  lemma SubjectAnswered(name: string, flow: Flow, corrected: bool)
    requires name in Map(Subjects, SubjectName) && flow in {Materia, Nivel}
    ensures var r := HandleUserResponse(name, Enter(Kind, flow), corrected);
      r == MateriaFlow(name) && !IsMiss(r) && r.contextUpdate == Reset
  {
    NamesListed();
    assert name !in Navigation(Some(flow));
    ValueIsLookedUp(name, Enter(Kind, flow), corrected);
  }

  /** Every subject offered for choosing is found. */
  lemma OfferedSubjectFound(name: string, corrected: bool)
    requires name in MateriaSelection().quickReplies.value && name != "Volver"
    ensures var r := HandleUserResponse(name, MateriaSelection().contextUpdate.context, corrected);
      !IsMiss(r) && r.contextUpdate == Reset
  {
    assert name in Map(Subjects, SubjectName);
    SubjectAnswered(name, Materia, corrected);
  }

  /** Only the first three years have subjects in the plan. */
  lemma YearsWithSubjects(nivel: string)
    ensures SubjectsOf(nivel) != [] <==> nivel == "Primer Año" || nivel == "Segundo Año" || nivel == "Tercer Año"
  {
    var r := SubjectsOf(nivel);
    if nivel == "Primer Año" {
      assert Subjects[0] in Subjects && Subjects[0].nombre in r;
    } else if nivel == "Segundo Año" {
      assert Subjects[2] in Subjects && Subjects[2].nombre in r;
    } else if nivel == "Tercer Año" {
      assert Subjects[3] in Subjects && Subjects[3].nombre in r;
    } else {
      assert forall m :: m in Subjects ==> m.nivel != nivel;
    }
  }

  /** Every year offered for choosing is listed, except "Cuarto Año", which
      the plan offers but gives no subjects. */
  lemma OfferedLevelListed(nivel: string, corrected: bool)
    requires nivel in NivelSelection().quickReplies.value && nivel != "Volver"
    ensures var r := HandleUserResponse(nivel, NivelSelection().contextUpdate.context, corrected);
      r == NivelFlow(nivel, corrected) && (IsMiss(r) <==> nivel == "Cuarto Año")
  {
    assert nivel in Levels;
    assert nivel !in Map(Subjects, SubjectName) by {
      NamesListed();
    }
    assert nivel !in Navigation(Some(Nivel));
    ValueIsLookedUp(nivel, Enter(Kind, Nivel), corrected);
    assert SubjectsOf(nivel) == [] <==> nivel == "Cuarto Año" by {
      YearsWithSubjects(nivel);
    }
  }

  /** Every prerequisite is a subject of the plan, of an earlier year. */
  lemma PrerequisitesEarlier(m: Subject, p: string)
    requires m in Subjects && (p in m.paraCursar || p in m.paraAprobar)
    ensures SubjectNamed(p).Some?
    ensures exists i, j :: 0 <= i < j < |Levels| && Levels[i] == SubjectNamed(p).value.nivel && Levels[j] == m.nivel
  {
    NamesListed();
    if m == Subjects[2] {
      assert Levels[0] == SubjectNamed(p).value.nivel && Levels[1] == m.nivel;
    } else {
      assert m == Subjects[3];
      assert Levels[1] == SubjectNamed(p).value.nivel && Levels[2] == m.nivel;
    }
  }
}
