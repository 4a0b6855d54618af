/** The prices branch of the chatbot: the monthly fee of a career, the cost
    of a subject and the price of an administrative procedure, read from a
    fixed table. */
module PricesFlow {
  import opened Wrappers
  import opened Seqs
  import opened Strings
  import opened ChatTypes

  const Kind := Precios

  datatype Career = Career(id: string, name: string, arancel: nat)
  datatype PricedSubject = PricedSubject(name: string, costo: nat, carrera: string)
  datatype Procedure = Procedure(name: string, costo: nat)

  /** `PRICE_DATA`. */
  const Careers: seq<Career> :=
    [Career("seguridad", "Seguridad Informática", 15000), Career("software", "Desarrollo de Software", 14000)]
  const Subjects: seq<PricedSubject> :=
    [PricedSubject("Matemáticas I", 2000, "seguridad"), PricedSubject("Programación I", 2500, "software")]
  const Procedures: seq<Procedure> :=
    [Procedure("Inscripción", 1000), Procedure("Certificado Analítico", 500)]

  function CareerName(c: Career): string { c.name }
  function SubjectName(m: PricedSubject): string { m.name }
  function ProcedureName(t: Procedure): string { t.name }

  /** The names of the table, in table order. */
  lemma NamesListed()
    ensures Map(Careers, CareerName) == ["Seguridad Informática", "Desarrollo de Software"]
    ensures Map(Subjects, SubjectName) == ["Matemáticas I", "Programación I"]
    ensures Map(Procedures, ProcedureName) == ["Inscripción", "Certificado Analítico"]
  {
  }

  /** `PRICE_DATA.carreras.find(c => c.name === name)`. */
  function CareerNamed(name: string): (r: Option<Career>)
    ensures r.Some? <==> name in Map(Careers, CareerName)
    ensures r.Some? ==> r.value in Careers && r.value.name == name
  {
    MapMember(Careers, CareerName, name);
    Find(Careers, (c: Career) => c.name == name)
  }

  /** `PRICE_DATA.materias.find(m => m.name === name)`. */
  function SubjectNamed(name: string): (r: Option<PricedSubject>)
    ensures r.Some? <==> name in Map(Subjects, SubjectName)
    ensures r.Some? ==> r.value in Subjects && r.value.name == name
  {
    MapMember(Subjects, SubjectName, name);
    Find(Subjects, (m: PricedSubject) => m.name == name)
  }

  /** `PRICE_DATA.tramites.find(t => t.name === name)`. */
  function ProcedureNamed(name: string): (r: Option<Procedure>)
    ensures r.Some? <==> name in Map(Procedures, ProcedureName)
    ensures r.Some? ==> r.value in Procedures && r.value.name == name
  {
    MapMember(Procedures, ProcedureName, name);
    Find(Procedures, (t: Procedure) => t.name == name)
  }

  const AskFee := "Arancel por carrera"
  const AskSubjectCost := "Costo de materias"
  const AskProcedurePrice := "Precio de trámites"

  /** The three kinds of query. */
  const Queries: seq<string> := [AskFee, AskSubjectCost, AskProcedurePrice]

  /** The buttons of the first menu. */
  const MenuButtons: seq<string> := Queries + ["Volver"]

  const Closing := "¿Necesitas información sobre otra cosa?"

  /** The contexts this branch may leave behind. */
  predicate PriceContext(c: Context) {
    c.kind == Kind && (c.flow.None? || c.flow.value in {Carrera, Materia, Tramite})
  }

  /** The context the first menu leaves behind. As written it is already
      the career flow, where the three buttons are read as career names;
      `corrected`, it is a prices context without a flow, as the timetable
      branch uses for its own first menu, so the buttons reach the branch
      that understands them. */
  function MenuContext(corrected: bool): Context {
    if corrected then Context(Kind, None, None) else Enter(Kind, Carrera)
  }

  /** `handleInitialSelection`: the three kinds of query and "Volver". */
  function InitialSelection(corrected: bool): (r: Response)
    ensures r.quickReplies == Some(MenuButtons)
    ensures r.contextUpdate == SetTo(MenuContext(corrected))
    ensures !IsMiss(r)
  {
    var r := Response("¿Qué información de precios necesitas?", Some(MenuButtons), SetTo(MenuContext(corrected)));
    OtherOpening(r);
    r
  }

  /** `handleCarreraSelection`: every career name, then "Volver". */
  function CarreraSelection(): (r: Response)
    ensures r.contextUpdate == SetTo(Enter(Kind, Carrera))
    ensures r.quickReplies.Some? && forall x :: x in r.quickReplies.value <==> x in Map(Careers, CareerName) || x == "Volver"
    ensures r.quickReplies == Some(["Seguridad Informática", "Desarrollo de Software", "Volver"])
    ensures !IsMiss(r)
  {
    NamesListed();
    assert Map(Careers, CareerName) + ["Volver"] == ["Seguridad Informática", "Desarrollo de Software", "Volver"];
    var r := Response("Selecciona una carrera para ver el arancel:", Some(Map(Careers, CareerName) + ["Volver"]),
                      SetTo(Enter(Kind, Carrera)));
    OtherOpening(r);
    r
  }

  /** `handleMateriaSelection`: every subject name, then "Volver". */
  function MateriaSelection(): (r: Response)
    ensures r.contextUpdate == SetTo(Enter(Kind, Materia))
    ensures r.quickReplies.Some? && forall x :: x in r.quickReplies.value <==> x in Map(Subjects, SubjectName) || x == "Volver"
    ensures r.quickReplies == Some(["Matemáticas I", "Programación I", "Volver"])
    ensures !IsMiss(r)
  {
    NamesListed();
    assert Map(Subjects, SubjectName) + ["Volver"] == ["Matemáticas I", "Programación I", "Volver"];
    var r := Response("Selecciona una materia para ver su costo:", Some(Map(Subjects, SubjectName) + ["Volver"]),
                      SetTo(Enter(Kind, Materia)));
    OtherOpening(r);
    r
  }

  /** `handleTramiteSelection`: every procedure name, then "Volver". */
  function TramiteSelection(): (r: Response)
    ensures r.contextUpdate == SetTo(Enter(Kind, Tramite))
    ensures r.quickReplies.Some? && forall x :: x in r.quickReplies.value <==> x in Map(Procedures, ProcedureName) || x == "Volver"
    ensures r.quickReplies == Some(["Inscripción", "Certificado Analítico", "Volver"])
    ensures !IsMiss(r)
  {
    NamesListed();
    assert Map(Procedures, ProcedureName) + ["Volver"] == ["Inscripción", "Certificado Analítico", "Volver"];
    var r := Response("Selecciona un trámite para ver su precio:", Some(Map(Procedures, ProcedureName) + ["Volver"]),
                      SetTo(Enter(Kind, Tramite)));
    OtherOpening(r);
    r
  }

  function FeeText(c: Career): string {
    "💵 Arancel para " + c.name + ": $" + NatToString(c.arancel) + " por mes\n\n" + Closing
  }

  /** `handleCarreraFlow`: the monthly fee of the named career, or a miss
      that keeps the career flow and remembers the name. */
  function CarreraFlow(name: string): (r: Response)
    ensures IsMiss(r) <==> name !in Map(Careers, CareerName)
    ensures IsMiss(r) ==> r.contextUpdate == SetTo(Remember(Kind, Carrera, "carrera", name))
    ensures !IsMiss(r) ==> r.contextUpdate == Reset && r.text == FeeText(CareerNamed(name).value)
  {
    match CareerNamed(name)
    case None =>
      var r := Response(NotFound + " información para la carrera " + name, Some(["Consultar otra carrera", "Volver"]),
               SetTo(Remember(Kind, Carrera, "carrera", name)));
      Missed(r, NotFound);
      r
    case Some(c) =>
      var r := Response(FeeText(c), Some(["Consultar otra carrera", "Ver costos de materias", "Ver precios de trámites", "Menú principal"]), Reset);
      OtherOpening(r);
      r
  }

  /** The cost line of a subject, naming its career when the career is known. */
  function CostText(m: PricedSubject): string {
    "📚 Costo de " + m.name + ": $" + NatToString(m.costo) + "\n"
    + (match Find(Careers, (c: Career) => c.id == m.carrera)
       case Some(c) => "(Carrera: " + c.name + ")\n\n"
       case None => "\n")
    + Closing
  }

  /** `handleMateriaFlow`: the cost of the named subject, or a miss that
      keeps the subject flow and remembers the name. */
  function MateriaFlow(name: string): (r: Response)
    ensures IsMiss(r) <==> name !in Map(Subjects, SubjectName)
    ensures IsMiss(r) ==> r.contextUpdate == SetTo(Remember(Kind, Materia, "materia", name))
    ensures !IsMiss(r) ==> r.contextUpdate == Reset && r.text == CostText(SubjectNamed(name).value)
  {
    match SubjectNamed(name)
    case None =>
      var r := Response(NotFound + " información para la materia " + name, Some(["Consultar otra materia", "Volver"]),
               SetTo(Remember(Kind, Materia, "materia", name)));
      Missed(r, NotFound);
      r
    case Some(m) =>
      var r := Response(CostText(m), Some(["Consultar otra materia", "Ver aranceles por carrera", "Ver precios de trámites", "Menú principal"]), Reset);
      OtherOpening(r);
      r
  }

  function PriceText(t: Procedure): string {
    "📝 Precio del trámite \"" + t.name + "\": $" + NatToString(t.costo) + "\n\n" + Closing
  }

  /** `handleTramiteFlow`: the price of the named procedure, or a miss that
      keeps the procedure flow and remembers the name. */
  function TramiteFlow(name: string): (r: Response)
    ensures IsMiss(r) <==> name !in Map(Procedures, ProcedureName)
    ensures IsMiss(r) ==> r.contextUpdate == SetTo(Remember(Kind, Tramite, "tramite", name))
    ensures !IsMiss(r) ==> r.contextUpdate == Reset && r.text == PriceText(ProcedureNamed(name).value)
  {
    match ProcedureNamed(name)
    case None =>
      var r := Response(NotFound + " información para el trámite " + name, Some(["Consultar otro trámite", "Volver"]),
               SetTo(Remember(Kind, Tramite, "tramite", name)));
      Missed(r, NotFound);
      r
    case Some(t) =>
      var r := Response(PriceText(t), Some(["Consultar otro trámite", "Ver aranceles por carrera", "Ver costos de materias", "Menú principal"]), Reset);
      OtherOpening(r);
      r
  }

  /** The reply to text the first menu does not know: the first menu again,
      in the same context as the first menu. */
  function NotRecognised(corrected: bool): (r: Response)
    ensures StartsWith(r.text, Unrecognised) && IsMiss(r) && r.quickReplies == Some(MenuButtons)
    ensures r.contextUpdate == SetTo(MenuContext(corrected))
    ensures r.contextUpdate.context.flow == if corrected then None else Some(Carrera)
  {
    var r := Response(Unrecognised + ". ¿Qué información de precios necesitas?", Some(MenuButtons), SetTo(MenuContext(corrected)));
    Missed(r, Unrecognised);
    r
  }

  /** The phrases a flow reads as navigation rather than as a name to look up. */
  function Navigation(flow: Option<Flow>): seq<string> {
    ["Volver", "Menú principal"] +
    if flow == Some(Carrera) then ["Consultar otra carrera", "Ver costos de materias", "Ver precios de trámites"]
    else if flow == Some(Materia) then ["Consultar otra materia", "Ver aranceles por carrera", "Ver precios de trámites"]
    else if flow == Some(Tramite) then ["Consultar otro trámite", "Ver aranceles por carrera", "Ver costos de materias"]
    else Queries
  }

  /** The replies the branch may give: a buttons list, and either a reset
      or a prices context. */
  predicate InBranch(r: Response) {
    r.quickReplies.Some? && (r.contextUpdate.Reset? || (r.contextUpdate.SetTo? && PriceContext(r.contextUpdate.context)))
  }

  /** Inside the career flow. */
  function CarreraStep(text: string): (r: Response)
    ensures InBranch(r)
    ensures text == "Consultar otra carrera" ==> r == CarreraSelection()
    ensures text == "Ver costos de materias" ==> r == MateriaSelection()
    ensures text == "Ver precios de trámites" ==> r == TramiteSelection()
    ensures text !in Navigation(Some(Carrera)) ==> r == CarreraFlow(text)
    ensures IsMiss(r) ==> r.contextUpdate == SetTo(Remember(Kind, Carrera, "carrera", text))
  {
    if text == "Consultar otra carrera" then CarreraSelection()
    else if text == "Ver costos de materias" then MateriaSelection()
    else if text == "Ver precios de trámites" then TramiteSelection()
    else CarreraFlow(text)
  }

  /** Inside the subject flow. */
  function MateriaStep(text: string): (r: Response)
    ensures InBranch(r)
    ensures text == "Consultar otra materia" ==> r == MateriaSelection()
    ensures text == "Ver aranceles por carrera" ==> r == CarreraSelection()
    ensures text == "Ver precios de trámites" ==> r == TramiteSelection()
    ensures text !in Navigation(Some(Materia)) ==> r == MateriaFlow(text)
    ensures IsMiss(r) ==> r.contextUpdate == SetTo(Remember(Kind, Materia, "materia", text))
  {
    if text == "Consultar otra materia" then MateriaSelection()
    else if text == "Ver aranceles por carrera" then CarreraSelection()
    else if text == "Ver precios de trámites" then TramiteSelection()
    else MateriaFlow(text)
  }

  /** Inside the procedure flow. */
  function TramiteStep(text: string): (r: Response)
    ensures InBranch(r)
    ensures text == "Consultar otro trámite" ==> r == TramiteSelection()
    ensures text == "Ver aranceles por carrera" ==> r == CarreraSelection()
    ensures text == "Ver costos de materias" ==> r == MateriaSelection()
    ensures text !in Navigation(Some(Tramite)) ==> r == TramiteFlow(text)
    ensures IsMiss(r) ==> r.contextUpdate == SetTo(Remember(Kind, Tramite, "tramite", text))
  {
    if text == "Consultar otro trámite" then TramiteSelection()
    else if text == "Ver aranceles por carrera" then CarreraSelection()
    else if text == "Ver costos de materias" then MateriaSelection()
    else TramiteFlow(text)
  }

  /** With no flow: the three kinds of query, or "not recognised". */
  function MenuStep(text: string, corrected: bool): (r: Response)
    ensures InBranch(r)
    ensures text == AskFee ==> r == CarreraSelection()
    ensures text == AskSubjectCost ==> r == MateriaSelection()
    ensures text == AskProcedurePrice ==> r == TramiteSelection()
    ensures text !in Queries ==> r == NotRecognised(corrected)
  {
    if text == AskFee then CarreraSelection()
    else if text == AskSubjectCost then MateriaSelection()
    else if text == AskProcedurePrice then TramiteSelection()
    else NotRecognised(corrected)
  }

  /** On the first menu only the three kinds of query are understood. */
  lemma MenuStepMiss(text: string, corrected: bool)
    ensures IsMiss(MenuStep(text, corrected)) <==> text !in Queries
  {
    if text !in Queries {
      assert MenuStep(text, corrected) == NotRecognised(corrected);
    }
  }

  /** `handleUserResponse`: "Volver" and "Menú principal" first, then the
      navigation phrases of the current flow, then a lookup of the text in
      that flow; with no flow, the three kinds of query or "not recognised".
      The component is the reading with `corrected` false. */
  function HandleUserResponse(text: string, context: Context, corrected: bool): (r: Response)
    ensures text == "Volver" ==> r == InitialSelection(corrected)
    ensures text == "Menú principal" ==> r == BackToMainMenu
    ensures InBranch(r)
  {
    if text == "Volver" then InitialSelection(corrected)
    else if text == "Menú principal" then BackToMainMenu
    else if context.flow == Some(Carrera) then CarreraStep(text)
    else if context.flow == Some(Materia) then MateriaStep(text)
    else if context.flow == Some(Tramite) then TramiteStep(text)
    else MenuStep(text, corrected)
  }

  /** Text that is not a navigation phrase of a flow is looked up in that flow. */
  lemma ValueIsLookedUp(text: string, context: Context, corrected: bool)
    requires context.flow.Some? && context.flow.value in {Carrera, Materia, Tramite}
    requires text !in Navigation(context.flow)
    ensures HandleUserResponse(text, context, corrected) ==
      if context.flow == Some(Carrera) then CarreraFlow(text)
      else if context.flow == Some(Materia) then MateriaFlow(text)
      else TramiteFlow(text)
  {
    if context.flow == Some(Carrera) {
      assert HandleUserResponse(text, context, corrected) == CarreraStep(text);
    } else if context.flow == Some(Materia) {
      assert HandleUserResponse(text, context, corrected) == MateriaStep(text);
    } else {
      assert HandleUserResponse(text, context, corrected) == TramiteStep(text);
    }
  }

  /** A lookup that finds nothing keeps the flow it was made in. */
  lemma MissKeepsFlow(text: string, context: Context, corrected: bool)
    requires context.flow.Some? && context.flow.value in {Carrera, Materia, Tramite}
    requires IsMiss(HandleUserResponse(text, context, corrected))
    ensures var u := HandleUserResponse(text, context, corrected).contextUpdate;
      u.SetTo? && u.context.flow == context.flow
  {
    OtherOpening(BackToMainMenu);
  }

  /** As written, pressing any of the three kinds of query on the first
      menu, or after "not recognised", is read as the name of a career and
      answered with a miss. */
  lemma MenuButtonsMisread(button: string)
    requires button in Queries
    ensures var r := HandleUserResponse(button, InitialSelection(false).contextUpdate.context, false);
      IsMiss(r) && r == CarreraFlow(button)
    ensures NotRecognised(false).contextUpdate == InitialSelection(false).contextUpdate
  {
    NamesListed();
    assert button !in Navigation(Some(Carrera));
  }

  /** With the corrected first menu every button is understood. */
  lemma MenuButtonsUnderstood(button: string)
    requires button in InitialSelection(true).quickReplies.value
    ensures var r := HandleUserResponse(button, InitialSelection(true).contextUpdate.context, true);
      !IsMiss(r) && r.contextUpdate.SetTo?
  {
    if button != "Volver" {
      assert button in Queries;
      assert HandleUserResponse(button, Context(Kind, None, None), true) == MenuStep(button, true);
      MenuStepMiss(button, true);
    }
  }

  /** Every career offered for choosing is found. */
  lemma OfferedCareerFound(name: string, corrected: bool)
    requires name in CarreraSelection().quickReplies.value && name != "Volver"
    ensures var r := HandleUserResponse(name, CarreraSelection().contextUpdate.context, corrected);
      !IsMiss(r) && r.contextUpdate == Reset
  {
    NamesListed();
    assert name !in Navigation(Some(Carrera));
    ValueIsLookedUp(name, Enter(Kind, Carrera), corrected);
  }

  /** Every subject offered for choosing is found. */
  lemma OfferedSubjectFound(name: string, corrected: bool)
    requires name in MateriaSelection().quickReplies.value && name != "Volver"
    ensures var r := HandleUserResponse(name, MateriaSelection().contextUpdate.context, corrected);
      !IsMiss(r) && r.contextUpdate == Reset
  {
    NamesListed();
    assert name !in Navigation(Some(Materia));
    ValueIsLookedUp(name, Enter(Kind, Materia), corrected);
  }

  /** Every procedure offered for choosing is found. */
  lemma OfferedProcedureFound(name: string, corrected: bool)
    requires name in TramiteSelection().quickReplies.value && name != "Volver"
    ensures var r := HandleUserResponse(name, TramiteSelection().contextUpdate.context, corrected);
      !IsMiss(r) && r.contextUpdate == Reset
  {
    NamesListed();
    assert name !in Navigation(Some(Tramite));
    ValueIsLookedUp(name, Enter(Kind, Tramite), corrected);
  }

  /** The fee quoted for a career is its fee in the table, read back as a number. */
  lemma FeeQuoted(k: nat)
    requires k < |Careers|
    ensures var c := Careers[k]; var t := CarreraFlow(c.name).text; var p := "💵 Arancel para " + c.name + ": $";
      StartsWith(t, p) && exists d :: StartsWith(t[|p|..], d) && AllDigits(d) && DigitsValue(d) == c.arancel
  {
    var c := Careers[k];
    var p := "💵 Arancel para " + c.name + ": $";
    var d := NatToString(c.arancel);
    assert CareerNamed(c.name).value == c;
    var t := CarreraFlow(c.name).text;
    assert t == p + d + " por mes\n\n" + Closing;
    assert t[|p|..][..|d|] == d;
    NatToStringRoundTrip(c.arancel);
  }
}
