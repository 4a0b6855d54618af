/** The chatbot's conversation state and replies: the context the chat hook
    keeps between two messages, and the reply every flow handler returns. */
module ChatTypes {
  import opened Wrappers
  import opened Strings

  /** The one search term a failed query leaves in `filters`, e.g. the key
      "materia" with the subject that was not found. */
  datatype Filter = Filter(key: string, value: string)

  /** The `type` of a `ChatContext`: "main-menu", "horarios", "precios" or
      "correlatividades". */
  datatype Kind = MainMenu | Horarios | Precios | Correlatividades

  /** The `flow` of a context: 'materia', 'profesor', 'día', 'carrera',
      'tramite' or 'nivel'. */
  datatype Flow = Materia | Profesor | Dia | Carrera | Tramite | Nivel

  /** A `ChatContext`: its type, its flow when it has one, and its `filters`. */
  datatype Context = Context(kind: Kind, flow: Option<Flow>, filter: Option<Filter>)

  /** `contextUpdate`: left out of the reply, `null`, or a new context. */
  datatype Update = NoUpdate | Reset | SetTo(context: Context)

  /** A `BotResponse`: the text shown, the quick-reply buttons when the reply
      names them, and the context update. */
  datatype Response = Response(text: string, quickReplies: Option<seq<string>>, contextUpdate: Update)

  /** The context a flow handler switches to. */
  function Enter(kind: Kind, flow: Flow): Context {
    Context(kind, Some(flow), None)
  }

  /** The context a failed query leaves behind: same flow, the term in `filters`. */
  function Remember(kind: Kind, flow: Flow, key: string, value: string): Context {
    Context(kind, Some(flow), Some(Filter(key, value)))
  }

  /** The reply every sub-flow gives to "Menú principal": no buttons of its
      own and a null context, so the hook shows the main menu again. */
  const BackToMainMenu: Response := Response("Volviendo al menú principal", Some([]), Reset)

  const NotFound := "No encontré"
  const Unrecognised := "Opción no reconocida"

  /** A reply telling the user that the query found nothing or that the
      option was not understood. */
  predicate IsMiss(r: Response) {
    StartsWith(r.text, NotFound) || StartsWith(r.text, Unrecognised)
  }

  /** A reply opening with either phrase is a miss. */
  lemma Missed(r: Response, opening: string)
    requires opening == NotFound || opening == Unrecognised
    requires StartsWith(r.text, opening)
    ensures IsMiss(r)
  {
  }

  /** A reply opening with any other letter is neither kind of miss. */
  lemma OtherOpening(r: Response)
    requires r.text != [] && r.text[0] != 'N' && r.text[0] != 'O'
    ensures !IsMiss(r)
  {
    assert r.text[..1] != NotFound[..1];
  }
}
