/** The two-state course map component: loading, the click handler with its
    blocked-course diagnostics, and the timers that end each animation. */
module LampBoard {
  import opened Wrappers
  import opened Strings
  import opened Grouping
  import opened LampEngine

  /** `getCarreraName`: the display name of a career, or the id itself. */
  function CarreraName(id: string): string {
    if id == "sistemas" then "Analista en Sistemas"
    else if id == "redes" then "Redes y Comunicación"
    else if id == "contabilidad" then "Contabilidad"
    else id
  }

  /** Where a course is drawn in the year/term grid. */
  function Place(m: Course): Placement {
    Placement(m.anio, m.cuatrimestre, m.tipo)
  }

  lemma NamesSnoc(ms: seq<Course>, j: nat)
    requires j < |ms|
    ensures Names(ms[..j + 1]) == Names(ms[..j]) + {ms[j].materia}
  {
    assert forall i :: 0 <= i < j ==> ms[..j + 1][i] == ms[..j][i];
    assert ms[..j + 1][j] == ms[j];
  }

  /** The initial lamps of a load: every loaded course lit, nothing else. */
  method LightAll(data: seq<Course>) returns (st: Lamps)
    ensures st.Keys == Names(data)
    ensures forall n :: n in st ==> st[n]
  {
    st := map[];
    for j := 0 to |data|
      invariant st.Keys == Names(data[..j])
      invariant forall n :: n in st ==> st[n]
    {
      st := st[data[j].materia := true];
      NamesSnoc(data, j);
    }
    assert data[..|data|] == data;
  }

  /** Maps that agree on every entry are equal. */
  lemma EntryExt(a: Lamps, b: Lamps)
    requires forall k :: Entry(a, k) == Entry(b, k)
    ensures a == b
  {
    assert a.Keys == b.Keys by {
      forall k ensures k in a <==> k in b {
        assert Entry(a, k) == Entry(b, k);
      }
    }
    forall k | k in a ensures a[k] == b[k] {
      assert Entry(a, k) == Entry(b, k);
    }
  }

  /** A click on a course that is not blocked, from a consistent map, starts
      a propagation that can restore consistency. */
  lemma ToggleStartRepairable(ms: seq<Course>, st: Lamps, m: Course, v: bool)
    requires DistinctNames(ms) && m in ms
    requires Consistent(ms, st) && !Blocked(m, st) && v == !Lit(st, m.materia)
    ensures RepairableFrom(ms, st[m.materia := v], m.materia, v)
  {
    var start := st[m.materia := v];
    var name := m.materia;
    if v {
      forall i, d | 0 <= i < |ms| && Lit(start, ms[i].materia) && d in ms[i].correlativas ensures Lit(start, d) {
        if ms[i].materia != name {
          assert Lit(st, ms[i].materia);
        } else {
          var j :| 0 <= j < |ms| && ms[j] == m;
          assert ms[i] == m;
          assert !Lit(st, d) ==> d == name;
        }
      }
    }
  }

  // ---------------------------------------------------------------------------
  // Relighting: the propagation as written and with the prerequisite check

  /** "C" needs "A" and "B"; all three are dark, and "A" is lit again. */
  function RelightCourses(): seq<Course> {
    [Course("A", Num(1), Num(1), "Cuat", []),
     Course("B", Num(1), Num(1), "Cuat", []),
     Course("C", Num(2), Num(1), "Cuat", ["A", "B"])]
  }

  const RelightBefore: Lamps := map["A" := false, "B" := false, "C" := false]

  /** The dependents the relighting example sees: "C" under "A", nothing
      under "C". */
  lemma RelightDependents(ms: seq<Course>, dm: map<string, seq<string>>)
    requires ms == RelightCourses() && forall p :: DepsLookup(dm, p) == DependentsOf(ms, p)
    ensures DepsLookup(dm, "A") == ["C"]
    ensures DepsLookup(dm, "C") == []
  {
    assert DepsLookup(dm, "A") == DependentsOf(ms, "A");
    assert DepsLookup(dm, "C") == DependentsOf(ms, "C");
    RelightDependentsOf(ms);
  }

  lemma RelightDependentsOf(ms: seq<Course>)
    requires ms == RelightCourses()
    ensures DependentsOf(ms, "A") == ["C"]
    ensures DependentsOf(ms, "C") == []
  {
    var cs := ms[2].correlativas;
    assert cs == ["A", "B"];
    assert cs[..1] == ["A"] && cs[..1][..0] == [];
    assert Pushes(cs, "A", "C") == ["C"];
    assert Pushes(cs, "C", "C") == [];
    var ab := ms[..2];
    assert ab[..1][..0] == [] && ab[1].correlativas == [] && ab[..1][0].correlativas == [];
    assert DependentsOf(ab[..1], "A") == [] && DependentsOf(ab[..1], "C") == [];
    assert DependentsOf(ab, "A") == [] && DependentsOf(ab, "C") == [];
  }

  /** Whatever the propagation lights from "A", "B" stays dark: no closed set
      from "A" needs it. */
  lemma RelightLeavesB(dm: map<string, seq<string>>, after: Lamps)
    requires forall p :: DepsLookup(dm, p) == DependentsOf(RelightCourses(), p)
    requires Least(dm, RelightBefore["A" := true], "A", true, after)
    ensures !Lit(after, "B")
  {
    var start := RelightBefore["A" := true];
    RelightDependents(RelightCourses(), dm);
    var s: set<string> := {"A", "C"};
    assert ClosedFrom(dm, start, "A", true, s) by {
      forall p, d | p in s && d in DepsLookup(dm, p) ensures d in s {
        if p == "A" {
          assert d == "C";
        }
      }
    }
    assert Entry(after, "B") == Entry(start, "B");
  }

  /** Before the click every lamp is dark, which is consistent. */
  lemma RelightBeforeConsistent()
    ensures Consistent(RelightCourses(), RelightBefore)
  {
    var ms := RelightCourses();
    forall i | 0 <= i < |ms| ensures !Lit(RelightBefore, ms[i].materia) {
      assert ms[i].materia in {"A", "B", "C"};
    }
  }

  /** Relighting "A" with the propagation as written lights "C" although its
      other prerequisite "B" is dark, so the map is no longer consistent. */
  method RelightAsWritten() returns (after: Lamps)
    ensures Consistent(RelightCourses(), RelightBefore)
    ensures Lit(after, "A") && Lit(after, "C") && !Lit(after, "B")
    ensures !Consistent(RelightCourses(), after)
  {
    var ms := RelightCourses();
    var dm := DependentsMap(ms);
    after := Propagate(ms, dm, RelightBefore["A" := true], "A", true, false);
    RelightDependents(ms, dm);
    RelightLeavesB(dm, after);
    RelightBeforeConsistent();
    assert IsSource(RelightBefore["A" := true], after, "A", "A");
    assert Entry(after, "C") == Some(true);
    assert Lit(after, ms[2].materia) && "B" in ms[2].correlativas;
  }

  /** With the prerequisite check the same click lights only "A". */
  method RelightChecked() returns (after: Lamps)
    ensures Lit(after, "A") && !Lit(after, "B") && !Lit(after, "C")
    ensures Consistent(RelightCourses(), after)
  {
    var ms := RelightCourses();
    var dm := DependentsMap(ms);
    after := Propagate(ms, dm, RelightBefore["A" := true], "A", true, true);
    RelightLeavesB(dm, after);
    assert "B" in ms[2].correlativas;
  }

  /** The unblocked click before any lamp is written, as the component does
      it: the course flips and the flip spreads to every dependent of what
      changed, whatever the dependent's other prerequisites. Every changed
      lamp takes the new value, and darkening keeps a consistent map with
      distinct names consistent. */
  method Flip(ms: seq<Course>, st: Lamps, name: string, m: Course) returns (updated: Lamps)
    requires FindMateria(ms, name) == Some(m) && !Blocked(m, st)
    ensures var v := !Lit(st, name);
            var start := st[name := v];
            Entry(updated, name) == Some(v) && OnlySets(start, updated, v) && LeastOver(ms, start, name, v, updated) &&
            (forall p, d :: IsSource(start, updated, name, p) && d in DependentsOf(ms, p) ==>
                              Entry(updated, d) == Some(v)) &&
            (!v && DistinctNames(ms) && Consistent(ms, st) ==> Consistent(ms, updated))
  {
    var newState := !Lit(st, name);
    var start := st[name := newState];
    var dm := DependentsMap(ms);
    if DistinctNames(ms) && Consistent(ms, st) {
      ToggleStartRepairable(ms, st, m, newState);
    }
    updated := Propagate(ms, dm, start, name, newState, false);
    LeastOverMemo(ms, dm, start, name, newState, updated);
    forall p, d | IsSource(start, updated, name, p) && d in DependentsOf(ms, p) ensures Entry(updated, d) == Some(newState) {
      assert d in DepsLookup(dm, p);
    }
  }

  /** The same click with the prerequisite check the relighting needs: a
      dependent is lit only when its prerequisites are, so a consistent map
      with distinct names stays consistent whichever way the course flips. */
  method FlipChecked(ms: seq<Course>, st: Lamps, name: string, m: Course) returns (updated: Lamps)
    requires FindMateria(ms, name) == Some(m) && !Blocked(m, st)
    ensures var v := !Lit(st, name);
            var start := st[name := v];
            Entry(updated, name) == Some(v) && OnlySets(start, updated, v) && LeastOver(ms, start, name, v, updated) &&
            (!v ==> forall p, d :: IsSource(start, updated, name, p) && d in DependentsOf(ms, p) ==>
                                     Entry(updated, d) == Some(false)) &&
            (v ==> (forall k :: Entry(updated, k) != Entry(start, k) ==> CanLight(ms, updated, k)) &&
                   forall p, d :: IsSource(start, updated, name, p) && d in DependentsOf(ms, p) && CanLight(ms, updated, d) ==>
                                    Lit(updated, d)) &&
            (DistinctNames(ms) && Consistent(ms, st) ==> Consistent(ms, updated))
  {
    var newState := !Lit(st, name);
    var start := st[name := newState];
    var dm := DependentsMap(ms);
    if DistinctNames(ms) && Consistent(ms, st) {
      ToggleStartRepairable(ms, st, m, newState);
    }
    updated := Propagate(ms, dm, start, name, newState, true);
    LeastOverMemo(ms, dm, start, name, newState, updated);
    if newState {
      forall p, d | IsSource(start, updated, name, p) && d in DependentsOf(ms, p) && CanLight(ms, updated, d)
        ensures Lit(updated, d)
      {
        assert d in DepsLookup(dm, p);
      }
    }
  }

  // ---------------------------------------------------------------------------
  // The component's state

  class Board {
    const carreraId: string
    var materias: seq<Course>
    var lampStates: Lamps
    var warningFor: Option<string>
    var highlightChain: seq<string>
    var rootDependency: Option<string>
    var loading: bool
    var error: Option<string>
    var isAnimating: bool

    constructor (carreraId: string)
      ensures this.carreraId == carreraId
      ensures materias == [] && lampStates == map[] && warningFor.None? && highlightChain == [] && rootDependency.None?
      ensures loading && error.None? && !isAnimating
    {
      this.carreraId := carreraId;
      materias := [];
      lampStates := map[];
      warningFor := None;
      highlightChain := [];
      rootDependency := None;
      loading := true;
      error := None;
      isAnimating := false;
    }

    /** The load effect. `data` is what reading the career's curriculum file
        gives: the records, or the error it threw. Every loaded course starts
        lit. */
    method Load(data: Result<seq<Course>, string>)
      modifies this
      ensures !loading
      ensures data.Err? ==>
                error == Some("No se pudieron cargar las correlativas para " + CarreraName(carreraId)) &&
                materias == old(materias) && lampStates == old(lampStates)
      ensures data.Ok? ==>
                error.None? && materias == data.value &&
                lampStates.Keys == Names(data.value) && forall n :: n in lampStates ==> lampStates[n]
      ensures warningFor == old(warningFor) && highlightChain == old(highlightChain)
      ensures rootDependency == old(rootDependency) && isAnimating == old(isAnimating)
    {
      loading := true;
      error := None;
      if data.Err? {
        error := Some("No se pudieron cargar las correlativas para " + CarreraName(carreraId));
      } else {
        materias := data.value;
        lampStates := LightAll(data.value);
      }
      loading := false;
    }

    /** `handleToggle(name)`. Ignored while animating and for an unknown name.
        A blocked course changes no lamp: it is named in the warning and, when
        a root is found, the root and the course are highlighted. Otherwise
        the course flips and the flip spreads to every dependent of what
        changed, a relit dependent included even when another of its
        prerequisites is dark; darkening ends once the turn-off sequence has
        run, and from a consistent map with distinct names it keeps the map
        consistent. */
    method HandleToggle(name: string)
      modifies this
      ensures old(isAnimating) || FindMateria(old(materias), name).None? ==>
                lampStates == old(lampStates) && warningFor == old(warningFor) &&
                highlightChain == old(highlightChain) && rootDependency == old(rootDependency) &&
                isAnimating == old(isAnimating)
      ensures !old(isAnimating) && FindMateria(old(materias), name).Some? &&
              Blocked(FindMateria(old(materias), name).value, old(lampStates)) ==>
                lampStates == old(lampStates) && warningFor == Some(name) &&
                ((highlightChain == old(highlightChain) && rootDependency == old(rootDependency) &&
                  isAnimating == old(isAnimating)) ||
                 (|highlightChain| == 2 && highlightChain[1] == name && rootDependency == Some(highlightChain[0]) &&
                  !Lit(lampStates, highlightChain[0]) && Settled(materias, lampStates, highlightChain[0]) &&
                  DarkPath(materias, lampStates, name, highlightChain[0]) && isAnimating)) &&
                (AcyclicGraph(materias) ==> |highlightChain| == 2 && isAnimating)
      ensures !old(isAnimating) && FindMateria(old(materias), name).Some? &&
              !Blocked(FindMateria(old(materias), name).value, old(lampStates)) ==>
                var v := !Lit(old(lampStates), name);
                var start := old(lampStates)[name := v];
                isAnimating && Entry(lampStates, name) == Some(v) && OnlySets(start, lampStates, v) &&
                LeastOver(materias, start, name, v, lampStates) &&
                (forall p, d :: IsSource(start, lampStates, name, p) && d in DependentsOf(materias, p) ==>
                                  Entry(lampStates, d) == Some(v)) &&
                (!v && DistinctNames(materias) && Consistent(materias, old(lampStates)) ==> Consistent(materias, lampStates)) &&
                warningFor == old(warningFor) && highlightChain == old(highlightChain) &&
                rootDependency == old(rootDependency)
      ensures materias == old(materias) && loading == old(loading) && error == old(error)
    {
      if isAnimating {
        return;
      }
      var materia := FindMateria(materias, name);
      if materia.None? {
        return;
      }
      if Blocked(materia.value, lampStates) {
        warningFor := Some(name);
        var chain := BuildDependencyChain(materias, lampStates, name);
        if |chain| > 0 {
          highlightChain := chain;
          rootDependency := Some(chain[0]);
          isAnimating := true;
        }
        return;
      }
      var newState := !Lit(lampStates, name);
      var start := lampStates[name := newState];
      var updated := Flip(materias, lampStates, name, materia.value);
      isAnimating := true;
      if newState {
        lampStates := updated;
      } else {
        var toTurnOff := set k | k in updated && !updated[k];
        ghost var before := lampStates;
        TurnOffInSequence(toTurnOff);
        forall k ensures Entry(lampStates, k) == Entry(updated, k) {
          if k != name && k !in toTurnOff {
            assert Entry(updated, k) == Entry(start, k);
          }
        }
        EntryExt(lampStates, updated);
      }
    }

    /** `apagarEnSecuencia(subjects)`: one timer per subject, each darkening
        its lamp; the animation stays on until the last one. */
    method TurnOffInSequence(subjects: set<string>)
      modifies this`lampStates, this`isAnimating
      ensures isAnimating
      ensures forall k :: Entry(lampStates, k) == if k in subjects then Some(false) else Entry(old(lampStates), k)
    {
      isAnimating := true;
      var remaining := subjects;
      while remaining != {}
        invariant remaining <= subjects && isAnimating
        invariant forall k :: Entry(lampStates, k) ==
                    if k in subjects - remaining then Some(false) else Entry(old(lampStates), k)
        decreases remaining
      {
        var subject :| subject in remaining;
        lampStates := lampStates[subject := false];
        assert subjects - (remaining - {subject}) == (subjects - remaining) + {subject};
        remaining := remaining - {subject};
      }
    }

    /** The timer after a blocked click: the highlight goes and clicks are
        accepted again. */
    method HighlightExpires()
      modifies this
      ensures highlightChain == [] && rootDependency.None? && !isAnimating
      ensures materias == old(materias) && lampStates == old(lampStates) && warningFor == old(warningFor)
      ensures loading == old(loading) && error == old(error)
    {
      highlightChain := [];
      rootDependency := None;
      isAnimating := false;
    }

    /** The timer after lighting, or after the last lamp of a turn-off
        sequence: clicks are accepted again. */
    method AnimationEnds()
      modifies this
      ensures !isAnimating
      ensures materias == old(materias) && lampStates == old(lampStates) && warningFor == old(warningFor)
      ensures highlightChain == old(highlightChain) && rootDependency == old(rootDependency)
      ensures loading == old(loading) && error == old(error)
    {
      isAnimating := false;
    }

    /** The `groupedByYear` memo: the loaded courses by year, then by term
        column. */
    method GroupedByYear() returns (g: seq<YearGroup<Course>>)
      ensures g == GroupSpec(materias, Place)
      ensures GroupedBy(materias, Place, g) && Count(g) == |materias|
    {
      g := GroupByYear(materias, Place);
    }
  }
}
