/** The course-map hook: loading and seeding the lamp states, the initial
    settle loop, and the click state machine with its diagnostics. */
module CorrelativasHook {
  import opened Wrappers
  import opened Seqs
  import opened Strings
  import opened Correlativas
  import opened CascadeProperties

  const ValidCarreras: seq<string> := ["sistemas", "redes", "contabilidad", "higiene"]

  /** The warning and highlight state the hook exposes next to the lamps. */
  datatype Diagnostic = Diagnostic(warningFor: Option<string>, highlightChain: seq<string>, missing: Option<Missing>,
                                   highlightedApproved: seq<string>, highlightedRegular: seq<string>)

  const NoDiagnostic := Diagnostic(None, [], None, [], [])

  /** The three resets at the start of a click. */
  function ClearWarning(d: Diagnostic): Diagnostic {
    d.(warningFor := None, highlightChain := [], missing := None)
  }

  /** `setWarningFor(subject); setHighlightChain(faltantes); setMissingCorrelativas(report)`. */
  function Warn(d: Diagnostic, subject: string, report: Missing): Diagnostic {
    d.(warningFor := Some(subject), highlightChain := report.faltantes, missing := Some(report))
  }

  /** `materias.find(m => m.materia === name)`. */
  function FindCourse(ms: seq<Course>, name: string): (r: Option<Course>)
    ensures r.None? <==> forall i :: 0 <= i < |ms| ==> ms[i].materia != name
    ensures r.Some? ==> r.value.materia == name && exists i :: 0 <= i < |ms| && ms[i] == r.value
  {
    if ms == [] then None
    else if ms[0].materia == name then Some(ms[0])
    else
      var r := FindCourse(ms[1..], name);
      assert r.Some? ==> exists i :: 0 <= i < |ms[1..]| && ms[1..][i] == r.value;
      assert r.None? ==> forall i :: 1 <= i < |ms| ==> ms[1..][i - 1] == ms[i];
      r
  }

  // ---------------------------------------------------------------------------
  // Loading

  lemma NamesSnoc(ms: seq<Course>, j: nat)
    requires j < |ms|
    ensures Names(ms[..j + 1]) == Names(ms[..j]) + {ms[j].materia}
  {
    assert forall i :: 0 <= i < j ==> ms[..j + 1][i] == ms[..j][i];
    assert ms[..j + 1][j] == ms[j];
  }

  /** The states a load seeds: course by course, the last course with a given
      name deciding its state. */
  function SeedMap(data: seq<Course>): States
    decreases |data|
  {
    if data == [] then map[]
    else SeedMap(data[..|data| - 1])[data[|data| - 1].materia := InitialState(data[|data| - 1])]
  }

  /** Exactly the loaded courses have a state, and it is "off" or "semi". */
  lemma {:induction false} SeedMapKeys(data: seq<Course>)
    ensures SeedMap(data).Keys == Names(data)
    ensures AllLow(SeedMap(data))
    decreases |data|
  {
    if data != [] {
      var n := |data| - 1;
      SeedMapKeys(data[..n]);
      NamesSnoc(data, n);
      assert data[..n + 1] == data;
    }
  }

  /** A course's state is "semi" when it has no prerequisites and "off"
      otherwise, decided by the last course of that name. */
  lemma {:induction false} SeedMapLastWins(data: seq<Course>, i: nat)
    requires i < |data| && forall k :: i < k < |data| ==> data[k].materia != data[i].materia
    ensures data[i].materia in SeedMap(data) && SeedMap(data)[data[i].materia] == InitialState(data[i])
    decreases |data|
  {
    var n := |data| - 1;
    var p := data[..n];
    assert SeedMap(data) == SeedMap(p)[data[n].materia := InitialState(data[n])];
    if i < n {
      assert p[i] == data[i];
      assert forall k :: i < k < |p| ==> p[k] == data[k];
      SeedMapLastWins(p, i);
    }
  }

  /** The seeding loop of the load. */
  method SeedStates(data: seq<Course>) returns (initialStates: States)
    ensures initialStates == SeedMap(data)
  {
    initialStates := map[];
    for j := 0 to |data|
      invariant initialStates == SeedMap(data[..j])
    {
      var m := data[j];
      var hasCorrelativas := |m.aprobadas| > 0 || |m.regularizadas| > 0;
      initialStates := initialStates[m.materia := if hasCorrelativas then Off else Semi];
      assert data[..j + 1][..j] == data[..j];
    }
    assert data[..|data|] == data;
  }

  // ---------------------------------------------------------------------------
  // The initial settle loop

  function RegularOrOnNames(st: States): set<string> {
    set n | n in st && IsRegularOrOn(st, n)
  }

  lemma LowWrite(st: States, k: string, v: LampState)
    requires k in st && (v == Off || v == Semi)
    ensures RegularOrOnNames(st[k := v]) == RegularOrOnNames(st) - {k}
  {
  }

  /** One settle step on a course whose state is off/semi keeps every course
      already visited in the pass stable. */
  lemma {:induction false} SettleStepKeepsStable(ms: seq<Course>, j: nat, before: States)
    requires j < |ms| && DistinctNames(ms) && Low(before, ms[j].materia)
    requires forall k :: 0 <= k < j ==> Stable(ms[k], before)
    ensures var after := before[ms[j].materia := Recompute(ms[j], before)];
            forall k :: 0 <= k <= j ==> Stable(ms[k], after)
  {
    var ns := Recompute(ms[j], before);
    var after := before[ms[j].materia := ns];
    forall k | 0 <= k <= j ensures Stable(ms[k], after) {
      SatisfiedLowUpdate(ms[k], before, ms[j].materia, ns);
      if k < j {
        assert ms[k].materia != ms[j].materia;
        assert Stable(ms[k], before);
      }
    }
  }

  /** The first `materias.forEach` of the settle effect: courses without a
      state get their initial one. */
  method SeedMissing(ms: seq<Course>, lampStates: States) returns (estados: States)
    ensures estados.Keys == lampStates.Keys + Names(ms)
    ensures forall n :: n in lampStates ==> estados[n] == lampStates[n]
    ensures forall n :: n in estados && n !in lampStates ==> estados[n] == Off || estados[n] == Semi
  {
    estados := lampStates;
    for i := 0 to |ms|
      invariant estados.Keys == lampStates.Keys + Names(ms[..i])
      invariant forall n :: n in lampStates ==> estados[n] == lampStates[n]
      invariant forall n :: n in estados && n !in lampStates ==> estados[n] == Off || estados[n] == Semi
    {
      var m := ms[i];
      if m.materia !in estados {
        estados := estados[m.materia := if |m.aprobadas| == 0 && |m.regularizadas| == 0 then Semi else Off];
      }
      NamesSnoc(ms, i);
    }
    assert ms[..|ms|] == ms;
  }

  /** One `materias.forEach` pass of the settle loop: each course in turn
      is recomputed against the map as it stands, which is `Pass`. A pass
      keeps the keys, never promotes, touches only the courses' own names,
      keeps an all-low map all low and can only demote; with distinct names,
      a pass that demotes no regular/on course leaves every course stable,
      and a pass over a stable map changes nothing. */
  method SettlePass(ms: seq<Course>, start: States) returns (estados: States, cambios: bool)
    requires Covered(ms, start)
    ensures estados == Pass(ms, start).0 && cambios == Pass(ms, start).1
    ensures estados.Keys == start.Keys
    ensures NoPromotion(start, estados)
    ensures forall n :: n in estados && n !in Names(ms) ==> estados[n] == start[n]
    ensures AllLow(start) ==> AllLow(estados)
    ensures RegularOrOnNames(estados) <= RegularOrOnNames(start)
    ensures DistinctNames(ms) && RegularOrOnNames(estados) == RegularOrOnNames(start) ==> AllStable(ms, estados)
    ensures !cambios ==> estados == start
    ensures AllStable(ms, start) ==> !cambios
  {
    estados := start;
    cambios := false;
    for j := 0 to |ms|
      invariant estados == Pass(ms[..j], start).0 && cambios == Pass(ms[..j], start).1
      invariant DistinctNames(ms) && RegularOrOnNames(estados) == RegularOrOnNames(start) ==> forall k :: 0 <= k < j ==> Stable(ms[k], estados)
    {
      PassStep(ms, j, start);
      var m := ms[j];
      var currentState := estados[m.materia];
      var newState := Recompute(m, estados);
      ghost var before := estados;
      if newState != currentState {
        estados := estados[m.materia := newState];
        cambios := true;
      }
      if DistinctNames(ms) {
        PassFacts(ms[..j], start);
        PassKeepsStable(ms, j, start, before, estados);
      }
    }
    assert ms[..|ms|] == ms;
    PassFacts(ms, start);
  }

  /** What every pass keeps, whether or not the names are distinct. */
  lemma {:induction false} PassFacts(ms: seq<Course>, st: States)
    requires Covered(ms, st)
    ensures var r := Pass(ms, st);
            NoPromotion(st, r.0) &&
            (forall n :: n in r.0 && n !in Names(ms) ==> r.0[n] == st[n]) &&
            (AllLow(st) ==> AllLow(r.0)) &&
            RegularOrOnNames(r.0) <= RegularOrOnNames(st) &&
            (AllStable(ms, st) ==> !r.1)
  {
    if ms != [] {
      var k := |ms| - 1;
      PassStep(ms, k, st);
      assert ms[..k + 1] == ms;
      NamesSnoc(ms, k);
      PassFacts(ms[..k], st);
      var prev := Pass(ms[..k], st);
      var ns := Recompute(ms[k], prev.0);
      if ns != prev.0[ms[k].materia] {
        NoPromotionTransitive(st, prev.0, prev.0[ms[k].materia := ns]);
      }
    }
  }

  /** The map and the change flag after one settle pass over `ms`, course by
      course in order; nothing here asks the names to be distinct. */
  function Pass(ms: seq<Course>, st: States): (r: (States, bool))
    requires Covered(ms, st)
    ensures r.0.Keys == st.Keys
    ensures !r.1 ==> r.0 == st
  {
    if ms == [] then (st, false)
    else
      var prev := Pass(ms[..|ms| - 1], st);
      var m := ms[|ms| - 1];
      var ns := Recompute(m, prev.0);
      if ns != prev.0[m.materia] then (prev.0[m.materia := ns], true) else prev
  }

  /** Extending a pass by one course recomputes that course once. */
  lemma PassStep(ms: seq<Course>, j: nat, st: States)
    requires Covered(ms, st) && j < |ms|
    ensures Covered(ms[..j], st) && Covered(ms[..j + 1], st)
    ensures var prev := Pass(ms[..j], st);
            var ns := Recompute(ms[j], prev.0);
            Pass(ms[..j + 1], st) == if ns != prev.0[ms[j].materia] then (prev.0[ms[j].materia := ns], true) else prev
  {
    assert ms[..j + 1][..j] == ms[..j];
  }

  /** A pass over two courses unfolds into two recomputations. */
  lemma PassTwo(a: Course, b: Course, st: States)
    requires a.materia in st && b.materia == a.materia
    ensures var ns := Recompute(a, st);
            var first := if ns != st[a.materia] then (st[a.materia := ns], true) else (st, false);
            var nb := Recompute(b, first.0);
            Pass([a, b], st) == if nb != first.0[b.materia] then (first.0[b.materia := nb], true) else first
  {
    assert [a, b][..1] == [a] && [a][..0] == [];
    assert Pass([], st) == (st, false);
    var ns := Recompute(a, st);
    assert Pass([a], st) == if ns != st[a.materia] then (st[a.materia := ns], true) else (st, false);
  }

  /** Two courses sharing the name "X": one needs "Y" regularised, the other
      needs nothing. */
  const Twins: seq<Course> := [Course("X", Num(1), Num(1), "", ["Y"], []), Course("X", Num(1), Num(1), "", [], [])]

  /** With the name twice in the list, the settle loop as written never ends:
      whichever low state "X" was seeded with, every pass first darkens it for
      the course whose prerequisite is missing, then lights it again for the
      twin without prerequisites, and reports a change. `cambios` is therefore
      true after every pass and the `while (cambios)` loop does not stop. */
  lemma {:induction false} TwinsNeverSettle(v: LampState)
    requires v == Off || v == Semi
    ensures Pass(Twins, map["X" := v]) == (map["X" := Semi], true)
    ensures Pass(Twins, map["X" := Semi]) == (map["X" := Semi], true)
    ensures !Stable(Twins[0], map["X" := Semi]) && !Stable(Twins[1], map["X" := Off])
  {
    var t0 := Twins[0];
    var t1 := Twins[1];
    var off: States := map["X" := Off];
    var semi: States := map["X" := Semi];
    assert Twins[..1] == [t0] && [t0][..0] == [];
    assert "Y" in t0.regularizadas && !IsRegularOrOn(off, "Y") && !IsRegularOrOn(semi, "Y");
    assert Recompute(t0, off) == Off && Recompute(t0, semi) == Off;
    assert Recompute(t1, off) == Semi;
    assert semi["X" := Off] == off && off["X" := Semi] == semi && Twins == [t0, t1];
    PassTwo(t0, t1, map["X" := v]);
    PassTwo(t0, t1, semi);
  }

  /** One course of a settle pass keeps the visited courses stable for as
      long as no regular/on course has been demoted. */
  lemma PassKeepsStable(ms: seq<Course>, j: nat, start: States, before: States, after: States)
    requires DistinctNames(ms) && j < |ms| && ms[j].materia in before
    requires var ns := Recompute(ms[j], before);
             after == if ns != before[ms[j].materia] then before[ms[j].materia := ns] else before
    requires RegularOrOnNames(before) <= RegularOrOnNames(start)
    requires RegularOrOnNames(before) == RegularOrOnNames(start) ==> forall k :: 0 <= k < j ==> Stable(ms[k], before)
    ensures RegularOrOnNames(after) <= RegularOrOnNames(start)
    ensures RegularOrOnNames(after) == RegularOrOnNames(start) ==> forall k :: 0 <= k < j + 1 ==> Stable(ms[k], after)
  {
    var ns := Recompute(ms[j], before);
    if ns != before[ms[j].materia] {
      LowWrite(before, ms[j].materia, ns);
      if RegularOrOnNames(after) == RegularOrOnNames(start) {
        assert RegularOrOnNames(before) == RegularOrOnNames(start);
        assert !IsRegularOrOn(before, ms[j].materia);
        SettleStepKeepsStable(ms, j, before);
      }
    } else {
      assert Stable(ms[j], before);
    }
  }

  /** The load-time effect before its cascade: seed the courses that have no
      state yet, then recompute every course in order until a whole pass
      changes nothing. */
  method SettleInitial(ms: seq<Course>, lampStates: States) returns (estados: States)
    requires DistinctNames(ms)
    ensures AllStable(ms, estados)
    ensures estados.Keys == lampStates.Keys + Names(ms)
    ensures NoPromotion(lampStates, estados)
    ensures forall n :: n in lampStates && n !in Names(ms) ==> estados[n] == lampStates[n]
    ensures AllLow(lampStates) ==> forall i :: 0 <= i < |ms| ==> estados[ms[i].materia] == InitialState(ms[i])
  {
    estados := SeedMissing(ms, lampStates);
    ghost var filled := estados;
    var cambios := true;
    while cambios
      invariant estados.Keys == filled.Keys
      invariant NoPromotion(lampStates, estados)
      invariant forall n :: n in estados && n !in Names(ms) ==> estados[n] == filled[n]
      invariant AllLow(lampStates) ==> AllLow(estados)
      invariant Covered(ms, estados)
      invariant !cambios ==> AllStable(ms, estados)
      decreases RegularOrOnNames(estados), (if cambios then 1 else 0) + (if AllStable(ms, estados) then 0 else 1)
    {
      ghost var start := estados;
      estados, cambios := SettlePass(ms, estados);
      NoPromotionTransitive(lampStates, start, estados);
    }
    if AllLow(lampStates) {
      StableLowIsInitial(ms, estados);
    }
  }

  /** A stable map with no regular/on course gives every course the state it
      starts in: "semi" exactly when it lists no prerequisite. */
  lemma StableLowIsInitial(ms: seq<Course>, st: States)
    requires AllLow(st) && AllStable(ms, st)
    ensures forall i :: 0 <= i < |ms| ==> st[ms[i].materia] == InitialState(ms[i])
  {
    forall i | 0 <= i < |ms| ensures st[ms[i].materia] == InitialState(ms[i]) {
      assert Stable(ms[i], st);
      assert Satisfied(ms[i], st) == NoPrerequisites(ms[i]) by {
        if !NoPrerequisites(ms[i]) {
          if ms[i].regularizadas != [] {
            assert !IsRegularOrOn(st, ms[i].regularizadas[0]);
          } else {
            assert !IsOn(st, ms[i].aprobadas[0]);
          }
        }
      }
    }
  }

  /** The settle effect's work: settle, then cascade from the first course
      as an initial update, which on the settled map changes nothing. */
  method SettleAndCascade(ms: seq<Course>, lampStates: States) returns (updated: States)
    requires DistinctNames(ms) && |ms| > 0
    ensures AllStable(ms, updated) && AllCoherent(ms, updated)
    ensures updated.Keys == lampStates.Keys + Names(ms)
    ensures NoPromotion(lampStates, updated)
    ensures AllLow(lampStates) ==> forall i :: 0 <= i < |ms| ==> updated[ms[i].materia] == InitialState(ms[i])
  {
    var estados := SettleInitial(ms, lampStates);
    var warning;
    updated, warning := CascadeUpdate(ms, estados, ms[0].materia, true);
    CascadeOnStable(ms, estados, ms[0].materia, true);
    forall i | 0 <= i < |ms| ensures Coherent(ms[i], updated) {
      assert Stable(ms[i], updated);
    }
  }

  // ---------------------------------------------------------------------------
  // The click state machine

  datatype ToggleResult = ToggleResult(lamps: States, diag: Diagnostic, found: bool)

  /** Commit `st` and cascade from `name`; the cascade's last warning, if any,
      becomes the diagnostic. */
  function Advance(ms: seq<Course>, st: States, name: string, d: Diagnostic): ToggleResult {
    var c := Cascade(ms, st, name, false);
    ToggleResult(c.states, if c.warning.Some? then Warn(d, c.warning.value.subject, c.warning.value.report) else d, true)
  }

  /** `setLampStates(updated); cascadeUpdate(updated, name)`: the cascade's
      result replaces the lamps and its last warning, if any, is shown. */
  method CommitAndCascade(ms: seq<Course>, updated: States, name: string, d: Diagnostic)
    returns (lamps: States, shown: Diagnostic)
    ensures ToggleResult(lamps, shown, true) == Advance(ms, updated, name, d)
  {
    var warning;
    lamps, warning := CascadeUpdate(ms, updated, name, false);
    shown := d;
    if warning.Some? {
      shown := Warn(d, warning.value.subject, warning.value.report);
    }
  }

  /** The body of `handleToggle(name)` past its guards: the lamps and the
      diagnostic it leaves, and whether the course was found (which starts
      the animation). */
  method Click(ms: seq<Course>, st: States, name: string, d: Diagnostic)
    returns (lamps: States, shown: Diagnostic, found: bool)
    ensures ToggleResult(lamps, shown, found) == Toggle(ms, st, name, d)
  {
    var cleared := ClearWarning(d);
    var materia := FindCourse(ms, name);
    if materia.None? {
      return st, cleared, false;
    }
    var m := materia.value;
    var currentState := if name in st then Some(st[name]) else None;
    var updated := st;
    var hasAllCorrelativas := Satisfied(m, updated);
    lamps, shown, found := st, cleared, true;
    if currentState == Some(Semi) && !hasAllCorrelativas {
      shown := Warn(cleared, name, MissingReport(m, updated));
    } else if currentState == Some(Off) && !hasAllCorrelativas {
      var report := MissingReport(m, updated);
      var regularesFaltantes := Filter(report.faltantes, f => f !in report.aprobadas);
      shown := Warn(cleared, name, report).(highlightedApproved := report.aprobadas,
                                            highlightedRegular := regularesFaltantes);
    } else {
      if currentState == Some(Semi) || currentState == Some(Off) {
        updated := updated[name := Regular];
      } else if currentState == Some(Regular) {
        updated := updated[name := On];
      } else if currentState == Some(On) {
        updated := updated[name := Semi];
      }
      assert updated == Clicked(st, name);
      lamps, shown := CommitAndCascade(ms, updated, name, cleared);
    }
  }

  /** A click that is refused: the course is semi or off and its
      prerequisites are not met. */
  predicate Refused(st: States, name: string, sat: bool) {
    !sat && name in st && (st[name] == Semi || st[name] == Off)
  }

  /** The map committed by an accepted click, before its cascade: semi or off
      becomes regular, regular becomes on, on becomes semi, and a course with
      no state is left alone. */
  function Clicked(st: States, name: string): (r: States)
    ensures r.Keys == st.Keys
    ensures forall n :: n in st && n != name ==> r[n] == st[n]
  {
    if name !in st then st
    else match st[name]
      case Semi => st[name := Regular]
      case Off => st[name := Regular]
      case Regular => st[name := On]
      case On => st[name := Semi]
  }

  /** `handleToggle(name)` once the animation and initialisation guards have
      passed. */
  function Toggle(ms: seq<Course>, st: States, name: string, d: Diagnostic): (r: ToggleResult)
    ensures r.found == FindCourse(ms, name).Some?
    ensures !r.found ==> r.lamps == st && r.diag == ClearWarning(d)
  {
    var cleared := ClearWarning(d);
    match FindCourse(ms, name)
    case None => ToggleResult(st, cleared, false)
    case Some(m) =>
      var sat := Satisfied(m, st);
      var report := MissingReport(m, st);
      if Refused(st, name, sat) then
        if st[name] == Semi then ToggleResult(st, Warn(cleared, name, report), true)
        else
          var regularesFaltantes := Filter(report.faltantes, f => f !in report.aprobadas);
          ToggleResult(st, Warn(cleared, name, report).(highlightedApproved := report.aprobadas,
                                                        highlightedRegular := regularesFaltantes), true)
      else Advance(ms, Clicked(st, name), name, cleared)
  }

  /** Changing the toggled course alone leaves every other course coherent or
      a dependent of it. */
  lemma ToggledCourseOnlyAffectsDependents(ms: seq<Course>, st: States, k: nat, v: LampState)
    requires k < |ms| && DistinctNames(ms) && AllCoherent(ms, st)
    requires Coherent(ms[k], st[ms[k].materia := v])
    ensures forall i :: 0 <= i < |ms| ==> Coherent(ms[i], st[ms[k].materia := v]) || Lists(ms[i], ms[k].materia)
  {
    forall i | 0 <= i < |ms| && !Lists(ms[i], ms[k].materia)
      ensures Coherent(ms[i], st[ms[k].materia := v])
    {
      if i != k {
        assert Coherent(ms[i], st);
        SatisfiedUnlisted(ms[i], st, ms[k].materia, v);
      }
    }
  }

  /** The click table: semi or off with prerequisites met becomes regular,
      regular becomes on, on becomes semi, and an unmet semi/off course stays
      as it is and only reports what is missing; every lamp stays coherent. */
  lemma ToggleTransitions(ms: seq<Course>, st: States, name: string, d: Diagnostic, rank: string -> nat)
    requires WellFormed(ms) && Acyclic(ms, rank) && Covered(ms, st) && AllCoherent(ms, st)
    requires FindCourse(ms, name).Some?
    ensures var m := FindCourse(ms, name).value;
            var sat := Satisfied(m, st);
            var report := MissingReport(m, st);
            var out := Toggle(ms, st, name, d);
            var before := StateOf(st, name);
            var after := StateOf(out.lamps, name);
            before.Some? && after.Some? && AllCoherent(ms, out.lamps) &&
            (before == Some(Semi) && sat ==> after == Some(Regular)) &&
            (before == Some(Off) && sat ==> after == Some(Regular)) &&
            (before == Some(Regular) ==> after == Some(On)) &&
            (before == Some(On) ==> after == Some(Semi)) &&
            ((before == Some(Semi) || before == Some(Off)) && !sat ==>
               out.lamps == st && out.diag.warningFor == Some(name) &&
               out.diag.highlightChain == report.faltantes && out.diag.missing == Some(report)) &&
            (before == Some(Off) && !sat ==>
               out.diag.highlightedApproved == report.aprobadas && out.diag.highlightedRegular == report.faltantes)
  {
    var m := FindCourse(ms, name).value;
    var k :| 0 <= k < |ms| && ms[k] == m;
    var sat := Satisfied(m, st);
    var report := MissingReport(m, st);
    assert name in st;
    assert !Lists(m, name) by {
      var mk := ms[k];
      assert Lists(mk, mk.materia) ==> rank(mk.materia) < rank(mk.materia);
    }
    var v := if st[name] == Regular then On else if st[name] == On then Semi else Regular;
    if !Refused(st, name, sat) {
      assert Clicked(st, name) == st[name := v];
      SatisfiedUnlisted(m, st, name, v);
      ToggledCourseOnlyAffectsDependents(ms, st, k, v);
      CascadeRestoresCoherence(ms, st[name := v], name, false, rank);
    } else if st[name] == Off {
      FilterKeepsAll(report.faltantes, f => f !in report.aprobadas);
    }
  }

  /** A click never raises another course to regular or on. */
  lemma ToggleNeverPromotesOthers(ms: seq<Course>, st: States, name: string, d: Diagnostic)
    ensures var out := Toggle(ms, st, name, d);
            (forall n :: n in st ==> n in out.lamps) &&
            (forall n :: n != name && IsRegularOrOn(out.lamps, n) ==> n in st && st[n] == out.lamps[n])
  {
    var out := Toggle(ms, st, name, d);
    match FindCourse(ms, name)
    case None =>
    case Some(m) =>
      if !Refused(st, name, Satisfied(m, st)) {
        CascadeFootprint(ms, Clicked(st, name), name, false);
      }
  }

  // ---------------------------------------------------------------------------
  // The hook's state

  class Hook {
    const carreraId: string
    var materias: seq<Course>
    var lampStates: States
    var diag: Diagnostic
    var loading: bool
    var error: Option<string>
    var isAnimating: bool
    var initialized: bool
    var isInitializing: bool

    constructor (carreraId: string)
      ensures this.carreraId == carreraId
      ensures materias == [] && lampStates == map[] && diag == NoDiagnostic
      ensures loading && error.None? && !isAnimating && !initialized && isInitializing
    {
      this.carreraId := carreraId;
      materias := [];
      lampStates := map[];
      diag := NoDiagnostic;
      loading := true;
      error := None;
      isAnimating := false;
      initialized := false;
      isInitializing := true;
    }

    /** The load effect. `data` is what reading the career's curriculum file
        gives: the records, or the message of the error it threw. An unknown
        career fails before the file is read. */
    method Load(data: Result<seq<Course>, string>)
      modifies this
      ensures !loading && isInitializing
      ensures carreraId !in ValidCarreras ==>
                error == Some("No se pudieron cargar las correlativas: Carrera no válida: " + carreraId) &&
                materias == old(materias) && lampStates == old(lampStates)
      ensures carreraId in ValidCarreras && data.Err? ==>
                error == Some("No se pudieron cargar las correlativas: " + data.error) &&
                materias == old(materias) && lampStates == old(lampStates)
      ensures carreraId in ValidCarreras && data.Ok? ==>
                error.None? && materias == data.value && lampStates == SeedMap(data.value)
      ensures diag == old(diag) && isAnimating == old(isAnimating) && initialized == old(initialized)
    {
      loading := true;
      error := None;
      isInitializing := true;
      if carreraId !in ValidCarreras {
        error := Some("No se pudieron cargar las correlativas: " + ("Carrera no válida: " + carreraId));
        assert "No se pudieron cargar las correlativas: " + ("Carrera no válida: " + carreraId)
            == "No se pudieron cargar las correlativas: Carrera no válida: " + carreraId;
      } else if data.Err? {
        error := Some("No se pudieron cargar las correlativas: " + data.error);
      } else {
        materias := data.value;
        lampStates := SeedStates(data.value);
      }
      loading := false;
    }

    /** The settle effect: runs once materias are loaded and the hook is
        initialising; it ends with a cascade flagged as initial, which on the
        settled map changes nothing. */
    method Initialize()
      requires DistinctNames(materias)
      modifies this
      ensures |old(materias)| == 0 || !old(isInitializing) ==>
                lampStates == old(lampStates) && isInitializing == old(isInitializing) && initialized == old(initialized) &&
                diag == old(diag)
      ensures |old(materias)| > 0 && old(isInitializing) ==>
                AllStable(materias, lampStates) && AllCoherent(materias, lampStates) &&
                lampStates.Keys == old(lampStates).Keys + Names(materias) &&
                NoPromotion(old(lampStates), lampStates) &&
                (AllLow(old(lampStates)) ==> forall i :: 0 <= i < |materias| ==> lampStates[materias[i].materia] == InitialState(materias[i])) &&
                !isInitializing && initialized && diag == old(diag).(missing := None)
      ensures materias == old(materias) && error == old(error) && loading == old(loading) && isAnimating == old(isAnimating)
    {
      if |materias| == 0 || !isInitializing {
        return;
      }
      var updated := SettleAndCascade(materias, lampStates);
      lampStates := updated;
      diag := diag.(missing := None);
      isInitializing := false;
      initialized := true;
    }

    /** `handleToggle(name)`: ignored while animating or before initialisation,
        otherwise the click table above, plus the start of the animation for a
        known course. */
    method HandleToggle(name: string)
      modifies this
      ensures old(isAnimating) || !old(initialized) ==>
                lampStates == old(lampStates) && diag == old(diag) && isAnimating == old(isAnimating)
      ensures !old(isAnimating) && old(initialized) ==>
                var t := Toggle(old(materias), old(lampStates), name, old(diag));
                lampStates == t.lamps && diag == t.diag && isAnimating == t.found
      ensures materias == old(materias) && initialized == old(initialized) && isInitializing == old(isInitializing)
      ensures error == old(error) && loading == old(loading)
    {
      if isAnimating || !initialized {
        return;
      }
      var lamps, shown, found := Click(materias, lampStates, name, diag);
      lampStates, diag, isAnimating := lamps, shown, found;
    }

    /** The animation timer firing: clicks are accepted again. */
    method AnimationEnds()
      modifies this
      ensures !isAnimating
      ensures materias == old(materias) && lampStates == old(lampStates) && diag == old(diag)
      ensures initialized == old(initialized) && isInitializing == old(isInitializing)
      ensures error == old(error) && loading == old(loading)
    {
      isAnimating := false;
    }

    /** A warning timer of a blocked click firing. The 3000 ms timer of the
        "semi" path clears the warning, the highlighted chain and the missing
        report; the 4000 ms timer of the "off" path also clears the approved
        and regular highlights. Neither timer is ever cancelled, so one left by
        an earlier click clears whatever warning shows when it fires. */
    method WarningExpires(offPath: bool)
      modifies this
      ensures diag.warningFor.None? && diag.highlightChain == [] && diag.missing.None?
      ensures offPath ==> diag == NoDiagnostic
      ensures !offPath ==> diag.highlightedApproved == old(diag.highlightedApproved) &&
                           diag.highlightedRegular == old(diag.highlightedRegular)
      ensures materias == old(materias) && lampStates == old(lampStates) && isAnimating == old(isAnimating)
      ensures initialized == old(initialized) && isInitializing == old(isInitializing)
      ensures error == old(error) && loading == old(loading)
    {
      diag := ClearWarning(diag);
      if offPath {
        diag := diag.(highlightedApproved := [], highlightedRegular := []);
      }
    }
  }
}
