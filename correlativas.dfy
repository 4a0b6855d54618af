/** The four-state prerequisite engine behind the course map: every course
    carries a lamp state, a course may be taken once its prerequisites are
    met, and a change to one course spreads to the courses that list it. */
module Correlativas {
  import opened Wrappers
  import opened Seqs
  import opened Strings

  /** "off" = locked, "semi" = may be taken, "regular" = passed the coursework,
      "on" = passed the final exam. */
  datatype LampState = Off | Semi | Regular | On

  /** A curriculum record with its two prerequisite lists: `regularizadas`
      must be regular or on, `aprobadas` must be on. */
  datatype Course = Course(materia: string, anio: JsNumber, cuatrimestre: JsNumber, tipo: string,
                           regularizadas: seq<string>, aprobadas: seq<string>)

  /** The lamp-state record, keyed by course name; a missing key is `undefined`. */
  type States = map<string, LampState>

  /** `estados[n]`, with `None` for `undefined`. */
  function StateOf(st: States, n: string): Option<LampState> {
    if n in st then Some(st[n]) else None
  }

  predicate IsRegularOrOn(st: States, d: string) {
    d in st && (st[d] == Regular || st[d] == On)
  }

  predicate IsOn(st: States, d: string) {
    d in st && st[d] == On
  }

  /** A lamp that is "off" or "semi": the two states that satisfy no prerequisite. */
  predicate Low(st: States, d: string) {
    d in st && (st[d] == Off || st[d] == Semi)
  }

  predicate AllLow(st: States) {
    forall n :: n in st ==> st[n] == Off || st[n] == Semi
  }

  /** `tieneCorrelativasCumplidas`. */
  predicate Satisfied(m: Course, st: States) {
    (forall d :: d in m.regularizadas ==> IsRegularOrOn(st, d)) &&
    (forall d :: d in m.aprobadas ==> IsOn(st, d))
  }

  predicate NoPrerequisites(m: Course) {
    m.regularizadas == [] && m.aprobadas == []
  }

  /** `m` names `d` in either prerequisite list. */
  predicate Lists(m: Course, d: string) {
    d in m.regularizadas || d in m.aprobadas
  }

  function Names(ms: seq<Course>): set<string> {
    set i | 0 <= i < |ms| :: ms[i].materia
  }

  predicate DistinctNames(ms: seq<Course>) {
    forall i, j :: 0 <= i < j < |ms| ==> ms[i].materia != ms[j].materia
  }

  /** No course lists the empty name, which the cascade skips as falsy. */
  predicate NoBlankPrerequisite(ms: seq<Course>) {
    forall i :: 0 <= i < |ms| ==> !Lists(ms[i], "")
  }

  /** The prerequisite graph is acyclic: `rank` strictly grows along every edge. */
  ghost predicate Acyclic(ms: seq<Course>, rank: string -> nat) {
    forall i, d :: 0 <= i < |ms| && Lists(ms[i], d) ==> rank(d) < rank(ms[i].materia)
  }

  /** Every course has a lamp state. */
  predicate Covered(ms: seq<Course>, st: States) {
    forall i :: 0 <= i < |ms| ==> ms[i].materia in st
  }

  // ---------------------------------------------------------------------------
  // Missing-prerequisite report

  /** `{ faltantes, aprobadas }` of `obtenerCorrelativasFaltantes`. */
  datatype Missing = Missing(faltantes: seq<string>, aprobadas: seq<string>)

  /** Unmet regular prerequisites followed by unmet approval prerequisites, and
      the approval prerequisites already met. */
  function MissingReport(m: Course, st: States): (r: Missing)
    ensures forall d :: d in r.faltantes <==>
              (d in m.regularizadas && !IsRegularOrOn(st, d)) || (d in m.aprobadas && !IsOn(st, d))
    ensures (r.faltantes == []) == Satisfied(m, st)
    ensures forall d :: d in r.aprobadas <==> d in m.aprobadas && IsOn(st, d)
    ensures forall d :: d in r.faltantes ==> d !in r.aprobadas
    ensures |r.faltantes| <= |m.regularizadas| + |m.aprobadas|
  {
    var unmetRegular := Filter(m.regularizadas, d => !IsRegularOrOn(st, d));
    var unmetApproved := Filter(m.aprobadas, d => !IsOn(st, d));
    FilterEmpty(m.regularizadas, d => !IsRegularOrOn(st, d));
    FilterEmpty(m.aprobadas, d => !IsOn(st, d));
    Missing(unmetRegular + unmetApproved, Filter(m.aprobadas, d => IsOn(st, d)))
  }

  // ---------------------------------------------------------------------------
  // One recomputation

  /** The new state the cascade and the settle loop give a course. */
  function Recompute(m: Course, st: States): (r: LampState)
    // never promotes
    ensures (r == Regular || r == On) ==> m.materia in st && st[m.materia] == r
    // a regular/on course keeps its state while satisfied and otherwise drops to "semi", never to "off"
    ensures IsRegularOrOn(st, m.materia) ==> r == (if Satisfied(m, st) then st[m.materia] else Semi)
    // an off/semi (or stateless) course becomes "semi" when satisfied and "off" otherwise
    ensures !IsRegularOrOn(st, m.materia) ==> r == (if Satisfied(m, st) then Semi else Off)
  {
    if IsRegularOrOn(st, m.materia) then (if Satisfied(m, st) then st[m.materia] else Semi)
    else if Satisfied(m, st) then Semi else Off
  }

  /** The course state agrees with its prerequisites: regular/on only when they
      are met, off only when they are not. */
  predicate Coherent(m: Course, st: States) {
    m.materia in st &&
    (IsRegularOrOn(st, m.materia) ==> Satisfied(m, st)) &&
    (st[m.materia] == Off ==> !Satisfied(m, st))
  }

  predicate AllCoherent(ms: seq<Course>, st: States) {
    forall i :: 0 <= i < |ms| ==> Coherent(ms[i], st)
  }

  /** Recomputing the course would not change it. */
  predicate Stable(m: Course, st: States) {
    m.materia in st && st[m.materia] == Recompute(m, st)
  }

  predicate AllStable(ms: seq<Course>, st: States) {
    forall i :: 0 <= i < |ms| ==> Stable(ms[i], st)
  }

  /** The state a freshly loaded course starts in. */
  function InitialState(m: Course): LampState {
    if NoPrerequisites(m) then Semi else Off
  }

  // ---------------------------------------------------------------------------
  // The cascade, as a function

  /** The last warning the cascade raised: the course and its report. */
  datatype Warning = Warning(subject: string, report: Missing)

  /** The cascade's working state: the map being updated, the queue, the
      courses already dequeued and processed (the visited set, in order), and
      the last warning. */
  datatype Run = Run(states: States, queue: seq<string>, done: seq<string>, warning: Option<Warning>)

  /** A course of the pass rewritten: its recomputed state stored, its name
      queued and, outside the initial run, a warning kept when it drops to
      "semi" with something missing. */
  function Rewrite(m: Course, r: Run, initial: bool): (next: Run)
    ensures next.done == r.done && next.queue == r.queue + [m.materia]
  {
    var ns := Recompute(m, r.states);
    var st := r.states[m.materia := ns];
    var rep := MissingReport(m, st);
    var w := if !initial && ns == Semi && rep.faltantes != [] then Some(Warning(m.materia, rep)) else r.warning;
    Run(st, r.queue + [m.materia], r.done, w)
  }

  /** `materias.forEach` for the dequeued course `current`, from position `j` on. */
  function Sweep(ms: seq<Course>, j: nat, current: string, r: Run, initial: bool): (out: Run)
    requires j <= |ms|
    ensures out.done == r.done
    ensures |out.queue| >= |r.queue| && out.queue[..|r.queue|] == r.queue
    decreases |ms| - j
  {
    if j == |ms| then r
    else
      var m := ms[j];
      if Lists(m, current) && (m.materia !in r.states || r.states[m.materia] != Recompute(m, r.states)) then
        var next := Rewrite(m, r, initial);
        var out := Sweep(ms, j + 1, current, next, initial);
        assert next.queue[..|r.queue|] == r.queue;
        PrefixOfPrefix(r.queue, next.queue, out.queue);
        out
      else
        Sweep(ms, j + 1, current, r, initial)
  }

  /** Every entry of `q` from position `n` on names a loaded course. */
  predicate QueuedFrom(ms: seq<Course>, q: seq<string>, n: nat) {
    forall k :: n <= k < |q| ==> q[k] in Names(ms)
  }

  /** The pass queues only loaded courses. */
  lemma {:induction false} SweepQueuesNames(ms: seq<Course>, j: nat, current: string, r: Run, initial: bool)
    requires j <= |ms|
    ensures QueuedFrom(ms, Sweep(ms, j, current, r, initial).queue, |r.queue|)
    decreases |ms| - j
  {
    if j < |ms| {
      var m := ms[j];
      if Lists(m, current) && (m.materia !in r.states || r.states[m.materia] != Recompute(m, r.states)) {
        var next := Rewrite(m, r, initial);
        SweepQueuesNames(ms, j + 1, current, next, initial);
        var out := Sweep(ms, j + 1, current, next, initial);
        assert Sweep(ms, j, current, r, initial) == out;
        forall k | |r.queue| <= k < |out.queue| ensures out.queue[k] in Names(ms) {
          if k == |r.queue| {
            assert out.queue[..|next.queue|][k] == next.queue[k] == m.materia;
          } else {
            assert QueuedFrom(ms, out.queue, |next.queue|);
          }
        }
      } else {
        SweepQueuesNames(ms, j + 1, current, r, initial);
        assert Sweep(ms, j, current, r, initial) == Sweep(ms, j + 1, current, r, initial);
      }
    }
  }

  /** The `while (queue.length > 0)` loop. */
  function Drain(ms: seq<Course>, r: Run, initial: bool): (out: Run)
    ensures out.queue == []
    decreases Names(ms) + Elems(r.queue) - Elems(r.done), |r.queue|
  {
    if r.queue == [] then r
    else
      var current := r.queue[0];
      var rest := r.(queue := r.queue[1..]);
      if current == "" || current in r.done then
        assert Elems(rest.queue) <= Elems(r.queue);
        Drain(ms, rest, initial)
      else
        var next := Sweep(ms, 0, current, rest.(done := r.done + [current]), initial);
        SweepQueuesNames(ms, 0, current, rest.(done := r.done + [current]), initial);
        DrainMeasureShrinks(ms, r, next);
        Drain(ms, next, initial)
  }

  lemma DrainMeasureShrinks(ms: seq<Course>, r: Run, next: Run)
    requires r.queue != [] && r.queue[0] !in r.done
    requires next.done == r.done + [r.queue[0]]
    requires |next.queue| >= |r.queue| - 1 && next.queue[..|r.queue| - 1] == r.queue[1..]
    requires QueuedFrom(ms, next.queue, |r.queue| - 1)
    ensures Names(ms) + Elems(next.queue) - Elems(next.done) < Names(ms) + Elems(r.queue) - Elems(r.done)
  {
    var current := r.queue[0];
    var before := Names(ms) + Elems(r.queue) - Elems(r.done);
    var after := Names(ms) + Elems(next.queue) - Elems(next.done);
    forall x | x in after ensures x in before {
      if x in Elems(next.queue) && x !in Names(ms) {
        var k :| 0 <= k < |next.queue| && next.queue[k] == x;
        assert k < |r.queue| - 1;
        assert x == r.queue[1..][k];
      }
    }
    assert current in before && current !in after;
  }

  lemma DrainSkips(ms: seq<Course>, r: Run, initial: bool)
    requires r.queue != [] && (r.queue[0] == "" || r.queue[0] in r.done)
    ensures Drain(ms, r, initial) == Drain(ms, r.(queue := r.queue[1..]), initial)
    ensures Elems(r.queue[1..]) <= Elems(r.queue)
  {
  }

  lemma DrainProcesses(ms: seq<Course>, r: Run, initial: bool)
    requires r.queue != [] && r.queue[0] != "" && r.queue[0] !in r.done
    ensures Drain(ms, r, initial) ==
            Drain(ms, Sweep(ms, 0, r.queue[0], r.(queue := r.queue[1..], done := r.done + [r.queue[0]]), initial), initial)
  {
  }

  /** Processing the head of the queue: the drain goes on from the pass's
      result, and the measure of the loop shrinks. */
  lemma DrainStep(ms: seq<Course>, r: Run, initial: bool)
    requires r.queue != [] && r.queue[0] != "" && r.queue[0] !in r.done
    ensures var next := Sweep(ms, 0, r.queue[0], r.(queue := r.queue[1..], done := r.done + [r.queue[0]]), initial);
            Drain(ms, r, initial) == Drain(ms, next, initial) &&
            Names(ms) + Elems(next.queue) - Elems(next.done) < Names(ms) + Elems(r.queue) - Elems(r.done)
  {
    var r1 := r.(queue := r.queue[1..], done := r.done + [r.queue[0]]);
    DrainProcesses(ms, r, initial);
    SweepQueuesNames(ms, 0, r.queue[0], r1, initial);
    DrainMeasureShrinks(ms, r, Sweep(ms, 0, r.queue[0], r1, initial));
  }

  /** One course of the pass that is rewritten and queued. */
  lemma SweepWrites(ms: seq<Course>, j: nat, current: string, r: Run, initial: bool, ns: LampState, w: Option<Warning>)
    requires j < |ms| && Lists(ms[j], current) && ns == Recompute(ms[j], r.states)
    requires ms[j].materia !in r.states || r.states[ms[j].materia] != ns
    requires var rep := MissingReport(ms[j], r.states[ms[j].materia := ns]);
             w == if !initial && ns == Semi && rep.faltantes != [] then Some(Warning(ms[j].materia, rep)) else r.warning
    ensures Sweep(ms, j, current, r, initial) ==
            Sweep(ms, j + 1, current, Run(r.states[ms[j].materia := ns], r.queue + [ms[j].materia], r.done, w), initial)
  {
  }

  /** One course of the pass that is left alone. */
  lemma SweepSkips(ms: seq<Course>, j: nat, current: string, r: Run, initial: bool)
    requires j < |ms|
    requires !Lists(ms[j], current) || (ms[j].materia in r.states && r.states[ms[j].materia] == Recompute(ms[j], r.states))
    ensures Sweep(ms, j, current, r, initial) == Sweep(ms, j + 1, current, r, initial)
  {
  }

  /** `cascadeUpdate(updatedStates, changedSubject, isInitialUpdate)`. */
  function Cascade(ms: seq<Course>, st: States, changed: string, initial: bool): Run {
    Drain(ms, Run(st, [changed], [], None), initial)
  }

  /** The cascade as the source runs it: a queue, a visited set, and a pass over
      all courses for each dequeued name. */
  method CascadeUpdate(ms: seq<Course>, updatedStates: States, changedSubject: string, isInitialUpdate: bool)
    returns (updated: States, warning: Option<Warning>)
    ensures updated == Cascade(ms, updatedStates, changedSubject, isInitialUpdate).states
    ensures warning == Cascade(ms, updatedStates, changedSubject, isInitialUpdate).warning
  {
    updated := updatedStates;
    var queue := [changedSubject];
    var visited: set<string> := {};
    ghost var done: seq<string> := [];
    warning := None;
    ghost var goal := Cascade(ms, updatedStates, changedSubject, isInitialUpdate);
    while |queue| > 0
      invariant visited == Elems(done)
      invariant Drain(ms, Run(updated, queue, done, warning), isInitialUpdate) == goal
      decreases Names(ms) + Elems(queue) - visited, |queue|
    {
      ghost var r0 := Run(updated, queue, done, warning);
      var current := queue[0];
      queue := queue[1..];
      if current == "" || current in visited {
        DrainSkips(ms, r0, isInitialUpdate);
        assert Run(updated, queue, done, warning) == r0.(queue := r0.queue[1..]);
        continue;
      }
      visited := visited + {current};
      done := done + [current];
      assert Run(updated, queue, done, warning) == r0.(queue := r0.queue[1..], done := r0.done + [r0.queue[0]]);
      DrainStep(ms, r0, isInitialUpdate);
      updated, queue, warning := RecomputeDependents(ms, current, updated, queue, warning, isInitialUpdate, done);
    }
  }

  /** The `materias.forEach` pass of the cascade for the dequeued `current`:
      every course listing it is recomputed, and rewritten and queued when its
      state changes. */
  method RecomputeDependents(ms: seq<Course>, current: string, states: States, queue: seq<string>,
                             warning: Option<Warning>, isInitialUpdate: bool, ghost done: seq<string>)
    returns (updated: States, queue': seq<string>, warning': Option<Warning>)
    ensures Run(updated, queue', done, warning') == Sweep(ms, 0, current, Run(states, queue, done, warning), isInitialUpdate)
  {
    updated, queue', warning' := states, queue, warning;
    var j := 0;
    while j < |ms|
      invariant 0 <= j <= |ms|
      invariant Sweep(ms, j, current, Run(updated, queue', done, warning'), isInitialUpdate) ==
                Sweep(ms, 0, current, Run(states, queue, done, warning), isInitialUpdate)
    {
      var m := ms[j];
      if Lists(m, current) {
        var newState := Recompute(m, updated);
        if m.materia !in updated || updated[m.materia] != newState {
          ghost var before := Run(updated, queue', done, warning');
          updated := updated[m.materia := newState];
          queue' := queue' + [m.materia];
          if !isInitialUpdate && newState == Semi {
            var report := MissingReport(m, updated);
            if |report.faltantes| > 0 {
              warning' := Some(Warning(m.materia, report));
            }
          }
          SweepWrites(ms, j, current, before, isInitialUpdate, newState, warning');
        } else {
          SweepSkips(ms, j, current, Run(updated, queue', done, warning'), isInitialUpdate);
        }
      } else {
        SweepSkips(ms, j, current, Run(updated, queue', done, warning'), isInitialUpdate);
      }
      j := j + 1;
    }
  }

  // ---------------------------------------------------------------------------
  // What the cascade changes

  /** Nothing is promoted: every regular/on state afterwards was already there. */
  ghost predicate NoPromotion(before: States, after: States) {
    (forall n :: n in before ==> n in after) &&
    (forall n :: n in after && (after[n] == Regular || after[n] == On) ==> n in before && before[n] == after[n])
  }

  /** `n` is a course that lists one of `processed`. */
  ghost predicate DependentOf(ms: seq<Course>, n: string, processed: seq<string>) {
    exists i, p :: 0 <= i < |ms| && ms[i].materia == n && p in processed && Lists(ms[i], p)
  }

  /** Only courses listing a processed name are rewritten. */
  ghost predicate OnlyDependents(ms: seq<Course>, before: States, after: States, processed: seq<string>) {
    forall n :: n in after && (n !in before || after[n] != before[n]) ==> DependentOf(ms, n, processed)
  }

  lemma NoPromotionTransitive(a: States, b: States, c: States)
    requires NoPromotion(a, b) && NoPromotion(b, c)
    ensures NoPromotion(a, c)
  {
  }

  lemma OnlyDependentsTransitive(ms: seq<Course>, a: States, b: States, c: States, p1: seq<string>, p2: seq<string>)
    requires OnlyDependents(ms, a, b, p1) && OnlyDependents(ms, b, c, p2)
    requires forall x :: x in p1 ==> x in p2
    ensures OnlyDependents(ms, a, c, p2)
  {
    forall n | n in c && (n !in a || c[n] != a[n]) ensures DependentOf(ms, n, p2) {
      if !(n !in b || c[n] != b[n]) {
        var i, p :| 0 <= i < |ms| && ms[i].materia == n && p in p1 && Lists(ms[i], p);
        assert p in p2;
      }
    }
  }

  lemma {:induction false} SweepFootprint(ms: seq<Course>, j: nat, current: string, r: Run, initial: bool)
    requires j <= |ms| && current in r.done
    ensures var out := Sweep(ms, j, current, r, initial);
            NoPromotion(r.states, out.states) && OnlyDependents(ms, r.states, out.states, r.done)
    decreases |ms| - j
  {
    if j < |ms| {
      var m := ms[j];
      if Lists(m, current) && (m.materia !in r.states || r.states[m.materia] != Recompute(m, r.states)) {
        var ns := Recompute(m, r.states);
        var st := r.states[m.materia := ns];
        var rep := MissingReport(m, st);
        var w := if !initial && ns == Semi && rep.faltantes != [] then Some(Warning(m.materia, rep)) else r.warning;
        var next := Run(st, r.queue + [m.materia], r.done, w);
        assert Sweep(ms, j, current, r, initial) == Sweep(ms, j + 1, current, next, initial);
        SweepFootprint(ms, j + 1, current, next, initial);
        assert DependentOf(ms, m.materia, r.done) by {
          assert ms[j].materia == m.materia && current in r.done && Lists(ms[j], current);
        }
        assert OnlyDependents(ms, r.states, st, r.done);
        OnlyDependentsTransitive(ms, r.states, st, Sweep(ms, j, current, r, initial).states, r.done, r.done);
        NoPromotionTransitive(r.states, st, Sweep(ms, j, current, r, initial).states);
      } else {
        SweepFootprint(ms, j + 1, current, r, initial);
      }
    }
  }

  lemma {:induction false} DrainFootprint(ms: seq<Course>, r: Run, initial: bool)
    ensures var out := Drain(ms, r, initial);
            NoPromotion(r.states, out.states) &&
            OnlyDependents(ms, r.states, out.states, out.done) &&
            |out.done| >= |r.done| && out.done[..|r.done|] == r.done &&
            (Distinct(r.done) ==> Distinct(out.done))
    decreases Names(ms) + Elems(r.queue) - Elems(r.done), |r.queue|
  {
    if r.queue != [] {
      var current := r.queue[0];
      var rest := r.(queue := r.queue[1..]);
      if current == "" || current in r.done {
        assert Elems(rest.queue) <= Elems(r.queue);
        DrainFootprint(ms, rest, initial);
      } else {
        var r1 := rest.(done := r.done + [current]);
        var next := Sweep(ms, 0, current, r1, initial);
        SweepQueuesNames(ms, 0, current, r1, initial);
        DrainMeasureShrinks(ms, r, next);
        SweepFootprint(ms, 0, current, r1, initial);
        DrainFootprint(ms, next, initial);
        var out := Drain(ms, next, initial);
        assert out == Drain(ms, r, initial);
        assert out.done[..|r.done|] == out.done[..|r1.done|][..|r.done|];
        assert forall x :: x in r1.done ==> x in out.done by {
          forall x | x in r1.done ensures x in out.done {
            var k :| 0 <= k < |r1.done| && r1.done[k] == x;
            assert out.done[..|r1.done|][k] == x;
          }
        }
        OnlyDependentsTransitive(ms, r.states, next.states, out.states, r1.done, out.done);
        NoPromotionTransitive(r.states, next.states, out.states);
        if Distinct(r.done) {
          assert Distinct(r1.done);
        }
      }
    }
  }

  /** The cascade promotes nothing, rewrites only courses listing a course it
      processed, and processes each course at most once. */
  lemma CascadeFootprint(ms: seq<Course>, st: States, changed: string, initial: bool)
    ensures var out := Cascade(ms, st, changed, initial);
            NoPromotion(st, out.states) &&
            OnlyDependents(ms, st, out.states, out.done) &&
            Distinct(out.done)
  {
    DrainFootprint(ms, Run(st, [changed], [], None), initial);
  }
}
