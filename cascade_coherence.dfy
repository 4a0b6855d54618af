/** What the four-state cascade guarantees about the whole map: on an acyclic
    prerequisite graph with distinct course names it restores coherence
    (regular/on only when satisfied, off only when not) after one course
    changes, and it never touches the course that started it; on a map that
    is already stable it changes nothing at all. */
module CascadeProperties {
  import opened Wrappers
  import opened Seqs
  import opened Strings
  import opened Correlativas

  predicate WellFormed(ms: seq<Course>) {
    DistinctNames(ms) && NoBlankPrerequisite(ms)
  }

  /** Some prerequisite of `m` is still waiting in the queue, so `m` will be
      recomputed later. */
  ghost predicate Pending(m: Course, r: Run) {
    exists q :: q in r.queue && q !in r.done && Lists(m, q)
  }

  ghost predicate CoherentOrPending(ms: seq<Course>, r: Run) {
    forall i :: 0 <= i < |ms| ==> Coherent(ms[i], r.states) || Pending(ms[i], r)
  }

  /** Every name queued or processed, other than the one that started the
      cascade, was written by it: it is off/semi and ranks above the start. */
  ghost predicate Tracked(r: Run, changed: string, rank: string -> nat) {
    forall n :: (n in r.queue || n in r.done) && n != changed ==> Low(r.states, n) && rank(changed) < rank(n)
  }

  lemma SatisfiedUnlisted(m: Course, st: States, k: string, v: LampState)
    requires !Lists(m, k)
    ensures Satisfied(m, st[k := v]) == Satisfied(m, st)
  {
    assert forall d :: d in m.regularizadas ==> (IsRegularOrOn(st[k := v], d) == IsRegularOrOn(st, d));
    assert forall d :: d in m.aprobadas ==> (IsOn(st[k := v], d) == IsOn(st, d));
  }

  /** Moving a lamp between "off" and "semi" satisfies or breaks nothing. */
  lemma SatisfiedLowUpdate(m: Course, st: States, k: string, v: LampState)
    requires Low(st, k) && (v == Off || v == Semi)
    ensures Satisfied(m, st[k := v]) == Satisfied(m, st)
  {
    assert forall d :: IsRegularOrOn(st[k := v], d) == IsRegularOrOn(st, d);
    assert forall d :: IsOn(st[k := v], d) == IsOn(st, d);
  }

  /** Rewriting course `ms[j]` (a dependent of the processed `current`) with
      its recomputed state keeps it coherent, and any other course stays
      coherent or pending. */
  lemma WriteKeepsCoherence(ms: seq<Course>, j: nat, current: string, r: Run, next: Run,
                            changed: string, rank: string -> nat)
    requires j < |ms| && DistinctNames(ms) && Acyclic(ms, rank)
    requires current in r.done && Lists(ms[j], current)
    requires Covered(ms, r.states) && Tracked(r, changed, rank)
    requires r.states[ms[j].materia] != Recompute(ms[j], r.states)
    requires next.states == r.states[ms[j].materia := Recompute(ms[j], r.states)]
    requires next.queue == r.queue + [ms[j].materia] && next.done == r.done
    requires forall i :: 0 <= i < |ms| ==>
               Coherent(ms[i], r.states) || Pending(ms[i], r) || (j <= i && Lists(ms[i], current))
    ensures Covered(ms, next.states) && Tracked(next, changed, rank)
    ensures ms[j].materia != changed
    ensures forall i :: 0 <= i < |ms| ==>
              Coherent(ms[i], next.states) || Pending(ms[i], next) || (j + 1 <= i && Lists(ms[i], current))
  {
    var m := ms[j];
    var ns := Recompute(m, r.states);
    assert rank(current) < rank(m.materia);
    assert !Lists(m, m.materia);
    assert ns == Off || ns == Semi;
    SatisfiedUnlisted(m, r.states, m.materia, ns);
    assert Coherent(m, next.states);
    forall i | 0 <= i < |ms| && i != j
      ensures Coherent(ms[i], next.states) || Pending(ms[i], next) || (j + 1 <= i && Lists(ms[i], current))
    {
      OtherCourseKeepsCoherence(ms, i, j, r, next, changed, rank);
    }
  }

  lemma OtherCourseKeepsCoherence(ms: seq<Course>, i: nat, j: nat, r: Run, next: Run, changed: string, rank: string -> nat)
    requires i < |ms| && j < |ms| && i != j && DistinctNames(ms)
    requires Tracked(r, changed, rank) && ms[j].materia != changed && ms[j].materia in r.states
    requires var ns := Recompute(ms[j], r.states);
             (ns == Off || ns == Semi) && next.states == r.states[ms[j].materia := ns]
    requires next.queue == r.queue + [ms[j].materia] && next.done == r.done
    ensures Coherent(ms[i], r.states) || Pending(ms[i], r) ==> Coherent(ms[i], next.states) || Pending(ms[i], next)
  {
    var k := ms[j].materia;
    var ns := Recompute(ms[j], r.states);
    assert ms[i].materia != k;
    if Pending(ms[i], r) {
      var q :| q in r.queue && q !in r.done && Lists(ms[i], q);
      assert q in next.queue;
    } else if Low(r.states, k) {
      SatisfiedLowUpdate(ms[i], r.states, k, ns);
    } else if Lists(ms[i], k) {
      assert k !in r.queue && k !in r.done;
      assert k in next.queue && k !in next.done;
    } else {
      SatisfiedUnlisted(ms[i], r.states, k, ns);
    }
  }

  lemma {:induction false} SweepKeepsCoherence(ms: seq<Course>, j: nat, current: string, r: Run, initial: bool,
                                               changed: string, rank: string -> nat)
    requires j <= |ms| && DistinctNames(ms) && Acyclic(ms, rank)
    requires current in r.done
    requires Covered(ms, r.states) && Tracked(r, changed, rank)
    requires forall i :: 0 <= i < |ms| ==>
               Coherent(ms[i], r.states) || Pending(ms[i], r) || (j <= i && Lists(ms[i], current))
    ensures var out := Sweep(ms, j, current, r, initial);
            Covered(ms, out.states) && Tracked(out, changed, rank) && CoherentOrPending(ms, out) &&
            (changed in out.states <==> changed in r.states) &&
            (changed in r.states ==> out.states[changed] == r.states[changed])
    decreases |ms| - j
  {
    if j == |ms| {
      return;
    }
    var m := ms[j];
    var ns := Recompute(m, r.states);
    if Lists(m, current) && (m.materia !in r.states || r.states[m.materia] != ns) {
      var st := r.states[m.materia := ns];
      var rep := MissingReport(m, st);
      var w := if !initial && ns == Semi && rep.faltantes != [] then Some(Warning(m.materia, rep)) else r.warning;
      var next := Run(st, r.queue + [m.materia], r.done, w);
      SweepWrites(ms, j, current, r, initial, ns, w);
      WriteKeepsCoherence(ms, j, current, r, next, changed, rank);
      SweepKeepsCoherence(ms, j + 1, current, next, initial, changed, rank);
    } else {
      SweepSkips(ms, j, current, r, initial);
      SweepKeepsCoherence(ms, j + 1, current, r, initial, changed, rank);
    }
  }

  lemma {:induction false} DrainKeepsCoherence(ms: seq<Course>, r: Run, initial: bool, changed: string, rank: string -> nat)
    requires WellFormed(ms) && Acyclic(ms, rank)
    requires Covered(ms, r.states) && Tracked(r, changed, rank) && CoherentOrPending(ms, r)
    ensures var out := Drain(ms, r, initial);
            AllCoherent(ms, out.states) &&
            (changed in out.states <==> changed in r.states) &&
            (changed in r.states ==> out.states[changed] == r.states[changed])
    decreases Names(ms) + Elems(r.queue) - Elems(r.done), |r.queue|
  {
    if r.queue == [] {
      return;
    }
    var current := r.queue[0];
    var rest := r.(queue := r.queue[1..]);
    if current == "" || current in r.done {
      DrainSkips(ms, r, initial);
      forall i | 0 <= i < |ms| && Pending(ms[i], r) ensures Pending(ms[i], rest) {
        var q :| q in r.queue && q !in r.done && Lists(ms[i], q);
        assert q != current;
        assert q in rest.queue;
      }
      DrainKeepsCoherence(ms, rest, initial, changed, rank);
    } else {
      var r1 := rest.(done := r.done + [current]);
      DrainProcesses(ms, r, initial);
      forall i | 0 <= i < |ms|
        ensures Coherent(ms[i], r1.states) || Pending(ms[i], r1) || (0 <= i && Lists(ms[i], current))
      {
        if !Coherent(ms[i], r.states) {
          var q :| q in r.queue && q !in r.done && Lists(ms[i], q);
          if q != current {
            assert q in r1.queue && q !in r1.done;
          }
        }
      }
      SweepKeepsCoherence(ms, 0, current, r1, initial, changed, rank);
      var next := Sweep(ms, 0, current, r1, initial);
      SweepQueuesNames(ms, 0, current, r1, initial);
      DrainMeasureShrinks(ms, r, next);
      DrainKeepsCoherence(ms, next, initial, changed, rank);
    }
  }

  /** A cascade started from a course whose dependents are the only possible
      incoherence leaves every course coherent and the starting course as it
      was. */
  lemma CascadeRestoresCoherence(ms: seq<Course>, st: States, changed: string, initial: bool, rank: string -> nat)
    requires WellFormed(ms) && Acyclic(ms, rank) && Covered(ms, st)
    requires forall i :: 0 <= i < |ms| ==> Coherent(ms[i], st) || Lists(ms[i], changed)
    ensures var out := Cascade(ms, st, changed, initial);
            AllCoherent(ms, out.states) &&
            (changed in out.states <==> changed in st) &&
            (changed in st ==> out.states[changed] == st[changed])
  {
    var r := Run(st, [changed], [], None);
    forall i | 0 <= i < |ms| && !Coherent(ms[i], st) ensures Pending(ms[i], r) {
      assert changed in r.queue;
    }
    DrainKeepsCoherence(ms, r, initial, changed, rank);
  }

  // ---------------------------------------------------------------------------
  // A stable map is a fixpoint of the cascade

  lemma {:induction false} SweepOnStable(ms: seq<Course>, j: nat, current: string, r: Run, initial: bool)
    requires j <= |ms| && AllStable(ms, r.states)
    ensures Sweep(ms, j, current, r, initial).states == r.states
    ensures Sweep(ms, j, current, r, initial).warning == r.warning
    decreases |ms| - j
  {
    if j < |ms| {
      assert Stable(ms[j], r.states);
      SweepSkips(ms, j, current, r, initial);
      SweepOnStable(ms, j + 1, current, r, initial);
    }
  }

  lemma {:induction false} DrainOnStable(ms: seq<Course>, r: Run, initial: bool)
    requires AllStable(ms, r.states)
    ensures Drain(ms, r, initial).states == r.states
    ensures Drain(ms, r, initial).warning == r.warning
    decreases Names(ms) + Elems(r.queue) - Elems(r.done), |r.queue|
  {
    if r.queue != [] {
      var current := r.queue[0];
      var rest := r.(queue := r.queue[1..]);
      if current == "" || current in r.done {
        DrainSkips(ms, r, initial);
        DrainOnStable(ms, rest, initial);
      } else {
        var r1 := rest.(done := r.done + [current]);
        DrainProcesses(ms, r, initial);
        SweepOnStable(ms, 0, current, r1, initial);
        var next := Sweep(ms, 0, current, r1, initial);
        SweepQueuesNames(ms, 0, current, r1, initial);
        DrainMeasureShrinks(ms, r, next);
        DrainOnStable(ms, next, initial);
      }
    }
  }

  /** On a stable map the cascade changes no lamp and raises no warning,
      whichever course it starts from. */
  lemma CascadeOnStable(ms: seq<Course>, st: States, changed: string, initial: bool)
    requires AllStable(ms, st)
    ensures Cascade(ms, st, changed, initial).states == st
    ensures Cascade(ms, st, changed, initial).warning.None?
  {
    DrainOnStable(ms, Run(st, [changed], [], None), initial);
  }

  /** Course "A" without prerequisites and course "C" that needs "A"
      regularised. */
  const Pair: seq<Course> := [Course("A", Num(1), Num(1), "", [], []), Course("C", Num(1), Num(2), "", ["A"], [])]

  /** Off a stable map the cascade is not idempotent: with "A" semi and "C"
      regular, a first run from "A" only demotes "C" to semi (a regular course
      never drops to off in one step), and a second run from "A" darkens it. */
  lemma CascadeTwiceDiffers()
    ensures var once := Cascade(Pair, map["A" := Semi, "C" := Regular], "A", false).states;
            once == map["A" := Semi, "C" := Semi] &&
            Cascade(Pair, once, "A", false).states == map["A" := Semi, "C" := Off]
  {
    var a := Pair[0];
    var c := Pair[1];
    var st0: States := map["A" := Semi, "C" := Regular];
    var st1: States := map["A" := Semi, "C" := Semi];
    var st2: States := map["A" := Semi, "C" := Off];
    assert !Lists(a, "A") && Lists(c, "A") && !Lists(a, "C") && !Lists(c, "C");
    assert !IsRegularOrOn(st0, "A") && !IsRegularOrOn(st1, "A");
    assert Recompute(c, st0) == Semi && Recompute(c, st1) == Off;
    assert st0["C" := Semi] == st1 && st1["C" := Off] == st2;
    CascadeRunsOnce(st0, st1);
    CascadeRunsOnce(st1, st2);
  }

  /** One run from "A" over `Pair` that rewrites "C" alone. */
  lemma CascadeRunsOnce(before: States, after: States)
    requires "C" in before && after == before["C" := Recompute(Pair[1], before)]
    requires before["C"] != Recompute(Pair[1], before)
    ensures Cascade(Pair, before, "A", false).states == after
  {
    var a := Pair[0];
    var c := Pair[1];
    assert !Lists(a, "A") && Lists(c, "A") && !Lists(a, "C") && !Lists(c, "C");
    var r0 := Run(before, ["A"], [], None);
    var r1 := Run(before, [], ["A"], None);
    DrainProcesses(Pair, r0, false);
    SweepSkips(Pair, 0, "A", r1, false);
    var r2 := Rewrite(c, r1, false);
    assert Sweep(Pair, 1, "A", r1, false) == Sweep(Pair, 2, "A", r2, false) == r2;
    assert r2.states == after && r2.queue == ["C"] && r2.done == ["A"];
    var r3 := r2.(queue := [], done := ["A", "C"]);
    DrainProcesses(Pair, r2, false);
    SweepSkips(Pair, 0, "C", r3, false);
    SweepSkips(Pair, 1, "C", r3, false);
    assert Sweep(Pair, 0, "C", r3, false) == r3;
  }
}
