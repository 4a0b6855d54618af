/** The course-map grid in front of the four-state hook: the per-course
    "prerequisites met" record it recomputes whenever the lamps change, and
    the click handler that answers a click on a locked ("off") course with
    the list of what is missing instead of passing it to the hook. */
module SubjectGrid {
  import opened Wrappers
  import opened Seqs
  import opened Strings
  import opened Correlativas
  import opened CorrelativasHook
  import opened Grouping

  /** Where a curriculum record sits on the board. */
  function CoursePlace(m: Course): Placement {
    Placement(m.anio, m.cuatrimestre, m.tipo)
  }

  // ---------------------------------------------------------------------------
  // Walking the grouped courses

  function FlattenBuckets(bs: seq<Bucket<Course>>): seq<Course> {
    if bs == [] then [] else FlattenBuckets(bs[..|bs| - 1]) + bs[|bs| - 1].items
  }

  /** Every grouped course, year by year and column by column: the order of
      the nested `forEach` and of `flatMap(...).flat()`. */
  function Flatten(g: seq<YearGroup<Course>>): seq<Course> {
    if g == [] then [] else Flatten(g[..|g| - 1]) + FlattenBuckets(g[|g| - 1].buckets)
  }

  lemma {:induction false} InBucketInFlatten(bs: seq<Bucket<Course>>, b: nat, x: Course)
    requires b < |bs| && x in bs[b].items
    ensures x in FlattenBuckets(bs)
  {
    if b < |bs| - 1 {
      InBucketInFlatten(bs[..|bs| - 1], b, x);
    }
  }

  lemma {:induction false} InYearInFlatten(g: seq<YearGroup<Course>>, y: nat, b: nat, x: Course)
    requires y < |g| && b < |g[y].buckets| && x in g[y].buckets[b].items
    ensures x in Flatten(g)
  {
    if y < |g| - 1 {
      InYearInFlatten(g[..|g| - 1], y, b, x);
    } else {
      InBucketInFlatten(g[y].buckets, b, x);
    }
  }

  lemma {:induction false} FlattenBucketsFrom(bs: seq<Bucket<Course>>, ms: seq<Course>, x: Course)
    requires forall b :: 0 <= b < |bs| ==> forall z :: z in bs[b].items ==> z in ms
    requires x in FlattenBuckets(bs)
    ensures x in ms
  {
    if bs != [] {
      if x in FlattenBuckets(bs[..|bs| - 1]) {
        FlattenBucketsFrom(bs[..|bs| - 1], ms, x);
      }
    }
  }

  lemma {:induction false} FlattenFrom(g: seq<YearGroup<Course>>, ms: seq<Course>, x: Course)
    requires forall y, b :: 0 <= y < |g| && 0 <= b < |g[y].buckets| ==> forall z :: z in g[y].buckets[b].items ==> z in ms
    requires x in Flatten(g)
    ensures x in ms
  {
    if g != [] {
      if x in Flatten(g[..|g| - 1]) {
        FlattenFrom(g[..|g| - 1], ms, x);
      } else {
        FlattenBucketsFrom(g[|g| - 1].buckets, ms, x);
      }
    }
  }

  /** The grouped courses are exactly the input courses. */
  lemma FlattenMembers(ms: seq<Course>, g: seq<YearGroup<Course>>, x: Course)
    requires GroupedBy(ms, CoursePlace, g)
    ensures x in Flatten(g) <==> x in ms
  {
    forall y, b, z | 0 <= y < |g| && 0 <= b < |g[y].buckets| && z in g[y].buckets[b].items
      ensures z in ms
    {
      ColumnMember(ms, CoursePlace, g[y].anio, g[y].buckets[b].clave, z);
    }
    if x in Flatten(g) {
      FlattenFrom(g, ms, x);
    }
    if x in ms {
      var i :| 0 <= i < |ms| && ms[i] == x;
      assert Located(g, CoursePlace(ms[i]));
      var p := CoursePlace(x);
      var y := YearIndex(g, p.anio).value;
      var b := ClaveIndex(g[y].buckets, Clave(p)).value;
      ColumnMember(ms, CoursePlace, g[y].anio, g[y].buckets[b].clave, x);
      InYearInFlatten(g, y, b, x);
    }
  }

  // ---------------------------------------------------------------------------
  // dependencyStates

  /** The record the effect builds: one entry per course visited, a later
      course with the same name overwriting an earlier one. */
  function SatisfactionMap(s: seq<Course>, st: States): map<string, bool> {
    if s == [] then map[]
    else SatisfactionMap(s[..|s| - 1], st)[s[|s| - 1].materia := Satisfied(s[|s| - 1], st)]
  }

  lemma SatisfactionMapSnoc(s: seq<Course>, m: Course, st: States)
    ensures SatisfactionMap(s + [m], st) == SatisfactionMap(s, st)[m.materia := Satisfied(m, st)]
  {
    assert (s + [m])[..|s|] == s;
  }

  lemma {:induction false} SatisfactionMapKeys(s: seq<Course>, st: States)
    ensures SatisfactionMap(s, st).Keys == Names(s)
  {
    if s != [] {
      var init := s[..|s| - 1];
      SatisfactionMapKeys(init, st);
      assert s == init + [s[|s| - 1]];
      assert Names(s) == Names(init) + {s[|s| - 1].materia};
    }
  }

  /** A course whose name no other visited course shares gets its own
      satisfaction. */
  lemma {:induction false} SatisfactionMapValue(s: seq<Course>, st: States, x: Course)
    requires x in s && forall z :: z in s && z.materia == x.materia ==> z == x
    ensures x.materia in SatisfactionMap(s, st) && SatisfactionMap(s, st)[x.materia] == Satisfied(x, st)
  {
    var init := s[..|s| - 1];
    var last := s[|s| - 1];
    assert s == init + [last];
    if last != x {
      assert x in init;
      SatisfactionMapValue(init, st, x);
    }
  }

  /** The `dependencyStates` effect: three nested loops over years, columns
      and courses, recording whether each course's prerequisites are met. */
  method DependencyStates(g: seq<YearGroup<Course>>, st: States) returns (r: map<string, bool>)
    ensures r == SatisfactionMap(Flatten(g), st)
  {
    r := map[];
    var y := 0;
    while y < |g|
      invariant y <= |g|
      invariant r == SatisfactionMap(Flatten(g[..y]), st)
    {
      r := RecordYear(g[y].buckets, st, r, Flatten(g[..y]));
      assert g[..y + 1][..y] == g[..y];
      y := y + 1;
    }
    assert g[..y] == g;
  }

  method RecordYear(bs: seq<Bucket<Course>>, st: States, r0: map<string, bool>, ghost before: seq<Course>)
    returns (r: map<string, bool>)
    requires r0 == SatisfactionMap(before, st)
    ensures r == SatisfactionMap(before + FlattenBuckets(bs), st)
  {
    r := r0;
    var b := 0;
    assert before + FlattenBuckets(bs[..0]) == before;
    while b < |bs|
      invariant b <= |bs|
      invariant r == SatisfactionMap(before + FlattenBuckets(bs[..b]), st)
    {
      var items := bs[b].items;
      var j := 0;
      assert before + FlattenBuckets(bs[..b]) + items[..0] == before + FlattenBuckets(bs[..b]);
      while j < |items|
        invariant j <= |items|
        invariant r == SatisfactionMap(before + FlattenBuckets(bs[..b]) + items[..j], st)
      {
        var m := items[j];
        ghost var done := before + FlattenBuckets(bs[..b]) + items[..j];
        SatisfactionMapSnoc(done, m, st);
        r := r[m.materia := Satisfied(m, st)];
        assert items[..j + 1] == items[..j] + [m];
        assert before + FlattenBuckets(bs[..b]) + items[..j + 1] == done + [m];
        j := j + 1;
      }
      assert bs[..b + 1][..b] == bs[..b];
      assert items[..j] == items;
      assert FlattenBuckets(bs[..b + 1]) == FlattenBuckets(bs[..b]) + items;
      assert before + FlattenBuckets(bs[..b + 1]) == before + FlattenBuckets(bs[..b]) + items;
      b := b + 1;
    }
    assert bs[..b] == bs;
  }

  /** On a curriculum with distinct names the record has one entry per course
      and it says whether that course's prerequisites are met. */
  lemma DependencyStatesAgree(ms: seq<Course>, g: seq<YearGroup<Course>>, st: States)
    requires GroupedBy(ms, CoursePlace, g) && DistinctNames(ms)
    ensures SatisfactionMap(Flatten(g), st).Keys == Names(ms)
    ensures forall i :: 0 <= i < |ms| ==>
              ms[i].materia in SatisfactionMap(Flatten(g), st) &&
              SatisfactionMap(Flatten(g), st)[ms[i].materia] == Satisfied(ms[i], st)
  {
    var s := Flatten(g);
    assert SatisfactionMap(s, st).Keys == Names(ms) by {
      SatisfactionMapKeys(s, st);
      FlattenNames(ms, g);
    }
    forall i | 0 <= i < |ms|
      ensures ms[i].materia in SatisfactionMap(s, st) && SatisfactionMap(s, st)[ms[i].materia] == Satisfied(ms[i], st)
    {
      SatisfactionAt(ms, g, st, i);
    }
  }

  /** Grouping keeps the set of names. */
  lemma FlattenNames(ms: seq<Course>, g: seq<YearGroup<Course>>)
    requires GroupedBy(ms, CoursePlace, g)
    ensures Names(Flatten(g)) == Names(ms)
  {
    var s := Flatten(g);
    forall n ensures n in Names(s) <==> n in Names(ms) {
      if n in Names(s) {
        var i :| 0 <= i < |s| && s[i].materia == n;
        FlattenMembers(ms, g, s[i]);
      }
      if n in Names(ms) {
        var i :| 0 <= i < |ms| && ms[i].materia == n;
        FlattenMembers(ms, g, ms[i]);
        var j :| 0 <= j < |s| && s[j] == ms[i];
      }
    }
  }

  lemma SatisfactionAt(ms: seq<Course>, g: seq<YearGroup<Course>>, st: States, i: nat)
    requires GroupedBy(ms, CoursePlace, g) && DistinctNames(ms) && i < |ms|
    ensures ms[i].materia in SatisfactionMap(Flatten(g), st)
    ensures SatisfactionMap(Flatten(g), st)[ms[i].materia] == Satisfied(ms[i], st)
  {
    var s := Flatten(g);
    FlattenMembers(ms, g, ms[i]);
    forall z | z in s && z.materia == ms[i].materia ensures z == ms[i] {
      FlattenMembers(ms, g, z);
    }
    SatisfactionMapValue(s, st, ms[i]);
  }

  // ---------------------------------------------------------------------------
  // handleLampClick

  /** The two lists shown for a locked course. */
  datatype Requisito = Requisito(aprobadas: seq<string>, regularizadas: seq<string>)

  datatype Highlight = Highlight(subject: string, requisitos: Requisito)

  /** Approval prerequisites not yet "on", and regular prerequisites neither
      "regular" nor "on", each in list order. */
  function GridMissing(m: Course, st: States): (r: Requisito)
    ensures forall d :: d in r.aprobadas <==> d in m.aprobadas && !IsOn(st, d)
    ensures forall d :: d in r.regularizadas <==> d in m.regularizadas && !IsRegularOrOn(st, d)
  {
    Requisito(Filter(m.aprobadas, d => !IsOn(st, d)), Filter(m.regularizadas, d => !IsRegularOrOn(st, d)))
  }

  /** The grid's two lists are the hook's missing report split in two: the
      regular ones then the approval ones give exactly `faltantes`, and both
      are empty exactly when the course's prerequisites are met. */
  lemma GridMissingIsReport(m: Course, st: States)
    ensures var r := GridMissing(m, st);
            r.regularizadas + r.aprobadas == MissingReport(m, st).faltantes &&
            ((r.aprobadas == [] && r.regularizadas == []) <==> Satisfied(m, st))
  {
    var r := GridMissing(m, st);
    assert (r.regularizadas + r.aprobadas == []) <==> (r.aprobadas == [] && r.regularizadas == []);
  }

  /** The grid's own state. `timeoutArmed` stands for the highlight timer
      handle, which once set is never cleared. */
  class Grid {
    var dependencyStates: map<string, bool>
    var currentHighlight: Option<Highlight>
    var timeoutArmed: bool

    constructor ()
      ensures dependencyStates == map[] && currentHighlight.None? && !timeoutArmed
    {
      dependencyStates := map[];
      currentHighlight := None;
      timeoutArmed := false;
    }

    /** The effect that runs when the lamps, the grouping or `initialized` change. */
    method Refresh(g: seq<YearGroup<Course>>, st: States, initialized: bool)
      modifies this`dependencyStates
      ensures initialized ==> dependencyStates == SatisfactionMap(Flatten(g), st)
      ensures !initialized ==> dependencyStates == old(dependencyStates)
    {
      if !initialized {
        return;
      }
      dependencyStates := DependencyStates(g, st);
    }

    /** A click on a lamp. Returns whether the click is passed on to the
        hook's toggle. */
    method HandleLampClick(g: seq<YearGroup<Course>>, st: States, name: string) returns (forward: bool)
      modifies this`currentHighlight, this`timeoutArmed
      ensures var found := FindCourse(Flatten(g), name);
              forward <==> found.None? || StateOf(st, name) != Some(Off)
      ensures var found := FindCourse(Flatten(g), name);
              if !forward && (GridMissing(found.value, st).aprobadas != [] || GridMissing(found.value, st).regularizadas != [])
              then currentHighlight == Some(Highlight(name, GridMissing(found.value, st))) && timeoutArmed
              else currentHighlight == (if old(timeoutArmed) then None else old(currentHighlight)) &&
                   timeoutArmed == old(timeoutArmed)
    {
      if timeoutArmed {
        currentHighlight := None;
      }
      var materia := FindCourse(Flatten(g), name);
      if materia.None? {
        return true;
      }
      if StateOf(st, name) != Some(Off) {
        return true;
      }
      var requisitos := GridMissing(materia.value, st);
      if |requisitos.aprobadas| > 0 || |requisitos.regularizadas| > 0 {
        currentHighlight := Some(Highlight(name, requisitos));
        timeoutArmed := true;
      }
      forward := false;
    }

    /** The highlight timer fires. */
    method HighlightExpires()
      modifies this`currentHighlight
      ensures currentHighlight.None?
    {
      currentHighlight := None;
    }
  }

  /** A course is found among the grouped courses exactly when it is found
      in the curriculum. */
  lemma FindGrouped(ms: seq<Course>, g: seq<YearGroup<Course>>, name: string)
    requires GroupedBy(ms, CoursePlace, g)
    ensures FindCourse(Flatten(g), name).Some? <==> FindCourse(ms, name).Some?
  {
    var s := Flatten(g);
    if FindCourse(s, name).Some? {
      var i :| 0 <= i < |s| && s[i] == FindCourse(s, name).value;
      FlattenMembers(ms, g, s[i]);
    }
    if FindCourse(ms, name).Some? {
      var i :| 0 <= i < |ms| && ms[i] == FindCourse(ms, name).value;
      FlattenMembers(ms, g, ms[i]);
    }
  }

  /** The page wiring: a lamp click goes to the grid, and on to the hook's
      toggle only when the grid passes it on: exactly for a course the
      grouping does not hold (one the hook has not loaded) or one that is not
      off. A forwarded click is the hook's toggle in full, ignored while
      animating or before initialisation; a known course that is off never
      reaches the toggle, so the hook does not change at all and only the
      grid's highlight does. */
  method ClickLamp(grid: Grid, hook: Hook, g: seq<YearGroup<Course>>, name: string)
    requires GroupedBy(hook.materias, CoursePlace, g)
    modifies grid`currentHighlight, grid`timeoutArmed, hook
    ensures FindCourse(Flatten(g), name).Some? <==> FindCourse(old(hook.materias), name).Some?
    ensures hook.materias == old(hook.materias) && hook.initialized == old(hook.initialized)
    ensures hook.isInitializing == old(hook.isInitializing) && hook.error == old(hook.error) &&
            hook.loading == old(hook.loading)
    ensures var found := FindCourse(Flatten(g), name);
            found.Some? && StateOf(old(hook.lampStates), name) == Some(Off) ==>
              hook.lampStates == old(hook.lampStates) && hook.diag == old(hook.diag) &&
              hook.isAnimating == old(hook.isAnimating) &&
              var r := GridMissing(found.value, old(hook.lampStates));
              if r.aprobadas != [] || r.regularizadas != []
              then grid.currentHighlight == Some(Highlight(name, r)) && grid.timeoutArmed
              else grid.currentHighlight == (if old(grid.timeoutArmed) then None else old(grid.currentHighlight)) &&
                   grid.timeoutArmed == old(grid.timeoutArmed)
    ensures FindCourse(Flatten(g), name).None? || StateOf(old(hook.lampStates), name) != Some(Off) ==>
              grid.currentHighlight == (if old(grid.timeoutArmed) then None else old(grid.currentHighlight)) &&
              grid.timeoutArmed == old(grid.timeoutArmed) &&
              if old(hook.isAnimating) || !old(hook.initialized)
              then hook.lampStates == old(hook.lampStates) && hook.diag == old(hook.diag) &&
                   hook.isAnimating == old(hook.isAnimating)
              else var t := Toggle(old(hook.materias), old(hook.lampStates), name, old(hook.diag));
                   hook.lampStates == t.lamps && hook.diag == t.diag && hook.isAnimating == t.found
  {
    FindGrouped(hook.materias, g, name);
    var forward := grid.HandleLampClick(g, hook.lampStates, name);
    if forward {
      hook.HandleToggle(name);
    }
  }

  /** The lamp flags the grid renders; a course without a state is shown off. */
  function LampFlags(st: States, n: string): (f: (bool, bool, bool))
    ensures f.0 <==> StateOf(st, n) == Some(On)
    ensures f.1 <==> StateOf(st, n) == Some(Regular)
    ensures f.2 <==> StateOf(st, n) == Some(Semi)
    ensures !f.0 && !f.1 && !f.2 <==> StateOf(st, n) == Some(Off) || StateOf(st, n).None?
  {
    var state := if n in st then st[n] else Off;
    (state == On, state == Regular, state == Semi)
  }
}
