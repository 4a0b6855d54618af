/** The two-state course map: every lamp is lit or dark. Darkening a course
    darkens everything that depends on it; a click on a course with a dark
    prerequisite changes nothing and points at the dark prerequisite at the
    root of the block. */
module LampEngine {
  import opened Wrappers
  import opened Seqs
  import opened Strings

  /** A curriculum record as the reader returns it: one prerequisite list. */
  datatype Course = Course(materia: string, anio: JsNumber, cuatrimestre: JsNumber, tipo: string,
                           correlativas: seq<string>)

  type Lamps = map<string, bool>

  /** `lampStates[n]` read as a condition: a name without an entry is dark. */
  predicate Lit(st: Lamps, n: string) {
    n in st && st[n]
  }

  /** The entry itself, `undefined` being `None`. */
  function Entry(st: Lamps, n: string): Option<bool> {
    if n in st then Some(st[n]) else None
  }

  /** `m.correlativas.some(d => !lampStates[d])`. */
  predicate Blocked(m: Course, st: Lamps) {
    exists d :: d in m.correlativas && !Lit(st, d)
  }

  function Names(ms: seq<Course>): set<string> {
    set i | 0 <= i < |ms| :: ms[i].materia
  }

  predicate DistinctNames(ms: seq<Course>) {
    forall i, j :: 0 <= i < j < |ms| ==> ms[i].materia != ms[j].materia
  }

  /** Some course lists `p` as a prerequisite. */
  predicate Listed(ms: seq<Course>, p: string) {
    exists i :: 0 <= i < |ms| && p in ms[i].correlativas
  }

  /** Lit courses have every prerequisite lit: the state the click rules aim
      to keep. */
  predicate Consistent(ms: seq<Course>, st: Lamps) {
    forall i, d :: 0 <= i < |ms| && Lit(st, ms[i].materia) && d in ms[i].correlativas ==> Lit(st, d)
  }

  /** `materias.find(m => m.materia === name)`. */
  function FindMateria(ms: seq<Course>, name: string): (r: Option<Course>)
    ensures r.None? <==> forall i :: 0 <= i < |ms| ==> ms[i].materia != name
    ensures r.Some? ==> r.value.materia == name && exists i :: 0 <= i < |ms| && ms[i] == r.value
  {
    if ms == [] then None
    else if ms[0].materia == name then Some(ms[0])
    else
      var r := FindMateria(ms[1..], name);
      assert r.Some? ==> exists i :: 0 <= i < |ms[1..]| && ms[1..][i] == r.value;
      assert r.None? ==> forall i :: 1 <= i < |ms| ==> ms[1..][i - 1] == ms[i];
      r
  }

  /** With distinct names the search finds the one course of that name. */
  lemma FindUnique(ms: seq<Course>, i: nat)
    requires DistinctNames(ms) && i < |ms|
    ensures FindMateria(ms, ms[i].materia) == Some(ms[i])
  {
  }

  // ---------------------------------------------------------------------------
  // The dependents map

  /** What one course pushes under `p`: its name, once per time it lists `p`. */
  function Pushes(cs: seq<string>, p: string, name: string): seq<string>
    decreases |cs|
  {
    if cs == [] then [] else Pushes(cs[..|cs| - 1], p, name) + (if cs[|cs| - 1] == p then [name] else [])
  }

  /** `dependentsMap[p]` as the loop builds it, course by course. */
  function DependentsOf(ms: seq<Course>, p: string): seq<string>
    decreases |ms|
  {
    if ms == [] then [] else DependentsOf(ms[..|ms| - 1], p) + Pushes(ms[|ms| - 1].correlativas, p, ms[|ms| - 1].materia)
  }

  lemma {:induction false} PushesMember(cs: seq<string>, p: string, name: string, x: string)
    ensures x in Pushes(cs, p, name) <==> x == name && p in cs
    decreases |cs|
  {
    if cs != [] {
      var n := |cs| - 1;
      PushesMember(cs[..n], p, name, x);
      assert cs == cs[..n] + [cs[n]];
      assert p in cs <==> p in cs[..n] || p == cs[n];
    }
  }

  /** The dependents of `p` are exactly the courses listing `p`. */
  lemma {:induction false} DependentsMember(ms: seq<Course>, p: string, x: string)
    ensures x in DependentsOf(ms, p) <==> exists i :: 0 <= i < |ms| && ms[i].materia == x && p in ms[i].correlativas
    decreases |ms|
  {
    if ms != [] {
      var n := |ms| - 1;
      DependentsMember(ms[..n], p, x);
      PushesMember(ms[n].correlativas, p, ms[n].materia, x);
      if x in DependentsOf(ms[..n], p) {
        var i :| 0 <= i < n && ms[..n][i].materia == x && p in ms[..n][i].correlativas;
        assert ms[i] == ms[..n][i];
      }
      if exists i :: 0 <= i < |ms| && ms[i].materia == x && p in ms[i].correlativas {
        var i :| 0 <= i < |ms| && ms[i].materia == x && p in ms[i].correlativas;
        if i < n {
          assert ms[..n][i] == ms[i];
        }
      }
    }
  }

  /** A name gets an entry exactly when some course lists it. */
  lemma DependentsEmpty(ms: seq<Course>, p: string)
    ensures DependentsOf(ms, p) == [] <==> !Listed(ms, p)
  {
    if DependentsOf(ms, p) != [] {
      DependentsMember(ms, p, DependentsOf(ms, p)[0]);
    }
    if Listed(ms, p) {
      var i :| 0 <= i < |ms| && p in ms[i].correlativas;
      DependentsMember(ms, p, ms[i].materia);
    }
  }

  /** `dependentsMap[cur] || []`. */
  function DepsLookup(dm: map<string, seq<string>>, p: string): seq<string> {
    if p in dm then dm[p] else []
  }

  /** The map knows every course under each of its prerequisites. */
  predicate Accurate(ms: seq<Course>, dm: map<string, seq<string>>) {
    forall i, d :: 0 <= i < |ms| && d in ms[i].correlativas ==> ms[i].materia in DepsLookup(dm, d)
  }

  lemma PushesSnoc(cs: seq<string>, j: nat, p: string, name: string)
    requires j < |cs|
    ensures Pushes(cs[..j + 1], p, name) == Pushes(cs[..j], p, name) + (if cs[j] == p then [name] else [])
  {
    assert cs[..j + 1][..j] == cs[..j];
  }

  lemma DependentsSnoc(ms: seq<Course>, i: nat, p: string)
    requires i < |ms|
    ensures DependentsOf(ms[..i + 1], p) == DependentsOf(ms[..i], p) + Pushes(ms[i].correlativas, p, ms[i].materia)
  {
    assert ms[..i + 1][..i] == ms[..i];
  }

  /** One push of the inner loop keeps the map equal to the original plus
      the pushes made so far. */
  lemma PushStep(dm0: map<string, seq<string>>, dm: map<string, seq<string>>, cs: seq<string>, j: nat, name: string)
    requires j < |cs|
    requires forall p :: DepsLookup(dm, p) == DepsLookup(dm0, p) + Pushes(cs[..j], p, name)
    ensures forall p :: DepsLookup(dm[cs[j] := DepsLookup(dm, cs[j]) + [name]], p) ==
                        DepsLookup(dm0, p) + Pushes(cs[..j + 1], p, name)
  {
    forall p ensures DepsLookup(dm[cs[j] := DepsLookup(dm, cs[j]) + [name]], p) ==
                     DepsLookup(dm0, p) + Pushes(cs[..j + 1], p, name) {
      PushesSnoc(cs, j, p, name);
      if p == cs[j] {
        assert DepsLookup(dm0, p) + Pushes(cs[..j + 1], p, name) == DepsLookup(dm0, p) + Pushes(cs[..j], p, name) + [name];
      }
    }
  }

  /** The inner `forEach` of the memo: course `m` pushed under each of its
      prerequisites. */
  method AddDependent(dm0: map<string, seq<string>>, m: Course) returns (dm: map<string, seq<string>>)
    requires forall p :: p in dm0 ==> dm0[p] != []
    ensures forall p :: DepsLookup(dm, p) == DepsLookup(dm0, p) + Pushes(m.correlativas, p, m.materia)
    ensures forall p :: p in dm ==> dm[p] != []
  {
    dm := dm0;
    for j := 0 to |m.correlativas|
      invariant forall p :: DepsLookup(dm, p) == DepsLookup(dm0, p) + Pushes(m.correlativas[..j], p, m.materia)
      invariant forall p :: p in dm ==> dm[p] != []
    {
      var pre := m.correlativas[j];
      ghost var prev := dm;
      if pre !in dm {
        dm := dm[pre := []];
      }
      dm := dm[pre := dm[pre] + [m.materia]];
      assert dm == prev[pre := DepsLookup(prev, pre) + [m.materia]];
      PushStep(dm0, prev, m.correlativas, j, m.materia);
    }
    assert m.correlativas[..|m.correlativas|] == m.correlativas;
  }

  /** The `dependentsMap` memo: for every prerequisite, the courses listing it
      in input order; names nobody lists have no entry. */
  method DependentsMap(ms: seq<Course>) returns (dm: map<string, seq<string>>)
    ensures forall p :: DepsLookup(dm, p) == DependentsOf(ms, p)
    ensures forall p :: p in dm <==> Listed(ms, p)
    ensures Accurate(ms, dm)
  {
    dm := map[];
    for i := 0 to |ms|
      invariant forall p :: DepsLookup(dm, p) == DependentsOf(ms[..i], p)
      invariant forall p :: p in dm ==> dm[p] != []
    {
      dm := AddDependent(dm, ms[i]);
      forall p ensures DepsLookup(dm, p) == DependentsOf(ms[..i + 1], p) {
        DependentsSnoc(ms, i, p);
      }
    }
    assert ms[..|ms|] == ms;
    forall p ensures p in dm <==> Listed(ms, p) {
      DependentsEmpty(ms, p);
    }
    forall i, d | 0 <= i < |ms| && d in ms[i].correlativas ensures ms[i].materia in DepsLookup(dm, d) {
      DependentsMember(ms, d, ms[i].materia);
    }
  }

  // ---------------------------------------------------------------------------
  // The root of a block

  /** A name the root search may stop at: no loaded course, or one whose
      prerequisites are all lit. */
  predicate Settled(ms: seq<Course>, st: Lamps, n: string) {
    match FindMateria(ms, n)
    case None => true
    case Some(m) => !Blocked(m, st)
  }

  /** Prerequisites rank strictly below the courses listing them. */
  ghost predicate Acyclic(ms: seq<Course>, rank: string -> nat) {
    forall i, d :: 0 <= i < |ms| && d in ms[i].correlativas ==> rank(d) < rank(ms[i].materia)
  }

  ghost predicate AcyclicGraph(ms: seq<Course>) {
    exists rank: string -> nat :: Acyclic(ms, rank)
  }

  /** Every dark prerequisite of a processed course was processed or is queued. */
  predicate Explored(ms: seq<Course>, st: Lamps, x: string, visited: set<string>, queue: seq<string>) {
    match FindMateria(ms, x)
    case None => true
    case Some(m) => forall d :: d in m.correlativas && !Lit(st, d) ==> d in visited || d in queue
  }

  /** `b` is a dark prerequisite of the course the search finds under `a`. */
  predicate DarkStep(ms: seq<Course>, st: Lamps, a: string, b: string) {
    match FindMateria(ms, a)
    case None => false
    case Some(m) => b in m.correlativas && !Lit(st, b)
  }

  /** `p` walks from `subject` to `x`, each step to a dark prerequisite, every
      course strictly inside the walk blocked. */
  predicate DarkWalk(ms: seq<Course>, st: Lamps, p: seq<string>, subject: string, x: string) {
    |p| >= 1 && p[0] == subject && p[|p| - 1] == x &&
    (forall k :: 0 <= k < |p| - 1 ==> DarkStep(ms, st, p[k], p[k + 1])) &&
    (forall k :: 0 < k < |p| - 1 ==> !Settled(ms, st, p[k]))
  }

  /** `x` is reached from `subject` the way the root search walks: through
      dark prerequisites, past blocked courses only. */
  ghost predicate DarkPath(ms: seq<Course>, st: Lamps, subject: string, x: string) {
    exists p :: |p| >= 2 && DarkWalk(ms, st, p, subject, x)
  }

  /** Every name in `paths` has its witness walk from `subject`. */
  ghost predicate Walks(ms: seq<Course>, st: Lamps, subject: string, paths: map<string, seq<string>>) {
    forall x :: x in paths ==> |paths[x]| >= 2 && DarkWalk(ms, st, paths[x], subject, x)
  }

  /** Every queued or visited name other than `subject` has a witness walk. */
  ghost predicate WalksCover(paths: map<string, seq<string>>, subject: string, visited: set<string>, queue: seq<string>) {
    forall x :: (x in queue || x in visited) && x != subject ==> x in paths
  }

  /** Coverage survives moving names from the queue to the visited set and
      queueing names that got a walk. */
  lemma CoverMoves(paths: map<string, seq<string>>, paths': map<string, seq<string>>, subject: string,
                   seen: set<string>, before: seq<string>, visited: set<string>, queue: seq<string>)
    requires WalksCover(paths, subject, seen, before)
    requires forall x :: x in paths ==> x in paths'
    requires forall x :: x in visited ==> x in seen || x in before
    requires forall x :: x in queue ==> x in before || x in paths'
    ensures WalksCover(paths', subject, visited, queue)
  {
  }

  /** A walk ending in a blocked course (or still at its start) extends by
      one dark prerequisite. */
  lemma ExtendDarkWalk(ms: seq<Course>, st: Lamps, p: seq<string>, subject: string, x: string, y: string)
    requires DarkWalk(ms, st, p, subject, x) && (|p| >= 2 ==> !Settled(ms, st, x))
    requires DarkStep(ms, st, x, y)
    ensures DarkWalk(ms, st, p + [y], subject, y) && |p + [y]| >= 2
  {
    var q := p + [y];
    forall k | 0 <= k < |q| - 1 ensures DarkStep(ms, st, q[k], q[k + 1]) {
      if k < |p| - 1 {
        assert q[k] == p[k] && q[k + 1] == p[k + 1];
      }
    }
    forall k | 0 < k < |q| - 1 ensures !Settled(ms, st, q[k]) {
      assert q[k] == p[k];
    }
  }

  /** The witness walks after the prerequisites of `current` are scanned:
      every dark prerequisite of it gets a walk through `current`. */
  lemma WalksGrow(ms: seq<Course>, st: Lamps, subject: string, paths: map<string, seq<string>>,
                  base: seq<string>, current: string, cs: seq<string>)
    returns (paths': map<string, seq<string>>)
    requires Walks(ms, st, subject, paths)
    requires FindMateria(ms, current).Some? && cs == FindMateria(ms, current).value.correlativas
    requires DarkWalk(ms, st, base, subject, current) && (|base| >= 2 ==> !Settled(ms, st, current))
    ensures Walks(ms, st, subject, paths')
    ensures forall x :: x in paths ==> x in paths'
    ensures forall d :: d in cs && !Lit(st, d) ==> d in paths'
  {
    paths' := map x | x in paths.Keys + (set d | d in cs && !Lit(st, d)) ::
                if x in paths then paths[x] else base + [x];
    forall x | x in paths' ensures |paths'[x]| >= 2 && DarkWalk(ms, st, paths'[x], subject, x) {
      if x !in paths {
        ExtendDarkWalk(ms, st, base, subject, current, x);
      }
    }
  }

  /** A name of least rank in a non-empty set. */
  lemma {:induction false} MinimalElement(s: set<string>, rank: string -> nat) returns (x: string)
    requires s != {}
    ensures x in s && forall y :: y in s ==> rank(x) <= rank(y)
    decreases |s|
  {
    var y :| y in s;
    if s == {y} {
      x := y;
    } else {
      var z := MinimalElement(s - {y}, rank);
      x := if rank(y) <= rank(z) then y else z;
    }
  }

  /** The `for (const dep of materia.correlativas)` of the search: queues
      each dark prerequisite that is itself blocked and stops at the first
      one that is not. */
  method ScanPrerequisites(ms: seq<Course>, st: Lamps, cs: seq<string>, queue0: seq<string>)
    returns (queue: seq<string>, root: Option<string>)
    ensures root.Some? ==> root.value in cs && !Lit(st, root.value) && Settled(ms, st, root.value)
    ensures root.None? ==> forall d :: d in cs && !Lit(st, d) ==> d in queue
    ensures |queue| >= |queue0| && queue[..|queue0|] == queue0
    ensures forall x :: x in queue ==> x in queue0 || (x in cs && !Lit(st, x) && !Settled(ms, st, x))
    ensures (forall d :: d in cs ==> Lit(st, d)) ==> queue == queue0
  {
    queue := queue0;
    for j := 0 to |cs|
      invariant forall d :: d in cs[..j] && !Lit(st, d) ==> d in queue
      invariant |queue| >= |queue0| && queue[..|queue0|] == queue0
      invariant forall x :: x in queue ==> x in queue0 || (x in cs && !Lit(st, x) && !Settled(ms, st, x))
      invariant (forall d :: d in cs ==> Lit(st, d)) ==> queue == queue0
    {
      var dep := cs[j];
      if !Lit(st, dep) {
        var depMateria := FindMateria(ms, dep);
        if depMateria.Some? && Blocked(depMateria.value, st) {
          queue := queue + [dep];
        } else {
          root := Some(dep);
          return;
        }
      }
      assert cs[..j + 1] == cs[..j] + [dep];
    }
    assert cs[..|cs|] == cs;
    root := None;
  }

  /** One visit of the search: the prerequisites of `current` are scanned,
      and every dark one gets a witness walk through `current`. */
  method VisitCourse(ms: seq<Course>, st: Lamps, subject: string, current: string, materia: Course,
                     queue0: seq<string>, ghost paths0: map<string, seq<string>>, ghost base: seq<string>)
    returns (queue: seq<string>, root: Option<string>, ghost paths: map<string, seq<string>>)
    requires FindMateria(ms, current) == Some(materia)
    requires Walks(ms, st, subject, paths0)
    requires DarkWalk(ms, st, base, subject, current) && (|base| >= 2 ==> !Settled(ms, st, current))
    ensures root.Some? ==> root.value in materia.correlativas && !Lit(st, root.value) && Settled(ms, st, root.value)
    ensures root.Some? ==> DarkPath(ms, st, subject, root.value)
    ensures root.None? ==> forall d :: d in materia.correlativas && !Lit(st, d) ==> d in queue
    ensures |queue| >= |queue0| && queue[..|queue0|] == queue0
    ensures forall x :: x in queue ==> x in queue0 || (x in materia.correlativas && !Lit(st, x) && !Settled(ms, st, x))
    ensures (forall d :: d in materia.correlativas ==> Lit(st, d)) ==> queue == queue0
    ensures Walks(ms, st, subject, paths) && forall x :: x in paths0 ==> x in paths
    ensures forall x :: x in queue ==> x in queue0 || x in paths
  {
    queue, root := ScanPrerequisites(ms, st, materia.correlativas, queue0);
    paths := WalksGrow(ms, st, subject, paths0, base, current, materia.correlativas);
    if root.Some? {
      ExtendDarkWalk(ms, st, base, subject, current, root.value);
    }
  }

  /** `findRootDependency(subject)`: a breadth-first search through dark
      prerequisites for one that is not itself blocked. It finds nothing when
      the subject is not blocked, and on an acyclic graph it finds a root
      whenever the subject is blocked. */
  method FindRootDependency(ms: seq<Course>, st: Lamps, subject: string) returns (root: Option<string>)
    ensures root.Some? ==> !Lit(st, root.value) && Settled(ms, st, root.value) && Listed(ms, root.value)
    ensures root.Some? ==> DarkPath(ms, st, subject, root.value)
    ensures Settled(ms, st, subject) ==> root.None?
    ensures AcyclicGraph(ms) && !Settled(ms, st, subject) ==> root.Some?
  {
    var visited: set<string> := {};
    var queue := [subject];
    ghost var universe := Names(ms) + {subject};
    ghost var paths: map<string, seq<string>> := map[];
    while |queue| > 0
      invariant SearchInv(ms, st, subject, universe, visited, queue, paths)
      decreases universe - visited, |queue|
    {
      var current := queue[0];
      ghost var before := queue;
      ghost var seen := visited;
      queue := queue[1..];
      if current in visited {
        SkipKeeps(ms, st, subject, universe, seen, before, visited, queue, paths);
        continue;
      }
      visited := visited + {current};
      var materia := FindMateria(ms, current);
      if materia.None? {
        SkipKeeps(ms, st, subject, universe, seen, before, visited, queue, paths);
        continue;
      }
      ghost var base := if current == subject then [subject] else paths[current];
      var found;
      ghost var rest := queue;
      ghost var walks := paths;
      queue, found, paths := VisitCourse(ms, st, subject, current, materia.value, queue, paths, base);
      if found.Some? {
        var i :| 0 <= i < |ms| && ms[i] == materia.value;
        assert found.value in ms[i].correlativas;
        return found;
      }
      VisitKeeps(ms, st, subject, universe, seen, before, visited, rest, queue, materia.value, walks, paths);
    }
    root := None;
    if AcyclicGraph(ms) {
      var rank :| Acyclic(ms, rank);
      SearchSettles(ms, st, visited, rank);
    }
  }

  /** What the search keeps between visits: every name it handles belongs to
      the loaded courses or is the subject; the subject is visited or next;
      every other queued or visited name is blocked and has a witness walk
      from the subject; every visited course has its dark prerequisites
      visited or queued. */
  ghost predicate SearchInv(ms: seq<Course>, st: Lamps, subject: string, universe: set<string>,
                            visited: set<string>, queue: seq<string>, paths: map<string, seq<string>>) {
    universe == Names(ms) + {subject} &&
    visited <= universe && (forall x :: x in queue ==> x in universe) &&
    (subject in visited || (queue != [] && queue[0] == subject)) &&
    (Settled(ms, st, subject) ==> queue == [] || (queue == [subject] && visited == {})) &&
    (forall x :: (x in queue || x in visited) && x != subject ==> !Settled(ms, st, x)) &&
    (forall x :: x in visited ==> Explored(ms, st, x, visited, queue)) &&
    Walks(ms, st, subject, paths) && WalksCover(paths, subject, visited, queue)
  }

  /** Dropping a visited name, or a name with no course, from the head of
      the queue keeps the search invariant. */
  lemma SkipKeeps(ms: seq<Course>, st: Lamps, subject: string, universe: set<string>,
                  seen: set<string>, before: seq<string>, visited: set<string>, queue: seq<string>,
                  paths: map<string, seq<string>>)
    requires SearchInv(ms, st, subject, universe, seen, before, paths)
    requires before != [] && queue == before[1..] && visited == seen + {before[0]}
    requires before[0] in seen || FindMateria(ms, before[0]).None?
    ensures SearchInv(ms, st, subject, universe, visited, queue, paths)
  {
    assert forall x :: x in before ==> x == before[0] || x in queue;
    ExploredGrows(ms, st, seen, before, visited, queue);
    CoverMoves(paths, paths, subject, seen, before, visited, queue);
  }

  /** Visiting a course whose scan found no root keeps the search
      invariant. */
  lemma VisitKeeps(ms: seq<Course>, st: Lamps, subject: string, universe: set<string>,
                   seen: set<string>, before: seq<string>, visited: set<string>, rest: seq<string>,
                   queue: seq<string>, m: Course, walks: map<string, seq<string>>, paths: map<string, seq<string>>)
    requires SearchInv(ms, st, subject, universe, seen, before, walks)
    requires before != [] && rest == before[1..] && before[0] !in seen && visited == seen + {before[0]}
    requires FindMateria(ms, before[0]) == Some(m)
    requires forall d :: d in m.correlativas && !Lit(st, d) ==> d in queue
    requires |queue| >= |rest| && queue[..|rest|] == rest
    requires forall x :: x in queue ==> x in rest || (x in m.correlativas && !Lit(st, x) && !Settled(ms, st, x))
    requires (forall d :: d in m.correlativas ==> Lit(st, d)) ==> queue == rest
    requires Walks(ms, st, subject, paths) && (forall x :: x in walks ==> x in paths)
    requires forall x :: x in queue ==> x in rest || x in paths
    ensures SearchInv(ms, st, subject, universe, visited, queue, paths)
  {
    var current := before[0];
    assert forall x :: x in before ==> x == current || x in rest;
    assert forall x :: x in rest ==> x in queue;
    CoverMoves(walks, paths, subject, seen, before, visited, queue);
    ExploredGrows(ms, st, seen, before, visited, queue);
    assert Explored(ms, st, current, visited, queue);
    if Settled(ms, st, subject) {
      assert !Blocked(m, st);
    }
    forall x | x in queue ensures x in universe {
      if x !in rest {
        assert FindMateria(ms, x).Some?;
      }
    }
  }

  /** Exploration facts survive growing the visited set and moving queued
      names into it or further down the queue. */
  lemma ExploredGrows(ms: seq<Course>, st: Lamps, visited: set<string>, queue: seq<string>,
                      visited': set<string>, queue': seq<string>)
    requires forall x :: x in visited ==> Explored(ms, st, x, visited, queue)
    requires visited <= visited' && forall y :: y in queue ==> y in visited' || y in queue'
    ensures forall x :: x in visited ==> Explored(ms, st, x, visited', queue')
  {
    forall x | x in visited ensures Explored(ms, st, x, visited', queue') {
      assert Explored(ms, st, x, visited, queue);
    }
  }

  /** A search that ran dry on an acyclic graph visited some settled name:
      one of least rank has no dark prerequisite left to explore. */
  lemma SearchSettles(ms: seq<Course>, st: Lamps, visited: set<string>, rank: string -> nat)
    requires Acyclic(ms, rank) && visited != {}
    requires forall x :: x in visited ==> Explored(ms, st, x, visited, [])
    ensures exists x :: x in visited && Settled(ms, st, x)
  {
    var x := MinimalElement(visited, rank);
    var r := FindMateria(ms, x);
    if r.Some? {
      var i :| 0 <= i < |ms| && ms[i] == r.value;
      forall d | d in r.value.correlativas ensures Lit(st, d) {
        assert rank(d) < rank(x);
        assert !Lit(st, d) ==> d in visited;
      }
    }
    assert Settled(ms, st, x);
  }

  /** Course "A" needs "X", and an unrelated course "B" needs "Y". */
  function RootExample(): seq<Course> {
    [Course("A", Num(1), Num(1), "Cuat", ["X"]),
     Course("B", Num(1), Num(1), "Cuat", ["Y"])]
  }

  /** With every lamp dark, the only root reached from "A" is "X": the
      unrelated dark prerequisite "Y" is never a root for "A". */
  lemma RootFollowsSubject(x: string)
    requires DarkPath(RootExample(), map[], "A", x)
    ensures x == "X"
  {
    var ms := RootExample();
    var p :| |p| >= 2 && DarkWalk(ms, map[], p, "A", x);
    assert DarkStep(ms, map[], p[0], p[1]);
    assert p[1] == "X";
  }

  /** `buildDependencyChain(subject)`: the root followed by the subject, or
      nothing. The search from a root finds nothing more, so the loop runs at
      most twice and the `chain.includes` guard never fires. */
  method BuildDependencyChain(ms: seq<Course>, st: Lamps, subject: string) returns (chain: seq<string>)
    ensures chain == [] || (|chain| == 2 && chain[1] == subject && chain[0] != subject &&
                            !Lit(st, chain[0]) && Settled(ms, st, chain[0]) && Listed(ms, chain[0]) &&
                            DarkPath(ms, st, subject, chain[0]))
    ensures Settled(ms, st, subject) ==> chain == []
    ensures AcyclicGraph(ms) && !Settled(ms, st, subject) ==> chain != []
  {
    chain := [];
    var current := subject;
    while true
      invariant chain == [] ==> current == subject
      invariant chain != [] ==> chain == [current] && current != subject && !Lit(st, current) &&
                                Settled(ms, st, current) && Listed(ms, current) && !Settled(ms, st, subject) &&
                                DarkPath(ms, st, subject, current)
      decreases 1 - |chain|
    {
      var root := FindRootDependency(ms, st, current);
      if root.None? || root.value in chain {
        break;
      }
      chain := [root.value] + chain;
      current := root.value;
    }
    if |chain| > 0 {
      chain := chain + [subject];
    }
  }

  // ---------------------------------------------------------------------------
  // Propagation of a toggle

  /** Every lamp that differs from the start now holds `v`. */
  ghost predicate OnlySets(start: Lamps, u: Lamps, v: bool) {
    forall k :: Entry(u, k) != Entry(start, k) ==> Entry(u, k) == Some(v)
  }

  /** The toggled course, or one the propagation changed. */
  predicate IsSource(start: Lamps, u: Lamps, name: string, p: string) {
    p == name || Entry(u, p) != Entry(start, p)
  }

  /** Every dependent of `p` holds `v`. */
  predicate Reached(dm: map<string, seq<string>>, u: Lamps, v: bool, p: string) {
    forall d :: d in DepsLookup(dm, p) ==> Entry(u, d) == Some(v)
  }

  /** `s` holds the toggled course and every dependent of a member of `s`
      that did not already hold `v`. */
  ghost predicate ClosedFrom(dm: map<string, seq<string>>, start: Lamps, name: string, v: bool, s: set<string>) {
    name in s && forall p, d :: p in s && d in DepsLookup(dm, p) && Entry(start, d) != Some(v) ==> d in s
  }

  /** Only names that every such closed set holds were changed. */
  ghost predicate Least(dm: map<string, seq<string>>, start: Lamps, name: string, v: bool, u: Lamps) {
    forall s :: ClosedFrom(dm, start, name, v, s) ==> forall k :: Entry(u, k) != Entry(start, k) ==> k in s
  }

  /** `ClosedFrom` over the dependents the course list itself gives. */
  ghost predicate ClosedOver(ms: seq<Course>, start: Lamps, name: string, v: bool, s: set<string>) {
    name in s && forall p, d :: p in s && d in DependentsOf(ms, p) && Entry(start, d) != Some(v) ==> d in s
  }

  /** `Least` over the dependents the course list itself gives. */
  ghost predicate LeastOver(ms: seq<Course>, start: Lamps, name: string, v: bool, u: Lamps) {
    forall s :: ClosedOver(ms, start, name, v, s) ==> forall k :: Entry(u, k) != Entry(start, k) ==> k in s
  }

  /** With the memo built from the list, the two frames agree. */
  lemma LeastOverMemo(ms: seq<Course>, dm: map<string, seq<string>>, start: Lamps, name: string, v: bool, u: Lamps)
    requires forall p :: DepsLookup(dm, p) == DependentsOf(ms, p)
    requires Least(dm, start, name, v, u)
    ensures LeastOver(ms, start, name, v, u)
  {
    forall s | ClosedOver(ms, start, name, v, s) ensures forall k :: Entry(u, k) != Entry(start, k) ==> k in s {
      assert ClosedFrom(dm, start, name, v, s);
    }
  }

  /** Lit courses with a dark prerequisite only have it because it is still
      on the stack. */
  predicate DarkQueued(ms: seq<Course>, u: Lamps, stack: seq<string>) {
    forall i, d :: 0 <= i < |ms| && Lit(u, ms[i].materia) && d in ms[i].correlativas && !Lit(u, d) ==> d in stack
  }

  /** As `DarkQueued`, while the dependents `rest` of `cur` are being darkened. */
  predicate DarkQueuedExcept(ms: seq<Course>, u: Lamps, stack: seq<string>, cur: string, rest: seq<string>) {
    forall i, d :: 0 <= i < |ms| && Lit(u, ms[i].materia) && d in ms[i].correlativas && !Lit(u, d) ==>
      d in stack || (d == cur && ms[i].materia in rest)
  }

  /** The start of a toggle from a consistent map: lighting keeps it
      consistent, darkening leaves only the toggled course to follow. */
  predicate RepairableFrom(ms: seq<Course>, start: Lamps, name: string, v: bool) {
    (v ==> Consistent(ms, start)) && (!v ==> DarkQueued(ms, start, [name]))
  }

  function AllDependents(dm: map<string, seq<string>>): set<string> {
    set p, d | p in dm && d in dm[p] :: d
  }

  /** Dependents that do not hold `v` yet: each push removes one. */
  function Pending(dm: map<string, seq<string>>, u: Lamps, v: bool): set<string> {
    set d | d in AllDependents(dm) && Entry(u, d) != Some(v)
  }

  lemma PendingShrinks(dm: map<string, seq<string>>, u: Lamps, v: bool, cur: string, dep: string)
    requires dep in DepsLookup(dm, cur) && Entry(u, dep) != Some(v)
    ensures dep in Pending(dm, u, v)
    ensures Pending(dm, u[dep := v], v) == Pending(dm, u, v) - {dep}
    ensures |Pending(dm, u[dep := v], v)| == |Pending(dm, u, v)| - 1
  {
    assert dep in AllDependents(dm);
  }

  /** The guard that keeps relighting consistent: the dependent's own
      prerequisites are all lit. */
  predicate CanLight(ms: seq<Course>, u: Lamps, dep: string) {
    match FindMateria(ms, dep)
    case None => true
    case Some(m) => !Blocked(m, u)
  }

  /** The prerequisites that guard looks at. */
  function Prereqs(ms: seq<Course>, d: string): seq<string> {
    match FindMateria(ms, d)
    case None => []
    case Some(m) => m.correlativas
  }

  /** A dependent is lit, or still waits on a prerequisite that is dark or
      was lit and is still on the stack. */
  predicate LightQueued(ms: seq<Course>, u: Lamps, stack: seq<string>, d: string) {
    Lit(u, d) || exists q :: q in Prereqs(ms, d) && (!Lit(u, q) || q in stack)
  }

  /** Every dependent of a source already popped is lit or still waiting. */
  ghost predicate LightPending(ms: seq<Course>, dm: map<string, seq<string>>, start: Lamps, name: string, u: Lamps,
                               stack: seq<string>) {
    forall p, d :: IsSource(start, u, name, p) && p !in stack && d in DepsLookup(dm, p) ==> LightQueued(ms, u, stack, d)
  }

  /** As `LightPending`, while the dependents `deps[..j]` of the popped `cur`
      have been passed. */
  ghost predicate LightPendingExcept(ms: seq<Course>, dm: map<string, seq<string>>, start: Lamps, name: string,
                                     u0: Lamps, s0: seq<string>, cur: string, u: Lamps, stack: seq<string>,
                                     deps: seq<string>, j: nat) {
    j <= |deps| &&
    (forall k :: 0 <= k < j ==> LightQueued(ms, u, stack, deps[k])) &&
    forall p, d :: IsSource(start, u0, name, p) && p !in s0 + [cur] && d in DepsLookup(dm, p) ==>
                     LightQueued(ms, u, stack + [cur], d)
  }

  /** Every relit course has its prerequisites lit. */
  ghost predicate RelitReady(ms: seq<Course>, start: Lamps, u: Lamps) {
    forall k :: Entry(u, k) != Entry(start, k) ==> CanLight(ms, u, k)
  }

  /** One pass of the `forEach` over `dependentsMap[cur]`: each dependent that
      does not hold `v` is set and pushed. With `checkPrerequisites` a
      dependent is lit only when its prerequisites are. */
  method SpreadFrom(ms: seq<Course>, dm: map<string, seq<string>>, start: Lamps, name: string, v: bool,
                    checkPrerequisites: bool, ghost repair: bool, cur: string, u0: Lamps, s0: seq<string>)
    returns (u: Lamps, stack: seq<string>)
    requires OnlySets(start, u0, v) && Least(dm, start, name, v, u0)
    requires IsSource(start, u0, name, cur) && forall x :: x in s0 ==> IsSource(start, u0, name, x)
    requires repair ==> DistinctNames(ms) && Accurate(ms, dm)
    requires repair && v && checkPrerequisites ==> Consistent(ms, u0)
    requires repair && !v ==> DarkQueuedExcept(ms, u0, s0, cur, DepsLookup(dm, cur))
    requires v && checkPrerequisites ==> RelitReady(ms, start, u0)
    requires v && checkPrerequisites && Accurate(ms, dm) ==> LightPending(ms, dm, start, name, u0, s0 + [cur])
    ensures OnlySets(start, u, v) && Least(dm, start, name, v, u)
    ensures forall k :: Entry(u0, k) == Some(v) ==> Entry(u, k) == Some(v)
    ensures |stack| >= |s0| && stack[..|s0|] == s0
    ensures forall x :: x in stack ==> IsSource(start, u, name, x)
    ensures forall p :: IsSource(start, u, name, p) && !IsSource(start, u0, name, p) ==> p in stack
    ensures !checkPrerequisites || !v ==> Reached(dm, u, v, cur)
    ensures repair && v && checkPrerequisites ==> Consistent(ms, u)
    ensures repair && !v ==> DarkQueued(ms, u, stack)
    ensures Pending(dm, u, v) <= Pending(dm, u0, v)
    ensures |Pending(dm, u, v)| + |stack| == |Pending(dm, u0, v)| + |s0|
    ensures v && checkPrerequisites ==> RelitReady(ms, start, u)
    ensures v && checkPrerequisites && Accurate(ms, dm) ==> LightPending(ms, dm, start, name, u, stack)
  {
    u := u0;
    stack := s0;
    var deps := DepsLookup(dm, cur);
    ghost var light := v && checkPrerequisites && Accurate(ms, dm);
    if light {
      LightSpreadStart(ms, dm, start, name, u0, s0, cur, deps);
    }
    for j := 0 to |deps|
      invariant OnlySets(start, u, v) && Least(dm, start, name, v, u)
      invariant forall k :: Entry(u0, k) == Some(v) ==> Entry(u, k) == Some(v)
      invariant IsSource(start, u, name, cur)
      invariant |stack| >= |s0| && stack[..|s0|] == s0
      invariant forall x :: x in stack ==> IsSource(start, u, name, x)
      invariant forall p :: IsSource(start, u, name, p) && !IsSource(start, u0, name, p) ==> p in stack
      invariant !checkPrerequisites || !v ==> forall k :: 0 <= k < j ==> Entry(u, deps[k]) == Some(v)
      invariant repair && v && checkPrerequisites ==> Consistent(ms, u)
      invariant repair && !v ==> DarkQueuedExcept(ms, u, stack, cur, deps[j..])
      invariant Pending(dm, u, v) <= Pending(dm, u0, v)
      invariant |Pending(dm, u, v)| + |stack| == |Pending(dm, u0, v)| + |s0|
      invariant v && checkPrerequisites ==> RelitReady(ms, start, u)
      invariant light ==> LightPendingExcept(ms, dm, start, name, u0, s0, cur, u, stack, deps, j)
    {
      var dep := deps[j];
      if Entry(u, dep) != Some(v) && (!checkPrerequisites || !v || CanLight(ms, u, dep)) {
        PendingShrinks(dm, u, v, cur, dep);
        LeastStep(dm, start, name, v, u, cur, dep);
        if repair && v && checkPrerequisites {
          LightKeepsConsistent(ms, u, dep);
        }
        if repair && !v {
          DarkenStep(ms, u, stack, cur, deps, j);
        }
        SourcesStep(start, name, v, u0, s0, u, stack, dep);
        if !checkPrerequisites || !v {
          ReachStep(u, v, deps, j);
        }
        if v && checkPrerequisites {
          RelitReadyGrow(ms, start, u, dep);
        }
        if light {
          LightSpreadSet(ms, dm, start, name, u0, s0, cur, u, stack, deps, j);
        }
        u := u[dep := v];
        stack := stack + [dep];
      } else {
        if repair && !v {
          assert Entry(u, dep) == Some(false);
          assert deps[j..] == [dep] + deps[j + 1..];
        }
        if light {
          LightSpreadSkip(ms, dm, start, name, u0, s0, cur, u, stack, deps, j);
        }
      }
    }
    if light {
      LightSpreadDone(ms, dm, start, name, u0, s0, cur, u, stack);
    }
  }

  /** Setting one more dependent keeps the bookkeeping of what changed: the
      stack holds exactly the new sources, and nothing set to `v` is undone. */
  lemma SourcesStep(start: Lamps, name: string, v: bool, u0: Lamps, s0: seq<string>, u: Lamps, stack: seq<string>, dep: string)
    requires OnlySets(start, u, v) && Entry(u, dep) != Some(v)
    requires forall k :: Entry(u0, k) == Some(v) ==> Entry(u, k) == Some(v)
    requires |stack| >= |s0| && stack[..|s0|] == s0
    requires forall x :: x in stack ==> IsSource(start, u, name, x)
    requires forall p :: IsSource(start, u, name, p) && !IsSource(start, u0, name, p) ==> p in stack
    ensures forall k :: Entry(u0, k) == Some(v) ==> Entry(u[dep := v], k) == Some(v)
    ensures |stack + [dep]| >= |s0| && (stack + [dep])[..|s0|] == s0
    ensures forall x :: x in stack + [dep] ==> IsSource(start, u[dep := v], name, x)
    ensures forall p :: IsSource(start, u[dep := v], name, p) && !IsSource(start, u0, name, p) ==> p in stack + [dep]
  {
    var u' := u[dep := v];
    assert Entry(start, dep) != Some(v);
    assert (stack + [dep])[..|s0|] == stack[..|s0|];
    forall x | x in stack + [dep] ensures IsSource(start, u', name, x) {
      if x != dep {
        assert IsSource(start, u, name, x);
      }
    }
    forall p | IsSource(start, u', name, p) && !IsSource(start, u0, name, p) ensures p in stack + [dep] {
      if p != dep {
        assert IsSource(start, u, name, p);
      }
    }
  }

  /** The dependents already passed keep `v` when one more is set to it. */
  lemma ReachStep(u: Lamps, v: bool, deps: seq<string>, j: nat)
    requires j < |deps| && forall k :: 0 <= k < j ==> Entry(u, deps[k]) == Some(v)
    ensures forall k :: 0 <= k < j + 1 ==> Entry(u[deps[j] := v], deps[k]) == Some(v)
  {
    forall k | 0 <= k < j + 1 ensures Entry(u[deps[j] := v], deps[k]) == Some(v) {
      if deps[k] != deps[j] {
        assert Entry(u[deps[j] := v], deps[k]) == Entry(u, deps[k]);
      }
    }
  }

  lemma LeastStep(dm: map<string, seq<string>>, start: Lamps, name: string, v: bool, u: Lamps, cur: string, dep: string)
    requires OnlySets(start, u, v) && Least(dm, start, name, v, u) && IsSource(start, u, name, cur)
    requires dep in DepsLookup(dm, cur) && Entry(u, dep) != Some(v)
    ensures OnlySets(start, u[dep := v], v) && Least(dm, start, name, v, u[dep := v])
  {
    var u' := u[dep := v];
    assert Entry(start, dep) != Some(v);
    forall s | ClosedFrom(dm, start, name, v, s) ensures forall k :: Entry(u', k) != Entry(start, k) ==> k in s {
      assert cur in s;
      assert dep in s;
      forall k | Entry(u', k) != Entry(start, k) ensures k in s {
        if k != dep {
          assert Entry(u, k) == Entry(u', k);
        }
      }
    }
  }

  lemma LightKeepsConsistent(ms: seq<Course>, u: Lamps, dep: string)
    requires DistinctNames(ms) && Consistent(ms, u) && CanLight(ms, u, dep)
    ensures Consistent(ms, u[dep := true])
  {
    var u' := u[dep := true];
    forall i, d | 0 <= i < |ms| && Lit(u', ms[i].materia) && d in ms[i].correlativas ensures Lit(u', d) {
      if ms[i].materia == dep {
        FindUnique(ms, i);
        assert !Blocked(ms[i], u);
      }
    }
  }

  lemma DarkenStep(ms: seq<Course>, u: Lamps, stack: seq<string>, cur: string, deps: seq<string>, j: nat)
    requires j < |deps| && DarkQueuedExcept(ms, u, stack, cur, deps[j..])
    ensures DarkQueuedExcept(ms, u[deps[j] := false], stack + [deps[j]], cur, deps[j + 1..])
  {
    var u' := u[deps[j] := false];
    assert deps[j..] == [deps[j]] + deps[j + 1..];
    forall i, d | 0 <= i < |ms| && Lit(u', ms[i].materia) && d in ms[i].correlativas && !Lit(u', d)
      ensures d in stack + [deps[j]] || (d == cur && ms[i].materia in deps[j + 1..])
    {
      if d != deps[j] {
        assert Lit(u, ms[i].materia) && !Lit(u, d);
      }
    }
  }

  /** Lighting one more course keeps every guard that held. */
  lemma CanLightGrow(ms: seq<Course>, u: Lamps, x: string, d: string)
    requires CanLight(ms, u, d)
    ensures CanLight(ms, u[x := true], d)
  {
    if FindMateria(ms, d).Some? {
      var m := FindMateria(ms, d).value;
      forall q | q in m.correlativas ensures Lit(u[x := true], q) {
        assert Lit(u, q);
      }
    }
  }

  /** A relit course that passed the guard keeps every relit course ready. */
  lemma RelitReadyGrow(ms: seq<Course>, start: Lamps, u: Lamps, x: string)
    requires RelitReady(ms, start, u) && CanLight(ms, u, x)
    ensures RelitReady(ms, start, u[x := true])
  {
    var u' := u[x := true];
    forall k | Entry(u', k) != Entry(start, k) ensures CanLight(ms, u', k) {
      if k != x {
        assert Entry(u', k) == Entry(u, k);
      }
      CanLightGrow(ms, u, x, k);
    }
  }

  /** Lighting `x` and pushing it keeps a waiting dependent waiting. */
  lemma LightQueuedGrow(ms: seq<Course>, u: Lamps, a: seq<string>, b: seq<string>, x: string, d: string)
    requires LightQueued(ms, u, a, d) && x in b && forall q :: q in a ==> q in b
    ensures LightQueued(ms, u[x := true], b, d)
  {
    if !Lit(u, d) {
      var q :| q in Prereqs(ms, d) && (!Lit(u, q) || q in a);
      assert !Lit(u[x := true], q) || q in b;
    }
  }

  lemma LightSpreadStart(ms: seq<Course>, dm: map<string, seq<string>>, start: Lamps, name: string,
                         u0: Lamps, s0: seq<string>, cur: string, deps: seq<string>)
    requires LightPending(ms, dm, start, name, u0, s0 + [cur])
    ensures LightPendingExcept(ms, dm, start, name, u0, s0, cur, u0, s0, deps, 0)
  {
  }

  /** Lighting and pushing the next dependent of `cur`. */
  lemma LightSpreadSet(ms: seq<Course>, dm: map<string, seq<string>>, start: Lamps, name: string,
                       u0: Lamps, s0: seq<string>, cur: string, u: Lamps, stack: seq<string>, deps: seq<string>, j: nat)
    requires j < |deps| && LightPendingExcept(ms, dm, start, name, u0, s0, cur, u, stack, deps, j)
    ensures LightPendingExcept(ms, dm, start, name, u0, s0, cur, u[deps[j] := true], stack + [deps[j]], deps, j + 1)
  {
    var x := deps[j];
    forall k | 0 <= k < j + 1 ensures LightQueued(ms, u[x := true], stack + [x], deps[k]) {
      if k < j {
        LightQueuedGrow(ms, u, stack, stack + [x], x, deps[k]);
      } else {
        assert Lit(u[x := true], x);
      }
    }
    forall p, d | IsSource(start, u0, name, p) && p !in s0 + [cur] && d in DepsLookup(dm, p)
      ensures LightQueued(ms, u[x := true], stack + [x] + [cur], d)
    {
      LightQueuedGrow(ms, u, stack + [cur], stack + [x] + [cur], x, d);
    }
  }

  /** Passing over a dependent that is lit or whose guard fails. */
  lemma LightSpreadSkip(ms: seq<Course>, dm: map<string, seq<string>>, start: Lamps, name: string,
                        u0: Lamps, s0: seq<string>, cur: string, u: Lamps, stack: seq<string>, deps: seq<string>, j: nat)
    requires j < |deps| && LightPendingExcept(ms, dm, start, name, u0, s0, cur, u, stack, deps, j)
    requires Entry(u, deps[j]) == Some(true) || !CanLight(ms, u, deps[j])
    ensures LightPendingExcept(ms, dm, start, name, u0, s0, cur, u, stack, deps, j + 1)
  {
    var d := deps[j];
    if !Lit(u, d) {
      var m := FindMateria(ms, d).value;
      var q :| q in m.correlativas && !Lit(u, q);
      assert q in Prereqs(ms, d);
    }
  }

  /** Once every dependent of `cur` is passed, `cur` need not be waited on. */
  lemma LightSpreadDone(ms: seq<Course>, dm: map<string, seq<string>>, start: Lamps, name: string,
                        u0: Lamps, s0: seq<string>, cur: string, u: Lamps, stack: seq<string>)
    requires Accurate(ms, dm)
    requires LightPendingExcept(ms, dm, start, name, u0, s0, cur, u, stack, DepsLookup(dm, cur), |DepsLookup(dm, cur)|)
    requires |stack| >= |s0| && stack[..|s0|] == s0
    requires forall p :: IsSource(start, u, name, p) && !IsSource(start, u0, name, p) ==> p in stack
    ensures LightPending(ms, dm, start, name, u, stack)
  {
    var deps := DepsLookup(dm, cur);
    forall d | d in deps ensures LightQueued(ms, u, stack, d) {
      var k :| 0 <= k < |deps| && deps[k] == d;
    }
    forall p, d | IsSource(start, u, name, p) && p !in stack && d in DepsLookup(dm, p)
      ensures LightQueued(ms, u, stack, d)
    {
      assert forall x :: x in s0 ==> x in stack by {
        forall x | x in s0 ensures x in stack {
          var i :| 0 <= i < |s0| && s0[i] == x;
          assert stack[i] == x;
        }
      }
      assert IsSource(start, u0, name, p);
      if p != cur {
        assert p !in s0 + [cur];
        assert LightQueued(ms, u, stack + [cur], d);
        if !Lit(u, d) {
          var q :| q in Prereqs(ms, d) && (!Lit(u, q) || q in stack + [cur]);
          if Lit(u, q) && q !in stack {
            assert q == cur;
            var m := FindMateria(ms, d).value;
            var i :| 0 <= i < |ms| && ms[i] == m;
            assert ms[i].materia in DepsLookup(dm, q);
          }
        }
      }
    }
  }

  /** With the stack empty, every dependent of a changed course whose guard
      holds is lit. */
  lemma LightPendingDone(ms: seq<Course>, dm: map<string, seq<string>>, start: Lamps, name: string, u: Lamps)
    requires LightPending(ms, dm, start, name, u, [])
    ensures forall p, d :: IsSource(start, u, name, p) && d in DepsLookup(dm, p) && CanLight(ms, u, d) ==> Lit(u, d)
  {
    forall p, d | IsSource(start, u, name, p) && d in DepsLookup(dm, p) && CanLight(ms, u, d) ensures Lit(u, d) {
      assert LightQueued(ms, u, [], d);
      if !Lit(u, d) {
        var q :| q in Prereqs(ms, d) && (!Lit(u, q) || q in []);
      }
    }
  }

  /** The propagation loop of `handleToggle`: starting from the toggled course,
      each dependent that does not hold the new value gets it and is pushed,
      so each lamp is pushed at most once. As written (`checkPrerequisites`
      false) the result changes only what the closure from the toggled course
      must change and reaches every dependent of what it changed; with the
      prerequisite check a consistent map stays consistent. */
  method Propagate(ms: seq<Course>, dm: map<string, seq<string>>, start: Lamps, name: string, v: bool,
                   checkPrerequisites: bool) returns (updated: Lamps)
    requires Entry(start, name) == Some(v)
    ensures OnlySets(start, updated, v) && Least(dm, start, name, v, updated)
    ensures !checkPrerequisites || !v ==> forall p :: IsSource(start, updated, name, p) ==> Reached(dm, updated, v, p)
    ensures DistinctNames(ms) && Accurate(ms, dm) && RepairableFrom(ms, start, name, v) && (checkPrerequisites || !v) ==>
              Consistent(ms, updated)
    ensures v && checkPrerequisites ==> RelitReady(ms, start, updated)
    ensures v && checkPrerequisites && Accurate(ms, dm) ==>
              forall p, d :: IsSource(start, updated, name, p) && d in DepsLookup(dm, p) && CanLight(ms, updated, d) ==>
                               Lit(updated, d)
  {
    updated := start;
    var stack := [name];
    ghost var repair := DistinctNames(ms) && Accurate(ms, dm) && RepairableFrom(ms, start, name, v) && (checkPrerequisites || !v);
    while |stack| > 0
      invariant OnlySets(start, updated, v) && Least(dm, start, name, v, updated)
      invariant forall x :: x in stack ==> IsSource(start, updated, name, x)
      invariant !checkPrerequisites || !v ==>
                  forall p :: IsSource(start, updated, name, p) && p !in stack ==> Reached(dm, updated, v, p)
      invariant repair && v && checkPrerequisites ==> Consistent(ms, updated)
      invariant repair && !v ==> DarkQueued(ms, updated, stack)
      invariant v && checkPrerequisites ==> RelitReady(ms, start, updated)
      invariant v && checkPrerequisites && Accurate(ms, dm) ==> LightPending(ms, dm, start, name, updated, stack)
      decreases |Pending(dm, updated, v)|, |stack|
    {
      var cur := stack[|stack| - 1];
      var rest := stack[..|stack| - 1];
      assert stack == rest + [cur];
      if repair && !v {
        forall i, d | 0 <= i < |ms| && Lit(updated, ms[i].materia) && d in ms[i].correlativas && !Lit(updated, d)
          ensures d in rest || (d == cur && ms[i].materia in DepsLookup(dm, cur))
        {
          assert d in stack;
        }
      }
      ghost var before := updated;
      ghost var pending := Pending(dm, updated, v);
      updated, stack := SpreadFrom(ms, dm, start, name, v, checkPrerequisites, repair, cur, updated, rest);
      assert |pending| >= |Pending(dm, updated, v)|;
      if !checkPrerequisites || !v {
        forall p | IsSource(start, updated, name, p) && p !in stack ensures Reached(dm, updated, v, p) {
          if p != cur {
            assert p !in rest;
            assert IsSource(start, before, name, p);
          }
        }
      }
    }
    if v && checkPrerequisites && Accurate(ms, dm) {
      LightPendingDone(ms, dm, start, name, updated);
    }
  }

  /** Every prerequisite of a lit course is lit when every course is lit and
      every prerequisite is a loaded course. */
  lemma AllLitConsistent(ms: seq<Course>, st: Lamps)
    requires forall n :: n in Names(ms) ==> Lit(st, n)
    requires forall i, d :: 0 <= i < |ms| && d in ms[i].correlativas ==> d in Names(ms)
    ensures Consistent(ms, st)
  {
  }
}
