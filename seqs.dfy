/** `Array.prototype.filter`, `map` and `Set`-style deduplication on sequences. */
module Seqs {
  import opened Wrappers

  /** `s.filter(p)`: the elements satisfying `p`, in their original order. */
  function Filter<T(!new)>(s: seq<T>, p: T -> bool): (r: seq<T>)
    ensures |r| <= |s|
    ensures forall x :: x in r <==> x in s && p(x)
  {
    if s == [] then [] else (if p(s[0]) then [s[0]] else []) + Filter(s[1..], p)
  }

  lemma {:induction false} FilterAppend<T(!new)>(a: seq<T>, b: seq<T>, p: T -> bool)
    ensures Filter(a + b, p) == Filter(a, p) + Filter(b, p)
  {
    if a == [] {
      assert a + b == b;
    } else {
      var x, rest := a[0], a[1..];
      var head := if p(x) then [x] else [];
      FilterAppend(rest, b, p);
      var left, right := Filter(rest, p), Filter(b, p);
      ConsSplit(a, b);
      FilterCons(x, rest + b, p);
      FilterCons(x, rest, p);
      AppendAssoc(head, left, right);
    }
  }

  lemma ConsSplit<T>(a: seq<T>, b: seq<T>)
    requires a != []
    ensures a == [a[0]] + a[1..] && a + b == [a[0]] + (a[1..] + b)
  {
  }

  lemma AppendAssoc<T>(x: seq<T>, y: seq<T>, z: seq<T>)
    ensures x + (y + z) == (x + y) + z
  {
  }

  /** Filtering a list with a first element decides that element, then filters the rest. */
  lemma FilterCons<T(!new)>(x: T, s: seq<T>, p: T -> bool)
    ensures Filter([x] + s, p) == (if p(x) then [x] else []) + Filter(s, p)
  {
    assert ([x] + s)[0] == x && ([x] + s)[1..] == s;
  }

  lemma FilterSnoc<T(!new)>(s: seq<T>, x: T, p: T -> bool)
    ensures Filter(s + [x], p) == Filter(s, p) + (if p(x) then [x] else [])
  {
    FilterAppend(s, [x], p);
  }

  /** Filtering leaves nothing exactly when no element passes. */
  lemma FilterEmpty<T(!new)>(s: seq<T>, p: T -> bool)
    ensures Filter(s, p) == [] <==> forall x :: x in s ==> !p(x)
  {
    var r := Filter(s, p);
    if r != [] {
      assert r[0] in r;
    }
  }

  /** Filtering a sequence without repeats leaves one without repeats. */
  lemma {:induction false} FilterDistinct<T(!new)>(s: seq<T>, p: T -> bool)
    requires Distinct(s)
    ensures Distinct(Filter(s, p))
  {
    if s != [] {
      FilterDistinct(s[1..], p);
      assert s[0] !in s[1..] by {
        forall k | 0 <= k < |s[1..]|
          ensures s[1..][k] != s[0]
        {
          assert s[1..][k] == s[k + 1];
        }
      }
    }
  }

  /** `s.find(p)`: the first element satisfying `p`, if any. */
  function Find<T>(s: seq<T>, p: T -> bool): (r: Option<T>)
    ensures r.None? <==> forall x :: x in s ==> !p(x)
    ensures r.Some? ==> r.value in s && p(r.value)
    ensures r.Some? && s != [] && p(s[0]) ==> r.value == s[0]
    ensures r.Some? ==> exists i :: 0 <= i < |s| && s[i] == r.value && forall j :: 0 <= j < i ==> !p(s[j])
  {
    if s == [] then None
    else if p(s[0]) then Some(s[0])
    else Find(s[1..], p)
  }

  /** A prefix of a prefix. */
  lemma PrefixOfPrefix<T>(a: seq<T>, b: seq<T>, c: seq<T>)
    requires |a| <= |b| <= |c| && b[..|a|] == a && c[..|b|] == b
    ensures c[..|a|] == a
  {
    assert c[..|a|] == c[..|b|][..|a|];
  }

  /** Filtering with a predicate every element meets keeps everything. */
  lemma {:induction false} FilterKeepsAll<T(!new)>(s: seq<T>, p: T -> bool)
    requires forall x :: x in s ==> p(x)
    ensures Filter(s, p) == s
  {
    if s != [] {
      FilterKeepsAll(s[1..], p);
    }
  }

  /** `s.map(f)`. */
  function Map<T, U>(s: seq<T>, f: T -> U): (r: seq<U>)
    ensures |r| == |s| && forall i :: 0 <= i < |s| ==> r[i] == f(s[i])
  {
    seq(|s|, i requires 0 <= i < |s| => f(s[i]))
  }

  predicate Distinct<T(==)>(s: seq<T>) {
    forall i, j :: 0 <= i < j < |s| ==> s[i] != s[j]
  }

  function Elems<T>(s: seq<T>): set<T> {
    set x | x in s
  }

  /** `Array.from(new Set(s))`: the first occurrence of each value, in order. */
  function Dedup<T(==,!new)>(s: seq<T>): (r: seq<T>)
    ensures Distinct(r)
    ensures forall x :: x in r <==> x in s
  {
    DedupFrom(s, [])
  }

  function DedupFrom<T(==,!new)>(s: seq<T>, seen: seq<T>): (r: seq<T>)
    requires Distinct(seen)
    ensures Distinct(r)
    ensures forall x :: x in r <==> x in seen || x in s
    ensures |r| >= |seen| && r[..|seen|] == seen
  {
    if s == [] then seen
    else if s[0] in seen then DedupFrom(s[1..], seen)
    else DedupFrom(s[1..], seen + [s[0]])
  }

  /** Adding one more value to a `Set`: it goes last unless already there. */
  lemma {:induction false} DedupFromSnoc<T(!new)>(s: seq<T>, x: T, seen: seq<T>)
    requires Distinct(seen)
    ensures DedupFrom(s + [x], seen) ==
      (var r := DedupFrom(s, seen); if x in r then r else r + [x])
    decreases |s|
  {
    if s == [] {
      assert s + [x] == [x];
      assert [x][1..] == [];
    } else {
      assert (s + [x])[0] == s[0];
      assert (s + [x])[1..] == s[1..] + [x];
      if s[0] in seen {
        DedupFromSnoc(s[1..], x, seen);
      } else {
        DedupFromSnoc(s[1..], x, seen + [s[0]]);
      }
    }
  }

  lemma DedupSnoc<T(!new)>(s: seq<T>, x: T)
    ensures Dedup(s + [x]) == if x in Dedup(s) then Dedup(s) else Dedup(s) + [x]
  {
    DedupFromSnoc(s, x, []);
  }

  lemma {:induction false} DedupFromAppend<T(!new)>(s: seq<T>, t: seq<T>, seen: seq<T>)
    requires Distinct(seen)
    ensures DedupFrom(s + t, seen) == DedupFrom(t, DedupFrom(s, seen))
    decreases |s|
  {
    if s == [] {
      assert s + t == t;
    } else {
      assert (s + t)[0] == s[0];
      assert (s + t)[1..] == s[1..] + t;
      if s[0] in seen {
        DedupFromAppend(s[1..], t, seen);
      } else {
        DedupFromAppend(s[1..], t, seen + [s[0]]);
      }
    }
  }

  /** Values added to a `Set` later never move the ones already listed. */
  lemma DedupPrefix<T(!new)>(s: seq<T>, t: seq<T>)
    ensures |Dedup(s)| <= |Dedup(s + t)| && Dedup(s + t)[..|Dedup(s)|] == Dedup(s)
  {
    DedupFromAppend(s, t, []);
  }

  /** The first value added to a `Set` is the first it lists. */
  lemma DedupHead<T(!new)>(s: seq<T>)
    requires s != []
    ensures Dedup(s) != [] && Dedup(s)[0] == s[0]
  {
    assert [] + [s[0]] == [s[0]];
    var r := DedupFrom(s[1..], [s[0]]);
    assert Dedup(s) == r;
    assert r[..1] == [s[0]];
  }

  /** A sequence without repeats holds each value at most once. */
  lemma {:induction false} DistinctOnce<T>(s: seq<T>)
    requires Distinct(s)
    ensures forall x :: multiset(s)[x] <= 1
  {
    if s != [] {
      DistinctOnce(s[1..]);
      assert s == [s[0]] + s[1..];
      forall k | 0 <= k < |s[1..]|
        ensures s[1..][k] != s[0]
      {
        assert s[1..][k] == s[k + 1];
      }
    }
  }

  /** A sequence holding each value at most once has no repeats. */
  lemma OnceDistinct<T>(s: seq<T>)
    requires forall x :: multiset(s)[x] <= 1
    ensures Distinct(s)
  {
    forall i, j | 0 <= i < j < |s|
      ensures s[i] != s[j]
    {
      assert s == s[..j] + s[j..];
      assert s[..j][i] == s[i] && s[j..][0] == s[j];
      assert multiset(s)[s[i]] == multiset(s[..j])[s[i]] + multiset(s[j..])[s[i]];
      assert multiset(s[..j])[s[i]] >= 1 && multiset(s[j..])[s[j]] >= 1;
    }
  }

  /** The values `f` gives for 1 to `n`, in that order, skipping the positions
      where it gives nothing. */
  function Gather<T>(n: nat, f: nat -> Option<T>): (r: seq<T>)
    ensures |r| <= n
  {
    if n == 0 then [] else Gather(n - 1, f) + (if f(n).Some? then [f(n).value] else [])
  }

  lemma {:induction false} GatherMember<T>(n: nat, f: nat -> Option<T>, x: T)
    ensures x in Gather(n, f) <==> exists k :: 1 <= k <= n && f(k) == Some(x)
  {
    if n > 0 {
      GatherMember(n - 1, f, x);
    }
  }

  /** `s.filter(keep).map(f)`, built one element at a time as a loop pushing
      onto a list builds it. */
  function KeepMap<T, U>(s: seq<T>, keep: T -> bool, f: T -> U): (r: seq<U>)
    ensures |r| <= |s|
  {
    if s == [] then []
    else KeepMap(s[..|s| - 1], keep, f) + (if keep(s[|s| - 1]) then [f(s[|s| - 1])] else [])
  }

  lemma {:induction false} KeepMapMember<T, U>(s: seq<T>, keep: T -> bool, f: T -> U, y: U)
    ensures y in KeepMap(s, keep, f) <==> exists x :: x in s && keep(x) && f(x) == y
  {
    if s != [] {
      var init := s[..|s| - 1];
      var last := s[|s| - 1];
      KeepMapMember(init, keep, f, y);
      assert s == init + [last];
      if exists x :: x in s && keep(x) && f(x) == y {
        var x :| x in s && keep(x) && f(x) == y;
        if x != last {
          assert x in init;
        }
      }
    }
  }

  lemma {:induction false} KeepMapAppend<T, U>(a: seq<T>, b: seq<T>, keep: T -> bool, f: T -> U)
    ensures KeepMap(a + b, keep, f) == KeepMap(a, keep, f) + KeepMap(b, keep, f)
    decreases |b|
  {
    if b == [] {
      assert a + b == a;
    } else {
      var init := b[..|b| - 1];
      assert (a + b)[..|a + b| - 1] == a + init;
      KeepMapAppend(a, init, keep, f);
    }
  }

  lemma {:induction false} KeepMapCount<T(!new), U>(s: seq<T>, keep: T -> bool, f: T -> U)
    ensures |KeepMap(s, keep, f)| == |Filter(s, keep)|
  {
    if s != [] {
      var init := s[..|s| - 1];
      assert s == init + [s[|s| - 1]];
      KeepMapCount(init, keep, f);
      FilterSnoc(init, s[|s| - 1], keep);
    }
  }

  /** Mapping distributes over concatenation. */
  lemma MapAppend<T, U>(a: seq<T>, b: seq<T>, f: T -> U)
    ensures Map(a + b, f) == Map(a, f) + Map(b, f)
  {
  }

  /** A value is among the images exactly when some element maps to it. */
  lemma MapMember<T, U>(s: seq<T>, f: T -> U, y: U)
    ensures y in Map(s, f) <==> exists x :: x in s && f(x) == y
  {
    var m := Map(s, f);
    if y in m {
      var k :| 0 <= k < |m| && m[k] == y;
      assert s[k] in s && f(s[k]) == y;
    }
    if exists x :: x in s && f(x) == y {
      var x :| x in s && f(x) == y;
      var k :| 0 <= k < |s| && s[k] == x;
      assert m[k] == y;
    }
  }

  /** A value survives mapping then filtering exactly when it passes the
      filter and is the image of some element. */
  lemma MapFilterMember<T, U(!new)>(s: seq<T>, f: T -> U, p: U -> bool, y: U)
    ensures y in Filter(Map(s, f), p) <==> p(y) && exists x :: x in s && f(x) == y
  {
    var m := Map(s, f);
    if y in m {
      var k :| 0 <= k < |m| && m[k] == y;
      assert s[k] in s && f(s[k]) == y;
    }
    if exists x :: x in s && f(x) == y {
      var x :| x in s && f(x) == y;
      var k :| 0 <= k < |s| && s[k] == x;
      assert m[k] == y;
    }
  }
}
