/** The order the default `Array.prototype.sort` puts strings in: character
    by character, a proper prefix before the longer string. */
module StringOrder {
  import opened Wrappers
  import opened Seqs
  /** `a` comes strictly before `b`. */
  predicate Less(a: string, b: string)
    decreases |a|
  {
    if a == [] then b != []
    else b != [] && (a[0] < b[0] || (a[0] == b[0] && Less(a[1..], b[1..])))
  }

  lemma {:induction false} LessIrreflexive(a: string)
    ensures !Less(a, a)
    decreases |a|
  {
    if a != [] {
      LessIrreflexive(a[1..]);
    }
  }

  lemma {:induction false} LessTransitive(a: string, b: string, c: string)
    requires Less(a, b) && Less(b, c)
    ensures Less(a, c)
    decreases |a|
  {
    if a != [] && a[0] == b[0] && b[0] == c[0] {
      LessTransitive(a[1..], b[1..], c[1..]);
    }
  }

  /** Two different strings are always ordered one way or the other. */
  lemma {:induction false} LessTotal(a: string, b: string)
    ensures a == b || Less(a, b) || Less(b, a)
    decreases |a|
  {
    if a != [] && b != [] && a[0] == b[0] {
      LessTotal(a[1..], b[1..]);
      if a[1..] == b[1..] {
        assert a == [a[0]] + a[1..] && b == [b[0]] + b[1..];
      }
    }
  }

  lemma LessAsymmetric(a: string, b: string)
    requires Less(a, b)
    ensures !Less(b, a)
  {
    if Less(b, a) {
      LessTransitive(a, b, a);
      LessIrreflexive(a);
    }
  }

  /** In ascending order: no later string comes strictly before an earlier one. */
  predicate Sorted(s: seq<string>) {
    forall i, j :: 0 <= i < j < |s| ==> !Less(s[j], s[i])
  }

  /** `x` put into a sorted list before the first string it comes before. */
  function Insert(x: string, s: seq<string>): (r: seq<string>)
    requires Sorted(s)
    ensures Sorted(r) && multiset(r) == multiset(s) + multiset{x}
  {
    if s == [] then [x]
    else if !Less(s[0], x) then
      InsertFront(x, s);
      [x] + s
    else
      var rest := Insert(x, s[1..]);
      InsertAfterHead(x, s, rest);
      assert s == [s[0]] + s[1..];
      [s[0]] + rest
  }

  lemma InsertFront(x: string, s: seq<string>)
    requires Sorted(s) && s != [] && !Less(s[0], x)
    ensures Sorted([x] + s)
  {
    forall j | 0 < j < |[x] + s|
      ensures !Less(([x] + s)[j], x)
    {
      if Less(s[j - 1], x) {
        LessTotal(s[0], x);
        if j - 1 > 0 {
          assert !Less(s[j - 1], s[0]);
          LessTotal(s[j - 1], s[0]);
          if s[0] != x {
            LessTransitive(s[j - 1], x, s[0]);
          }
        }
      }
    }
  }

  lemma InsertAfterHead(x: string, s: seq<string>, rest: seq<string>)
    requires Sorted(s) && s != [] && Less(s[0], x)
    requires Sorted(rest) && multiset(rest) == multiset(s[1..]) + multiset{x}
    ensures Sorted([s[0]] + rest)
  {
    forall j | 0 <= j < |rest|
      ensures !Less(rest[j], s[0])
    {
      assert rest[j] in multiset(rest);
      if rest[j] == x {
        LessAsymmetric(s[0], x);
      } else {
        assert rest[j] in multiset(s[1..]);
        var k :| 0 <= k < |s[1..]| && s[1..][k] == rest[j];
        assert s[k + 1] == rest[j];
      }
    }
  }

  /** The strings in ascending order. */
  function Sort(s: seq<string>): (r: seq<string>)
    ensures Sorted(r) && multiset(r) == multiset(s)
  {
    if s == [] then []
    else
      assert s == [s[0]] + s[1..];
      Insert(s[0], Sort(s[1..]))
  }

  /** A sorted list without repeats in which nothing comes before what precedes it. */
  lemma SortDistinct(s: seq<string>)
    requires Distinct(s)
    ensures Distinct(Sort(s))
  {
    DistinctOnce(s);
    OnceDistinct(Sort(s));
  }

  /** The strings of a list of possibly undefined values, in order. */
  function Values(s: seq<Option<string>>): (r: seq<string>)
    ensures forall x :: x in r <==> Some(x) in s
  {
    if s == [] then [] else (if s[0].Some? then [s[0].value] else []) + Values(s[1..])
  }

  lemma {:induction false} ValuesDistinct(s: seq<Option<string>>)
    requires Distinct(s)
    ensures Distinct(Values(s))
  {
    if s != [] {
      ValuesDistinct(s[1..]);
      forall k | 0 <= k < |s[1..]|
        ensures s[1..][k] != s[0]
      {
        assert s[1..][k] == s[k + 1];
      }
    }
  }

  /** `sort()` on the contents of a `Set` that may hold `undefined`: the
      strings in ascending order, then `undefined` if it was there. */
  function SortWithUndefined(s: seq<Option<string>>): seq<Option<string>>
    requires Distinct(s)
  {
    Map(Sort(Values(s)), (x: string) => Some(x)) + if None in s then [None] else []
  }

  /** The sorted list holds the same values once each, the strings in
      ascending order and `undefined` only at the end. */
  lemma SortWithUndefinedSpec(s: seq<Option<string>>)
    requires Distinct(s)
    ensures var r := SortWithUndefined(s);
      Distinct(r) && (forall x :: x in r <==> x in s) &&
      (forall i :: 0 <= i < |r| - 1 ==> r[i].Some?) &&
      (forall i, j :: 0 <= i < j < |r| && r[i].Some? && r[j].Some? ==> !Less(r[j].value, r[i].value))
  {
    SortedKeepsValues(s);
    SortedOnce(s);
    SortedAscending(s);
  }

  lemma SortedKeepsValues(s: seq<Option<string>>)
    requires Distinct(s)
    ensures forall x :: x in SortWithUndefined(s) <==> x in s
  {
    var v := Sort(Values(s));
    var m := Map(v, (x: string) => Some(x));
    var r := SortWithUndefined(s);
    assert r == m + if None in s then [None] else [];
    forall x | x in s
      ensures x in r
    {
      if x.Some? {
        assert x.value in multiset(v);
        var k :| 0 <= k < |v| && v[k] == x.value;
        assert m[k] == x;
      }
    }
    forall x | x in r
      ensures x in s
    {
      if x in m {
        var k :| 0 <= k < |m| && m[k] == x;
        assert v[k] in multiset(Values(s));
      }
    }
  }

  lemma SortedOnce(s: seq<Option<string>>)
    requires Distinct(s)
    ensures Distinct(SortWithUndefined(s))
  {
    var v := Sort(Values(s));
    ValuesDistinct(s);
    SortDistinct(Values(s));
    var m := Map(v, (x: string) => Some(x));
    var r := SortWithUndefined(s);
    assert r == m + if None in s then [None] else [];
    forall i, j | 0 <= i < j < |r|
      ensures r[i] != r[j]
    {
      if j < |m| {
        assert r[i] == Some(v[i]) && r[j] == Some(v[j]);
      }
    }
  }

  lemma SortedAscending(s: seq<Option<string>>)
    requires Distinct(s)
    ensures var r := SortWithUndefined(s);
      (forall i :: 0 <= i < |r| - 1 ==> r[i].Some?) &&
      (forall i, j :: 0 <= i < j < |r| && r[i].Some? && r[j].Some? ==> !Less(r[j].value, r[i].value))
  {
    var v := Sort(Values(s));
    var m := Map(v, (x: string) => Some(x));
    var r := SortWithUndefined(s);
    assert r == m + if None in s then [None] else [];
    forall i, j | 0 <= i < j < |r| && r[i].Some? && r[j].Some?
      ensures !Less(r[j].value, r[i].value)
    {
      assert j < |m|;
      assert r[i] == Some(v[i]) && r[j] == Some(v[j]);
    }
  }
}
