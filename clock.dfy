/** Clock times in timetable cells: the pattern `\d{1,2}[,:]\d{2}` for one
    time, the pattern `(\d{1,2}[,:]\d{2})\s*a\s*(\d{1,2}[,:]\d{2})` for a
    range "start a end" searched anywhere in a cell, and the "HH:MM" form
    the calendar reads. */
module Clock {
  import opened Wrappers
  import opened Strings

  predicate IsSep(c: char) {
    c == ':' || c == ','
  }

  /** One or two digits, a colon or a comma, two digits. */
  predicate IsClock(g: string) {
    (|g| == 4 && IsDigit(g[0]) && IsSep(g[1]) && IsDigit(g[2]) && IsDigit(g[3]))
    || (|g| == 5 && IsDigit(g[0]) && IsDigit(g[1]) && IsSep(g[2]) && IsDigit(g[3]) && IsDigit(g[4]))
  }

  /** The hour digits of a clock. */
  function HourDigits(g: string): string
    requires IsClock(g)
  {
    g[..|g| - 3]
  }

  /** The minute digits of a clock. */
  function MinuteDigits(g: string): string
    requires IsClock(g)
  {
    g[|g| - 2..]
  }

  /** A clock with a two-digit hour starts at `i`. */
  predicate Clock5At(s: string, i: nat) {
    i + 5 <= |s| && IsDigit(s[i]) && IsDigit(s[i + 1]) && IsSep(s[i + 2]) && IsDigit(s[i + 3]) && IsDigit(s[i + 4])
  }

  /** A clock with a one-digit hour starts at `i`. */
  predicate Clock4At(s: string, i: nat) {
    i + 4 <= |s| && IsDigit(s[i]) && IsSep(s[i + 1]) && IsDigit(s[i + 2]) && IsDigit(s[i + 3])
  }

  /** The length of the clock starting at `i`, 0 when none does. A two-digit
      hour is tried before a one-digit one, as the greedy `\d{1,2}` does;
      the two cannot both fit, since the second character is a digit in one
      and a separator in the other. */
  function ClockAt(s: string, i: nat): (n: nat)
    ensures n == 0 || n == 4 || n == 5
    ensures n > 0 ==> i + n <= |s|
  {
    if Clock5At(s, i) then 5
    else if Clock4At(s, i) then 4
    else 0
  }

  /** `ClockAt` measures exactly the clocks of the pattern. */
  lemma ClockAtIsClock(s: string, i: nat)
    ensures ClockAt(s, i) > 0 ==> IsClock(s[i..i + ClockAt(s, i)])
    ensures ClockAt(s, i) == 0 ==> (i + 4 <= |s| ==> !IsClock(s[i..i + 4])) && (i + 5 <= |s| ==> !IsClock(s[i..i + 5]))
  {
    if i + 5 <= |s| {
      var g := s[i..i + 5];
      assert g[0] == s[i] && g[1] == s[i + 1] && g[2] == s[i + 2] && g[3] == s[i + 3] && g[4] == s[i + 4];
    }
    if i + 4 <= |s| {
      var g := s[i..i + 4];
      assert g[0] == s[i] && g[1] == s[i + 1] && g[2] == s[i + 2] && g[3] == s[i + 3];
    }
  }

  /** The length of the run of white space starting at `i` (`\s*`). */
  function Blanks(s: string, i: nat): (n: nat)
    requires i <= |s|
    ensures i + n <= |s|
    ensures i + n == |s| || !IsSpace(s[i + n])
    decreases |s| - i
  {
    if i < |s| && IsSpace(s[i]) then 1 + Blanks(s, i + 1) else 0
  }

  /** Every character of the run is white space. */
  lemma {:induction false} BlanksAreSpaces(s: string, i: nat)
    requires i <= |s|
    ensures forall k :: i <= k < i + Blanks(s, i) ==> IsSpace(s[k])
    decreases |s| - i
  {
    if i < |s| && IsSpace(s[i]) {
      BlanksAreSpaces(s, i + 1);
    }
  }

  /** Text made of white space only. */
  predicate AllSpace(u: string)
    decreases |u|
  {
    u == [] || (IsSpace(u[0]) && AllSpace(u[1..]))
  }

  /** The two captured clocks of a range starting exactly at `i`. The
      white-space runs are taken whole: the first is followed by "a" and the
      second by a digit, neither of which is white space, so no shorter run
      could match instead. */
  function RangeAt(s: string, i: nat): (r: Option<(string, string)>)
    ensures r.Some? ==> IsClock(r.value.0) && IsClock(r.value.1)
  {
    ClockAtIsClock(s, i);
    var a := ClockAt(s, i);
    if a == 0 then None
    else
      var j := i + a + Blanks(s, i + a);
      if j >= |s| || s[j] != 'a' then None
      else
        var k := j + 1 + Blanks(s, j + 1);
        var b := ClockAt(s, k);
        ClockAtIsClock(s, k);
        if b == 0 then None else Some((s[i..i + a], s[k..k + b]))
  }

  /** A range has its "a" somewhere in the text. */
  lemma RangeHasSeparator(s: string, i: nat) returns (j: nat)
    requires RangeAt(s, i).Some?
    ensures j < |s| && s[j] == 'a'
  {
    var a := ClockAt(s, i);
    j := i + a + Blanks(s, i + a);
  }

  /** `s.match(...)` from position `from`: the captures of the first range
      found scanning forward. */
  function FindRangeFrom(s: string, from: nat): (r: Option<(string, string)>)
    ensures r.Some? ==> IsClock(r.value.0) && IsClock(r.value.1)
    decreases |s| - from
  {
    if from >= |s| then None
    else
      match RangeAt(s, from)
      case Some(g) => Some(g)
      case None => FindRangeFrom(s, from + 1)
  }

  /** The captures of the leftmost time range in `s`, if any. */
  function FindRange(s: string): (r: Option<(string, string)>)
    ensures r.Some? ==> IsClock(r.value.0) && IsClock(r.value.1)
  {
    FindRangeFrom(s, 0)
  }

  /** The scan from `from` finds the leftmost range at or after `from`, and
      nothing when there is none. */
  lemma {:induction false} FindRangeFromLeftmost(s: string, from: nat)
    ensures FindRangeFrom(s, from).None? ==> forall i: nat :: from <= i ==> RangeAt(s, i).None?
    ensures FindRangeFrom(s, from).Some? ==>
      exists i: nat :: from <= i && RangeAt(s, i) == FindRangeFrom(s, from) && forall j: nat :: from <= j < i ==> RangeAt(s, j).None?
    decreases |s| - from
  {
    if from >= |s| {
      assert forall i: nat :: from <= i ==> ClockAt(s, i) == 0;
    } else if RangeAt(s, from).None? {
      FindRangeFromLeftmost(s, from + 1);
      if FindRangeFrom(s, from).Some? {
        var i: nat :| from + 1 <= i && RangeAt(s, i) == FindRangeFrom(s, from + 1) && forall j: nat :: from + 1 <= j < i ==> RangeAt(s, j).None?;
        assert from <= i && RangeAt(s, i) == FindRangeFrom(s, from);
      }
    }
  }

  /** `match` finds the leftmost range of the text, and nothing when there
      is none. */
  lemma FindRangeLeftmost(s: string)
    ensures FindRange(s).None? ==> forall i: nat :: RangeAt(s, i).None?
    ensures FindRange(s).Some? ==> exists i: nat :: RangeAt(s, i) == FindRange(s) && forall j: nat :: j < i ==> RangeAt(s, j).None?
  {
    FindRangeFromLeftmost(s, 0);
  }

  /** A range at the very start of the text is the one `match` finds. */
  lemma FindRangeAtStart(s: string)
    requires RangeAt(s, 0).Some?
    ensures FindRange(s) == RangeAt(s, 0)
  {
  }

  /** "start a end", with any white space around the "a", is read as its
      two clocks: a clock at `i`, white space up to the "a" at `j`, white
      space up to a clock at `k`, whatever follows. */
  lemma RangeAtSlices(s: string, i: nat, j: nat, k: nat, g1: string, g2: string)
    requires IsClock(g1) && IsClock(g2)
    requires i + |g1| <= j < k && k + |g2| <= |s|
    requires s[i..i + |g1|] == g1 && AllSpace(s[i + |g1|..j]) && s[j] == 'a'
    requires AllSpace(s[j + 1..k]) && s[k..k + |g2|] == g2
    ensures RangeAt(s, i) == Some((g1, g2))
  {
    SlicesMeasured(s, i, j, k, g1, g2);
    RangeAtParts(s, i, |g1|, j, k, |g2|, g1, g2);
  }

  /** The pieces of a written range, measured where they lie. */
  lemma SlicesMeasured(s: string, i: nat, j: nat, k: nat, g1: string, g2: string)
    requires IsClock(g1) && IsClock(g2)
    requires i + |g1| <= j < k && k + |g2| <= |s|
    requires s[i..i + |g1|] == g1 && AllSpace(s[i + |g1|..j]) && s[j] == 'a'
    requires AllSpace(s[j + 1..k]) && s[k..k + |g2|] == g2
    ensures ClockAt(s, i) == |g1| && ClockAt(s, k) == |g2|
    ensures Blanks(s, i + |g1|) == j - i - |g1| && Blanks(s, j + 1) == k - j - 1
  {
    ClocksMeasured(s, i, k, g1, g2);
    BlanksMeasured(s, i + |g1|, j, k);
  }

  lemma ClocksMeasured(s: string, i: nat, k: nat, g1: string, g2: string)
    requires IsClock(g1) && IsClock(g2)
    requires i + |g1| <= |s| && k + |g2| <= |s|
    requires s[i..i + |g1|] == g1 && s[k..k + |g2|] == g2
    ensures ClockAt(s, i) == |g1| && ClockAt(s, k) == |g2| && !IsSpace(s[k])
  {
    ClockSlice(s, i, g1);
    ClockSlice(s, k, g2);
  }

  lemma BlanksMeasured(s: string, x: nat, j: nat, k: nat)
    requires x <= j < k < |s| && AllSpace(s[x..j]) && s[j] == 'a'
    requires AllSpace(s[j + 1..k]) && !IsSpace(s[k])
    ensures Blanks(s, x) == j - x && Blanks(s, j + 1) == k - j - 1
  {
    BlanksSlice(s, x, j);
    BlanksSlice(s, j + 1, k);
  }

  /** A clock lying at `k` is measured whole. */
  lemma ClockSlice(s: string, k: nat, g: string)
    requires IsClock(g) && k + |g| <= |s| && s[k..k + |g|] == g
    ensures ClockAt(s, k) == |g| && !IsSpace(s[k])
  {
    assert s[k] == g[0] && s[k + 1] == g[1] && s[k + 2] == g[2] && s[k + 3] == g[3];
    if |g| == 5 {
      assert s[k + 4] == g[4];
    }
  }

  /** White space lying between `x` and a character that is not white space
      at `y` is measured exactly. */
  lemma {:induction false} BlanksSlice(s: string, x: nat, y: nat)
    requires x <= y < |s| && AllSpace(s[x..y]) && !IsSpace(s[y])
    ensures Blanks(s, x) == y - x
    decreases y - x
  {
    if x < y {
      assert s[x..y][0] == s[x];
      assert s[x..y][1..] == s[x + 1..y];
      BlanksSlice(s, x + 1, y);
    }
  }

  /** `RangeAt` once its steps are known: a clock of length `a` at `i`, white
      space up to the "a" at `j`, white space up to a clock of length `b` at
      `k`. */
  lemma RangeAtParts(s: string, i: nat, a: nat, j: nat, k: nat, b: nat, g1: string, g2: string)
    requires ClockAt(s, i) == a && a > 0
    requires i + a <= |s| && Blanks(s, i + a) == j - i - a
    requires j < |s| && s[j] == 'a'
    requires Blanks(s, j + 1) == k - j - 1 && ClockAt(s, k) == b && b > 0
    requires s[i..i + a] == g1 && s[k..k + b] == g2
    ensures RangeAt(s, i) == Some((g1, g2))
  {
    RangeAtFirst(s, i, a, j);
    RangeAtSecond(s, i, a, j, k, b);
  }

  lemma RangeAtFirst(s: string, i: nat, a: nat, j: nat)
    requires ClockAt(s, i) == a && a > 0
    requires i + a <= |s| && Blanks(s, i + a) == j - i - a
    requires j < |s| && s[j] == 'a'
    requires ClockAt(s, j + 1 + Blanks(s, j + 1)) > 0
    ensures RangeAt(s, i).Some? && RangeAt(s, i).value.0 == s[i..i + a]
  {
  }

  lemma RangeAtSecond(s: string, i: nat, a: nat, j: nat, k: nat, b: nat)
    requires ClockAt(s, i) == a && a > 0
    requires i + a <= |s| && Blanks(s, i + a) == j - i - a
    requires j < |s| && s[j] == 'a'
    requires Blanks(s, j + 1) == k - j - 1 && ClockAt(s, k) == b && b > 0
    ensures RangeAt(s, i).Some? ==> RangeAt(s, i).value.1 == s[k..k + b]
  {
  }

  // ---------------------------------------------------------------------------
  // Normalising a clock to "HH:MM"

  /** A clock with its separator turned into a colon splits into its hour and
      minute digits. */
  lemma ClockParts(g: string)
    requires IsClock(g)
    ensures Split(ReplaceFirst(g, ",", ":"), ":") == [HourDigits(g), MinuteDigits(g)]
  {
    var h := HourDigits(g);
    var m := MinuteDigits(g);
    ColonForm(g);
    assert Join([h, m], ":") == h + ":" + m;
    SplitJoin([h, m], ':');
  }

  /** Replacing the first comma of a clock gives its colon form. */
  lemma ColonForm(g: string)
    requires IsClock(g)
    ensures ReplaceFirst(g, ",", ":") == HourDigits(g) + ":" + MinuteDigits(g)
  {
    var p := |g| - 3;
    assert g == HourDigits(g) + [g[p]] + MinuteDigits(g);
    if g[p] == ',' {
      CommaForm(g);
    } else {
      assert forall j: nat :: !OccursAt(g, ",", j) by {
        forall j: nat | OccursAt(g, ",", j)
          ensures false
        {
          OccursChar(g, ',', j);
        }
      }
      assert g == HourDigits(g) + ":" + MinuteDigits(g);
    }
  }

  lemma CommaForm(g: string)
    requires IsClock(g) && g[|g| - 3] == ','
    ensures ReplaceFirst(g, ",", ":") == HourDigits(g) + ":" + MinuteDigits(g)
  {
    var p := |g| - 3;
    assert OccursAt(g, ",", p) by {
      assert g[p..p + 1] == [g[p]];
    }
    var i := IndexOf(g, ",").value;
    OccursChar(g, ',', i);
    assert g[..p] == HourDigits(g) && g[p + 1..] == MinuteDigits(g);
  }

  /** A clock with its separator written as a colon. */
  function ColonClock(g: string): string
    requires IsClock(g)
  {
    HourDigits(g) + ":" + MinuteDigits(g)
  }

  /** Writing the separator as a colon keeps a clock, and the time it reads. */
  lemma ColonClockReads(g: string)
    requires IsClock(g)
    ensures IsClock(ColonClock(g))
    ensures HourValue(ColonClock(g)) == HourValue(g) && MinuteValue(ColonClock(g)) == MinuteValue(g)
  {
    var c := ColonClock(g);
    assert |c| == |g|;
    assert forall k :: 0 <= k < |g| && k != |g| - 3 ==> c[k] == g[k];
  }

  /** A time in "HH:MM" form. */
  predicate IsHourMinute(r: string) {
    IsClock(r) && |r| == 5 && r[2] == ':'
  }

  function Digit(c: char): nat
    requires IsDigit(c)
  {
    c as int - '0' as int
  }

  /** The hour a clock reads. */
  function HourValue(g: string): nat
    requires IsClock(g)
  {
    if |g| == 4 then Digit(g[0]) else Digit(g[0]) * 10 + Digit(g[1])
  }

  /** The minute a clock reads. */
  function MinuteValue(g: string): nat
    requires IsClock(g)
  {
    Digit(g[|g| - 2]) * 10 + Digit(g[|g| - 1])
  }

  /** The normalisation of a captured time: the separator becomes a colon and
      hour and minute are zero-padded to two digits each. */
  function NormalizeClock(g: string): (r: string)
    requires IsClock(g)
  {
    ClockParts(g);
    var parts := Split(ReplaceFirst(g, ",", ":"), ":");
    PadStart2(parts[0]) + ":" + PadStart2(parts[1])
  }

  lemma NormalizeClockIs(g: string)
    requires IsClock(g)
    ensures NormalizeClock(g) == PadStart2(HourDigits(g)) + ":" + MinuteDigits(g)
  {
    ClockParts(g);
    var m := MinuteDigits(g);
    assert PadStart2(m)[0..] == m;
  }

  /** A normalised clock is in "HH:MM" form and reads the same hour and minute. */
  lemma NormalizeClockShape(g: string)
    requires IsClock(g)
    ensures IsHourMinute(NormalizeClock(g))
    ensures HourValue(NormalizeClock(g)) == HourValue(g) && MinuteValue(NormalizeClock(g)) == MinuteValue(g)
  {
    NormalizeClockIs(g);
    PaddedShape(g);
  }

  lemma PaddedShape(g: string)
    requires IsClock(g)
    ensures var r := PadStart2(HourDigits(g)) + ":" + MinuteDigits(g);
      IsHourMinute(r) && HourValue(r) == HourValue(g) && MinuteValue(r) == MinuteValue(g)
  {
    var r := PadStart2(HourDigits(g)) + ":" + MinuteDigits(g);
    assert r == Padded(g) by {
      PaddedIs(g);
    }
  }

  /** The padded clock, character by character. */
  function Padded(g: string): string
    requires IsClock(g)
  {
    if |g| == 4 then ['0', g[0], ':', g[2], g[3]] else [g[0], g[1], ':', g[3], g[4]]
  }

  lemma PaddedIs(g: string)
    requires IsClock(g)
    ensures PadStart2(HourDigits(g)) + ":" + MinuteDigits(g) == Padded(g)
  {
    var h := HourDigits(g);
    var m := MinuteDigits(g);
    assert m == [g[|g| - 2], g[|g| - 1]];
    if |g| == 4 {
      assert h == [g[0]];
      assert PadStart2(h) == ['0', g[0]];
    } else {
      assert h == [g[0], g[1]];
      assert PadStart2(h) == h;
    }
  }

  /** Normalising a time already in "HH:MM" form leaves it unchanged. */
  lemma NormalizeIdempotent(r: string)
    requires IsHourMinute(r)
    ensures IsClock(r) && NormalizeClock(r) == r
  {
    NormalizeClockIs(r);
    PaddedIs(r);
    assert Padded(r) == r;
  }

  /** `parseInt(t.split(':')[0])`: the hour the calendar range is built from. */
  function HourOf(t: string): JsNumber {
    ParseInt(Split(t, ":")[0])
  }

  lemma HourOfHourMinute(r: string)
    requires IsHourMinute(r)
    ensures HourOf(r) == Num(HourValue(r))
  {
    assert r == Join([r[..2], r[3..]], ":");
    SplitJoin([r[..2], r[3..]], ':');
    var h := r[..2];
    assert AllDigits(h);
    assert h[..1] == [r[0]] && h[1] == r[1];
    assert DigitsValue([r[0]]) == Digit(r[0]) by {
      assert [r[0]][..0] == [];
    }
    assert DigitsValue(h) == HourValue(r);
  }
}
