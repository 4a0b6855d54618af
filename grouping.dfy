/** Bucketing of the curriculum by year and by term column, the cable colour
    of a course, and the two key comparators the board sorts its columns
    with. The record-of-records the source builds is modelled as association
    lists in insertion order: `g[y]` is one year, `g[y].buckets[b]` one term
    column of it. */
module Grouping {
  import opened Wrappers
  import opened Strings
  import opened Seqs

  /** Where a course sits on the board: its year, its term and its kind. */
  datatype Placement = Placement(anio: JsNumber, cuatrimestre: JsNumber, tipo: string)

  /** `String(n)` for a number that may be NaN. */
  function NumberText(n: JsNumber): string {
    match n
    case Num(v) => IntToString(v)
    case NaN => "NaN"
  }

  /** The column key inside a year. */
  function Clave(p: Placement): (k: string)
    ensures k == "Anual" <==> p.tipo == "Anual" || p.cuatrimestre == Num(0)
    ensures k != "Anual" ==> |k| >= 1 && k[0] == 'C' && k[1..] == NumberText(p.cuatrimestre)
  {
    if p.tipo == "Anual" || p.cuatrimestre == Num(0) then "Anual"
    else
      var k := "C" + NumberText(p.cuatrimestre);
      assert k[0] != "Anual"[0];
      k
  }

  datatype Bucket<T> = Bucket(clave: string, items: seq<T>)
  datatype YearGroup<T> = YearGroup(anio: JsNumber, buckets: seq<Bucket<T>>)

  /** `x` belongs in column `clave` of year `anio`. */
  predicate Belongs<T>(place: T -> Placement, x: T, anio: JsNumber, clave: string) {
    place(x).anio == anio && Clave(place(x)) == clave
  }

  /** The items that belong in column `clave` of year `anio`, in input order. */
  function Column<T>(items: seq<T>, place: T -> Placement, anio: JsNumber, clave: string): seq<T> {
    if items == [] then []
    else
      var last := items[|items| - 1];
      Column(items[..|items| - 1], place, anio, clave) + (if Belongs(place, last, anio, clave) then [last] else [])
  }

  /** An item is in a column exactly when it is an input item that belongs there. */
  lemma {:induction false} ColumnMember<T>(items: seq<T>, place: T -> Placement, anio: JsNumber, clave: string, x: T)
    ensures x in Column(items, place, anio, clave) <==> x in items && Belongs(place, x, anio, clave)
  {
    if items != [] {
      var init := items[..|items| - 1];
      ColumnMember(init, place, anio, clave, x);
      assert items == init + [items[|items| - 1]];
    }
  }

  /** `result[anio]`, searched from the most recent year. */
  function YearIndex<T>(g: seq<YearGroup<T>>, a: JsNumber): (r: Option<nat>)
    ensures r.Some? ==> r.value < |g| && g[r.value].anio == a
    ensures r.None? ==> forall y :: 0 <= y < |g| ==> g[y].anio != a
  {
    if g == [] then None
    else if g[|g| - 1].anio == a then Some(|g| - 1)
    else YearIndex(g[..|g| - 1], a)
  }

  /** `result[anio][clave]`, searched from the most recent column. */
  function ClaveIndex<T>(bs: seq<Bucket<T>>, k: string): (r: Option<nat>)
    ensures r.Some? ==> r.value < |bs| && bs[r.value].clave == k
    ensures r.None? ==> forall b :: 0 <= b < |bs| ==> bs[b].clave != k
  {
    if bs == [] then None
    else if bs[|bs| - 1].clave == k then Some(|bs| - 1)
    else ClaveIndex(bs[..|bs| - 1], k)
  }

  /** The column `x` was placed in exists. */
  predicate Located<T>(g: seq<YearGroup<T>>, p: Placement) {
    var y := YearIndex(g, p.anio);
    y.Some? && ClaveIndex(g[y.value].buckets, Clave(p)).Some?
  }

  /** Year keys are distinct, and so are the column keys of each year. */
  predicate KeysDistinct<T>(g: seq<YearGroup<T>>) {
    (forall y1, y2 :: 0 <= y1 < y2 < |g| ==> g[y1].anio != g[y2].anio) &&
    (forall y, b1, b2 :: 0 <= y < |g| && 0 <= b1 < b2 < |g[y].buckets| ==>
       g[y].buckets[b1].clave != g[y].buckets[b2].clave)
  }

  /** Every column holds exactly the items that belong in it, in input order. */
  ghost predicate Contents<T>(items: seq<T>, place: T -> Placement, g: seq<YearGroup<T>>) {
    forall y, b :: 0 <= y < |g| && 0 <= b < |g[y].buckets| ==>
      g[y].buckets[b].items == Column(items, place, g[y].anio, g[y].buckets[b].clave)
  }

  /** Every input item has its column. */
  predicate Covers<T>(items: seq<T>, place: T -> Placement, g: seq<YearGroup<T>>) {
    forall i :: 0 <= i < |items| ==> Located(g, place(items[i]))
  }

  /** No year without columns and no empty column. */
  predicate NonEmpty<T>(g: seq<YearGroup<T>>) {
    (forall y :: 0 <= y < |g| ==> g[y].buckets != []) &&
    (forall y, b :: 0 <= y < |g| && 0 <= b < |g[y].buckets| ==> g[y].buckets[b].items != [])
  }

  ghost predicate GroupedBy<T>(items: seq<T>, place: T -> Placement, g: seq<YearGroup<T>>) {
    KeysDistinct(g) && Contents(items, place, g) && Covers(items, place, g) && NonEmpty(g)
  }

  function BucketsCount<T>(bs: seq<Bucket<T>>): nat {
    if bs == [] then 0 else BucketsCount(bs[..|bs| - 1]) + |bs[|bs| - 1].items|
  }

  /** The number of grouped items. */
  function Count<T>(g: seq<YearGroup<T>>): nat {
    if g == [] then 0 else Count(g[..|g| - 1]) + BucketsCount(g[|g| - 1].buckets)
  }

  /** One item placed: appended to its column, which is created (with its
      year) when missing. */
  function Insert<T>(g: seq<YearGroup<T>>, place: T -> Placement, m: T): seq<YearGroup<T>> {
    var p := place(m);
    var k := Clave(p);
    match YearIndex(g, p.anio)
    case None => g + [YearGroup(p.anio, [Bucket(k, [m])])]
    case Some(y) =>
      match ClaveIndex(g[y].buckets, k)
      case None => g[y := g[y].(buckets := g[y].buckets + [Bucket(k, [m])])]
      case Some(b) =>
        var bk := g[y].buckets[b];
        g[y := g[y].(buckets := g[y].buckets[b := bk.(items := bk.items + [m])])]
  }

  /** The grouping of `items`, one item after the other. */
  function GroupSpec<T>(items: seq<T>, place: T -> Placement): seq<YearGroup<T>> {
    if items == [] then [] else Insert(GroupSpec(items[..|items| - 1], place), place, items[|items| - 1])
  }

  /** `useGroupedMaterias` (and the identical `groupedByYear` of the two-state
      board): every item goes to the column of its year and key, in order. */
  method GroupByYear<T>(items: seq<T>, place: T -> Placement) returns (g: seq<YearGroup<T>>)
    ensures g == GroupSpec(items, place)
    ensures GroupedBy(items, place, g) && Count(g) == |items|
  {
    g := [];
    var i := 0;
    while i < |items|
      invariant i <= |items|
      invariant g == GroupSpec(items[..i], place)
    {
      g := PlaceItem(g, place, items[i]);
      assert items[..i + 1][..i] == items[..i];
      i := i + 1;
    }
    assert items[..i] == items;
    GroupSpecGrouped(items, place);
  }

  /** One step of the `forEach`: the year record is created on first use,
      then the column, then the item is pushed onto the column. */
  method PlaceItem<T>(g0: seq<YearGroup<T>>, place: T -> Placement, m: T) returns (g: seq<YearGroup<T>>)
    ensures g == Insert(g0, place, m)
  {
    g := g0;
    var p := place(m);
    var y := YearIndex(g, p.anio);
    if y.None? {
      g := g + [YearGroup(p.anio, [])];
      y := Some(|g| - 1);
    }
    ghost var g1 := g;
    var clave := Clave(p);
    var yi := y.value;
    var b := ClaveIndex(g[yi].buckets, clave);
    if b.None? {
      g := g[yi := g[yi].(buckets := g[yi].buckets + [Bucket(clave, [])])];
      b := Some(|g[yi].buckets| - 1);
    }
    ghost var g2 := g;
    var bi := b.value;
    var bk := g[yi].buckets[bi];
    g := g[yi := g[yi].(buckets := g[yi].buckets[bi := bk.(items := bk.items + [m])])];
    assert g == Insert(g0, place, m) by {
      if YearIndex(g0, p.anio).None? {
        assert yi == |g0| && g1 == g0 + [YearGroup(p.anio, [])];
        assert g1[yi].buckets == [] && g1[yi].buckets + [Bucket(clave, [])] == [Bucket(clave, [])];
        assert g2 == g0 + [YearGroup(p.anio, [Bucket(clave, [])])];
        assert bi == 0 && bk == Bucket(clave, []) && bk.items + [m] == [m];
        assert g2[yi].buckets[bi := bk.(items := bk.items + [m])] == [Bucket(clave, [m])];
        assert g == g0 + [YearGroup(p.anio, [Bucket(clave, [m])])];
      } else if ClaveIndex(g0[yi].buckets, clave).None? {
        var bs := g0[yi].buckets;
        assert g1 == g0 && bi == |bs| && bk == Bucket(clave, []) && bk.items + [m] == [m];
        assert (bs + [bk])[bi := bk.(items := bk.items + [m])] == bs + [Bucket(clave, [m])];
        assert g == g0[yi := g0[yi].(buckets := g0[yi].buckets + [Bucket(clave, [m])])];
      }
    }
  }

  // ---------------------------------------------------------------------------
  // Grouping keeps its invariants item by item

  lemma {:induction false} GroupSpecGrouped<T>(items: seq<T>, place: T -> Placement)
    ensures GroupedBy(items, place, GroupSpec(items, place))
    ensures Count(GroupSpec(items, place)) == |items|
  {
    if items != [] {
      var init := items[..|items| - 1];
      var last := items[|items| - 1];
      assert items == init + [last];
      GroupSpecGrouped(init, place);
      InsertKeepsGrouped(init, place, GroupSpec(init, place), last);
    }
  }

  lemma InsertKeepsGrouped<T>(items: seq<T>, place: T -> Placement, g: seq<YearGroup<T>>, m: T)
    requires GroupedBy(items, place, g)
    ensures GroupedBy(items + [m], place, Insert(g, place, m))
    ensures Count(Insert(g, place, m)) == Count(g) + 1
  {
    var p := place(m);
    var k := Clave(p);
    match YearIndex(g, p.anio)
    case None => AddYear(items, place, g, m);
    case Some(y) =>
      match ClaveIndex(g[y].buckets, k)
      case None => AddColumn(items, place, g, m, y);
      case Some(b) => PushItem(items, place, g, m, y, b);
  }

  lemma ColumnSnoc<T>(items: seq<T>, place: T -> Placement, anio: JsNumber, clave: string, m: T)
    ensures Column(items + [m], place, anio, clave) ==
            Column(items, place, anio, clave) + (if Belongs(place, m, anio, clave) then [m] else [])
  {
    assert (items + [m])[..|items|] == items;
  }

  /** Items already placed do not belong in a column that does not exist yet. */
  lemma NoItemsForMissingColumn<T>(items: seq<T>, place: T -> Placement, g: seq<YearGroup<T>>, a: JsNumber, k: string)
    requires Covers(items, place, g)
    requires YearIndex(g, a).None? || ClaveIndex(g[YearIndex(g, a).value].buckets, k).None?
    ensures Column(items, place, a, k) == []
  {
    var c := Column(items, place, a, k);
    if c != [] {
      ColumnMember(items, place, a, k, c[0]);
    }
  }

  lemma YearIndexSameYears<T>(g: seq<YearGroup<T>>, g': seq<YearGroup<T>>, a: JsNumber)
    requires |g| == |g'| && forall y :: 0 <= y < |g| ==> g[y].anio == g'[y].anio
    ensures YearIndex(g, a) == YearIndex(g', a)
  {
    if g != [] {
      YearIndexSameYears(g[..|g| - 1], g'[..|g| - 1], a);
    }
  }

  lemma ClaveIndexSameClaves<T>(bs: seq<Bucket<T>>, bs': seq<Bucket<T>>, k: string)
    requires |bs| == |bs'| && forall b :: 0 <= b < |bs| ==> bs[b].clave == bs'[b].clave
    ensures ClaveIndex(bs, k) == ClaveIndex(bs', k)
  {
    if bs != [] {
      ClaveIndexSameClaves(bs[..|bs| - 1], bs'[..|bs| - 1], k);
    }
  }

  lemma BucketsCountUpdate<T>(bs: seq<Bucket<T>>, b: nat, nb: Bucket<T>)
    requires b < |bs|
    ensures BucketsCount(bs[b := nb]) == BucketsCount(bs) - |bs[b].items| + |nb.items|
  {
    if b < |bs| - 1 {
      assert bs[b := nb][..|bs| - 1] == bs[..|bs| - 1][b := nb];
      BucketsCountUpdate(bs[..|bs| - 1], b, nb);
    } else {
      assert bs[b := nb][..|bs| - 1] == bs[..|bs| - 1];
    }
  }

  lemma CountUpdate<T>(g: seq<YearGroup<T>>, y: nat, ng: YearGroup<T>)
    requires y < |g|
    ensures Count(g[y := ng]) == Count(g) - BucketsCount(g[y].buckets) + BucketsCount(ng.buckets)
  {
    if y < |g| - 1 {
      assert g[y := ng][..|g| - 1] == g[..|g| - 1][y := ng];
      CountUpdate(g[..|g| - 1], y, ng);
    } else {
      assert g[y := ng][..|g| - 1] == g[..|g| - 1];
    }
  }

  // A new year

  lemma AddYear<T>(items: seq<T>, place: T -> Placement, g: seq<YearGroup<T>>, m: T)
    requires GroupedBy(items, place, g)
    requires YearIndex(g, place(m).anio).None?
    ensures var g' := g + [YearGroup(place(m).anio, [Bucket(Clave(place(m)), [m])])];
            GroupedBy(items + [m], place, g') && Count(g') == Count(g) + 1
  {
    AddYearContents(items, place, g, m);
    AddYearCovers(items, place, g, m);
    AddYearShape(g, place(m).anio, Clave(place(m)), m);
  }

  lemma AddYearShape<T>(g: seq<YearGroup<T>>, a: JsNumber, k: string, m: T)
    requires KeysDistinct(g) && NonEmpty(g) && forall y :: 0 <= y < |g| ==> g[y].anio != a
    ensures KeysDistinct(g + [YearGroup(a, [Bucket(k, [m])])])
    ensures NonEmpty(g + [YearGroup(a, [Bucket(k, [m])])])
    ensures Count(g + [YearGroup(a, [Bucket(k, [m])])]) == Count(g) + 1
  {
    AddYearKeys(g, a, k, m);
    AddYearNonEmpty(g, a, k, m);
    AddYearCount(g, a, k, m);
  }

  lemma AddYearKeys<T>(g: seq<YearGroup<T>>, a: JsNumber, k: string, m: T)
    requires KeysDistinct(g) && forall y :: 0 <= y < |g| ==> g[y].anio != a
    ensures KeysDistinct(g + [YearGroup(a, [Bucket(k, [m])])])
  {
  }
  lemma AddYearNonEmpty<T>(g: seq<YearGroup<T>>, a: JsNumber, k: string, m: T)
    requires NonEmpty(g)
    ensures NonEmpty(g + [YearGroup(a, [Bucket(k, [m])])])
  {
  }
  lemma AddYearCount<T>(g: seq<YearGroup<T>>, a: JsNumber, k: string, m: T)
    ensures Count(g + [YearGroup(a, [Bucket(k, [m])])]) == Count(g) + 1
  {
    var bs := [Bucket(k, [m])];
    var g' := g + [YearGroup(a, bs)];
    assert bs[..0] == [];
    assert BucketsCount(bs) == 1;
    assert g'[..|g|] == g;
    assert Count(g') == Count(g) + BucketsCount(bs);
  }

  lemma AddYearContents<T>(items: seq<T>, place: T -> Placement, g: seq<YearGroup<T>>, m: T)
    requires Contents(items, place, g) && Covers(items, place, g)
    requires YearIndex(g, place(m).anio).None?
    ensures Contents(items + [m], place, g + [YearGroup(place(m).anio, [Bucket(Clave(place(m)), [m])])])
  {
    var a := place(m).anio;
    var k := Clave(place(m));
    var g' := g + [YearGroup(a, [Bucket(k, [m])])];
    forall y, b | 0 <= y < |g'| && 0 <= b < |g'[y].buckets|
      ensures g'[y].buckets[b].items == Column(items + [m], place, g'[y].anio, g'[y].buckets[b].clave)
    {
      ColumnSnoc(items, place, g'[y].anio, g'[y].buckets[b].clave, m);
      if y == |g| {
        NoItemsForMissingColumn(items, place, g, a, k);
      }
    }
  }

  lemma AddYearCovers<T>(items: seq<T>, place: T -> Placement, g: seq<YearGroup<T>>, m: T)
    requires Covers(items, place, g)
    requires YearIndex(g, place(m).anio).None?
    ensures Covers(items + [m], place, g + [YearGroup(place(m).anio, [Bucket(Clave(place(m)), [m])])])
  {
    var g' := g + [YearGroup(place(m).anio, [Bucket(Clave(place(m)), [m])])];
    assert g'[..|g|] == g;
    forall i | 0 <= i < |items| + 1 ensures Located(g', place((items + [m])[i])) {
      if i < |items| {
        assert Located(g, place(items[i]));
      }
    }
  }

  // A new column in an existing year

  lemma AddColumn<T>(items: seq<T>, place: T -> Placement, g: seq<YearGroup<T>>, m: T, y: nat)
    requires GroupedBy(items, place, g)
    requires YearIndex(g, place(m).anio) == Some(y)
    requires ClaveIndex(g[y].buckets, Clave(place(m))).None?
    ensures var g' := g[y := g[y].(buckets := g[y].buckets + [Bucket(Clave(place(m)), [m])])];
            GroupedBy(items + [m], place, g') && Count(g') == Count(g) + 1
  {
    AddColumnContents(items, place, g, m, y);
    AddColumnCovers(items, place, g, m, y);
    AddColumnShape(g, y, Bucket(Clave(place(m)), [m]));
  }

  lemma AddColumnShape<T>(g: seq<YearGroup<T>>, y: nat, nb: Bucket<T>)
    requires KeysDistinct(g) && NonEmpty(g) && y < |g|
    requires ClaveIndex(g[y].buckets, nb.clave).None? && |nb.items| == 1
    ensures var g' := g[y := g[y].(buckets := g[y].buckets + [nb])];
            KeysDistinct(g') && NonEmpty(g') && Count(g') == Count(g) + 1
  {
    var g' := g[y := g[y].(buckets := g[y].buckets + [nb])];
    AddColumnKeys(g, y, nb);
    AppendBucketCount(g[y].buckets, nb);
    CountUpdate(g, y, g'[y]);
  }

  lemma AddColumnKeys<T>(g: seq<YearGroup<T>>, y: nat, nb: Bucket<T>)
    requires KeysDistinct(g) && y < |g| && ClaveIndex(g[y].buckets, nb.clave).None?
    ensures KeysDistinct(g[y := g[y].(buckets := g[y].buckets + [nb])])
  {
    var bs := g[y].buckets;
    var g' := g[y := g[y].(buckets := bs + [nb])];
    forall y1, b1, b2 | 0 <= y1 < |g'| && 0 <= b1 < b2 < |g'[y1].buckets|
      ensures g'[y1].buckets[b1].clave != g'[y1].buckets[b2].clave
    {
      if y1 == y && b2 == |bs| {
        assert g'[y1].buckets[b1] == bs[b1];
      }
    }
  }

  lemma AppendBucketCount<T>(bs: seq<Bucket<T>>, nb: Bucket<T>)
    ensures BucketsCount(bs + [nb]) == BucketsCount(bs) + |nb.items|
  {
    assert (bs + [nb])[..|bs|] == bs;
  }

  lemma AddColumnContents<T>(items: seq<T>, place: T -> Placement, g: seq<YearGroup<T>>, m: T, y: nat)
    requires KeysDistinct(g) && Contents(items, place, g) && Covers(items, place, g)
    requires YearIndex(g, place(m).anio) == Some(y)
    requires ClaveIndex(g[y].buckets, Clave(place(m))).None?
    ensures Contents(items + [m], place, g[y := g[y].(buckets := g[y].buckets + [Bucket(Clave(place(m)), [m])])])
  {
    var a := place(m).anio;
    var k := Clave(place(m));
    var g' := g[y := g[y].(buckets := g[y].buckets + [Bucket(k, [m])])];
    forall y1, b | 0 <= y1 < |g'| && 0 <= b < |g'[y1].buckets|
      ensures g'[y1].buckets[b].items == Column(items + [m], place, g'[y1].anio, g'[y1].buckets[b].clave)
    {
      ColumnSnoc(items, place, g'[y1].anio, g'[y1].buckets[b].clave, m);
      if y1 == y && b == |g[y].buckets| {
        NoItemsForMissingColumn(items, place, g, a, k);
      }
    }
  }

  lemma AddColumnCovers<T>(items: seq<T>, place: T -> Placement, g: seq<YearGroup<T>>, m: T, y: nat)
    requires Covers(items, place, g)
    requires YearIndex(g, place(m).anio) == Some(y)
    requires ClaveIndex(g[y].buckets, Clave(place(m))).None?
    ensures Covers(items + [m], place, g[y := g[y].(buckets := g[y].buckets + [Bucket(Clave(place(m)), [m])])])
  {
    var k := Clave(place(m));
    var g' := g[y := g[y].(buckets := g[y].buckets + [Bucket(k, [m])])];
    var bs := g[y].buckets;
    var bs' := g'[y].buckets;
    assert bs'[..|bs|] == bs;
    forall i | 0 <= i < |items| + 1 ensures Located(g', place((items + [m])[i])) {
      var p := place((items + [m])[i]);
      YearIndexSameYears(g, g', p.anio);
      if i < |items| {
        assert Located(g, p);
      }
    }
  }

  // An existing column

  lemma PushItem<T>(items: seq<T>, place: T -> Placement, g: seq<YearGroup<T>>, m: T, y: nat, b: nat)
    requires GroupedBy(items, place, g)
    requires YearIndex(g, place(m).anio) == Some(y)
    requires ClaveIndex(g[y].buckets, Clave(place(m))) == Some(b)
    ensures var bk := g[y].buckets[b];
            var g' := g[y := g[y].(buckets := g[y].buckets[b := bk.(items := bk.items + [m])])];
            GroupedBy(items + [m], place, g') && Count(g') == Count(g) + 1
  {
    PushContents(items, place, g, m, y, b);
    PushCovers(items, place, g, m, y, b);
    PushShape(g, y, b, m);
  }

  lemma PushShape<T>(g: seq<YearGroup<T>>, y: nat, b: nat, m: T)
    requires KeysDistinct(g) && NonEmpty(g) && y < |g| && b < |g[y].buckets|
    ensures var bk := g[y].buckets[b];
            var g' := g[y := g[y].(buckets := g[y].buckets[b := bk.(items := bk.items + [m])])];
            KeysDistinct(g') && NonEmpty(g') && Count(g') == Count(g) + 1
  {
    var bk := g[y].buckets[b];
    var g' := g[y := g[y].(buckets := g[y].buckets[b := bk.(items := bk.items + [m])])];
    BucketsCountUpdate(g[y].buckets, b, g'[y].buckets[b]);
    CountUpdate(g, y, g'[y]);
  }

  lemma PushContents<T>(items: seq<T>, place: T -> Placement, g: seq<YearGroup<T>>, m: T, y: nat, b: nat)
    requires KeysDistinct(g) && Contents(items, place, g)
    requires YearIndex(g, place(m).anio) == Some(y)
    requires ClaveIndex(g[y].buckets, Clave(place(m))) == Some(b)
    ensures var bk := g[y].buckets[b];
            Contents(items + [m], place, g[y := g[y].(buckets := g[y].buckets[b := bk.(items := bk.items + [m])])])
  {
    var bk := g[y].buckets[b];
    var g' := g[y := g[y].(buckets := g[y].buckets[b := bk.(items := bk.items + [m])])];
    forall y1, b1 | 0 <= y1 < |g'| && 0 <= b1 < |g'[y1].buckets|
      ensures g'[y1].buckets[b1].items == Column(items + [m], place, g'[y1].anio, g'[y1].buckets[b1].clave)
    {
      PushColumn(items, place, g, m, y, b, y1, b1);
    }
  }

  /** One column after the push: the target gains the item, every other
      column keeps its items, since the item does not belong there. */
  lemma PushColumn<T>(items: seq<T>, place: T -> Placement, g: seq<YearGroup<T>>, m: T, y: nat, b: nat, y1: nat, b1: nat)
    requires KeysDistinct(g) && Contents(items, place, g)
    requires YearIndex(g, place(m).anio) == Some(y)
    requires ClaveIndex(g[y].buckets, Clave(place(m))) == Some(b)
    requires y1 < |g| && b1 < |g[y1].buckets|
    ensures var bk := g[y].buckets[b];
            var g' := g[y := g[y].(buckets := g[y].buckets[b := bk.(items := bk.items + [m])])];
            g'[y1].buckets[b1].items == Column(items + [m], place, g[y1].anio, g[y1].buckets[b1].clave)
  {
    var a := g[y1].anio;
    var k := g[y1].buckets[b1].clave;
    ColumnSnoc(items, place, a, k, m);
    assert g[y1].buckets[b1].items == Column(items, place, a, k);
    if y1 == y && b1 == b {
      assert Belongs(place, m, a, k);
    } else if y1 != y {
      assert a != place(m).anio;
    } else {
      assert k != Clave(place(m));
    }
  }

  lemma PushCovers<T>(items: seq<T>, place: T -> Placement, g: seq<YearGroup<T>>, m: T, y: nat, b: nat)
    requires Covers(items, place, g)
    requires YearIndex(g, place(m).anio) == Some(y)
    requires ClaveIndex(g[y].buckets, Clave(place(m))) == Some(b)
    ensures var bk := g[y].buckets[b];
            Covers(items + [m], place, g[y := g[y].(buckets := g[y].buckets[b := bk.(items := bk.items + [m])])])
  {
    var bk := g[y].buckets[b];
    var g' := g[y := g[y].(buckets := g[y].buckets[b := bk.(items := bk.items + [m])])];
    forall i | 0 <= i < |items| + 1 ensures Located(g', place((items + [m])[i])) {
      var p := place((items + [m])[i]);
      YearIndexSameYears(g, g', p.anio);
      ClaveIndexSameClaves(g[y].buckets, g'[y].buckets, Clave(p));
      if i < |items| {
        assert Located(g, p);
      }
    }
  }

  /** An item is in exactly the column its year and key name. */
  lemma BucketOf<T>(items: seq<T>, place: T -> Placement, g: seq<YearGroup<T>>, x: T, y: nat, b: nat)
    requires GroupedBy(items, place, g) && x in items
    requires y < |g| && b < |g[y].buckets|
    ensures x in g[y].buckets[b].items <==> g[y].anio == place(x).anio && g[y].buckets[b].clave == Clave(place(x))
  {
    ColumnMember(items, place, g[y].anio, g[y].buckets[b].clave, x);
  }

  // ---------------------------------------------------------------------------
  // Cable colour

  /** `getCableColor`: yearly courses are primary, first and second term
      accent and secondary, anything else muted. */
  function CableColor(tipo: string, cuatrimestre: Option<JsNumber>): (c: string)
    ensures c == "var(--primary)" <==> tipo == "Anual"
    ensures c == "var(--accent)" <==> tipo != "Anual" && cuatrimestre == Some(Num(1))
    ensures c == "var(--secondary)" <==> tipo != "Anual" && cuatrimestre == Some(Num(2))
    ensures c == "var(--muted)" <==>
              tipo != "Anual" && cuatrimestre != Some(Num(1)) && cuatrimestre != Some(Num(2))
  {
    if tipo == "Anual" then "var(--primary)"
    else if cuatrimestre == Some(Num(1)) then "var(--accent)"
    else if cuatrimestre == Some(Num(2)) then "var(--secondary)"
    else "var(--muted)"
  }

  /** A term-0 course is shown in the "Anual" column but keeps the muted
      cable: column and colour disagree on what "yearly" means. */
  lemma TermZeroColumnAndColour(p: Placement)
    requires p.tipo != "Anual" && p.cuatrimestre == Num(0)
    ensures Clave(p) == "Anual"
    ensures CableColor(p.tipo, Some(p.cuatrimestre)) == "var(--muted)"
  {
  }

  // ---------------------------------------------------------------------------
  // Column ordering on the board

  /** `a - b` on JavaScript numbers. */
  function Minus(a: JsNumber, b: JsNumber): (r: JsNumber)
    ensures r.Num? <==> a.Num? && b.Num?
  {
    if a.Num? && b.Num? then Num(a.value - b.value) else NaN
  }

  /** `s.slice(1)`. */
  function Drop1(s: string): string {
    if s == [] then [] else s[1..]
  }

  /** The year comparator `parseInt(a) - parseInt(b)`. */
  function CompareYears(a: string, b: string): JsNumber {
    Minus(ParseInt(a), ParseInt(b))
  }

  /** The column comparator: "Anual" first, then by the number after "C". */
  function CompareClaves(a: string, b: string): JsNumber {
    if a == "Anual" then Num(-1)
    else if b == "Anual" then Num(1)
    else Minus(ParseInt(Drop1(a)), ParseInt(Drop1(b)))
  }

  /** `parseInt(String(n))` is `n`. */
  lemma ParseIntIntToString(n: int)
    ensures ParseInt(IntToString(n)) == Num(n)
  {
    var k: nat := if n < 0 then -n else n;
    var s := NatToString(k);
    NatToStringRoundTrip(k);
    if n < 0 {
      var t := "-" + s;
      assert t[0] == '-' && !IsSpace(t[0]);
      assert TrimStart(t) == t;
      assert t[1..] == s;
      LeadingAllDigits(s);
    }
  }

  /** Years keyed by their decimal text are ordered numerically. */
  lemma YearOrder(a: int, b: int)
    ensures CompareYears(IntToString(a), IntToString(b)) == Num(a - b)
  {
    ParseIntIntToString(a);
    ParseIntIntToString(b);
  }

  /** On the keys `Clave` produces for numbered terms the comparator is a
      strict order: "Anual" sorts before every term column and term columns
      compare by term number. */
  lemma ClaveOrder(p: Placement, q: Placement)
    requires p.cuatrimestre.Num? && q.cuatrimestre.Num?
    requires Clave(p) != Clave(q)
    ensures var c := CompareClaves(Clave(p), Clave(q));
            c.Num? &&
            (Clave(p) == "Anual" ==> c.value < 0) &&
            (Clave(q) == "Anual" ==> c.value > 0) &&
            (Clave(p) != "Anual" && Clave(q) != "Anual" ==>
               c.value == p.cuatrimestre.value - q.cuatrimestre.value)
    ensures var c := CompareClaves(Clave(p), Clave(q));
            var d := CompareClaves(Clave(q), Clave(p));
            d.Num? && (c.value < 0 <==> d.value > 0)
  {
    if Clave(p) != "Anual" && Clave(q) != "Anual" {
      ParseIntIntToString(p.cuatrimestre.value);
      ParseIntIntToString(q.cuatrimestre.value);
    }
  }
}
