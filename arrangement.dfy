/** The search over the fixed catalog of bar diameters (design.py, the loop that
    builds valid_rebars): for each diameter the bar count by ceiling, the clear
    spacing of section 9.2.1 of GB 50010-2010, the single-row width check and the
    double-row fallback. */
module Arrangement {
  import opened Materials

  datatype Option<T> = None | Some(value: T)

  /** One feasible layout: bar diameter (mm), number of bars, provided area (mm^2),
      number of rows (1 or 2) and bars in the first row. */
  datatype Layout = Layout(diameter: int, bars: int, provided: real, rows: int, perRow: int)

  /** The standard diameters in mm, in the order they are tried. */
  const Catalog: seq<int> := [6, 8, 10, 12, 14, 16, 18, 20, 22, 25, 28, 30, 32, 36, 40, 50]

  /** The decimal value of pi used for bar areas. */
  const Pi: real := 3.141592653589793

  predicate StrictlyIncreasing(ds: seq<int>)
  {
    forall i, j :: 0 <= i < j < |ds| ==> ds[i] < ds[j]
  }

  predicate AllPositive(ds: seq<int>)
  {
    forall i :: 0 <= i < |ds| ==> ds[i] > 0
  }

  /** The catalog lists positive diameters, each once, smallest first. */
  lemma CatalogWellFormed()
    ensures AllPositive(Catalog) && StrictlyIncreasing(Catalog)
  {
  }

  /** Smallest integer not below x (Python's math.ceil). */
  function Ceil(x: real): (n: int)
    ensures n as real >= x && (n - 1) as real < x
  {
    -((-x).Floor)
  }

  /** Cross-section area pi (d/2)^2 of one bar. */
  function BarArea(d: int): (a: real)
    requires d > 0
    ensures a > 0.0
  {
    var r := d as real / 2.0;
    assert r * r > 0.0;
    Pi * (r * r)
  }

  /** Number of bars ceil(A_s / area): the least count whose total area covers A_s,
      at least one bar exactly when A_s is positive. */
  function BarCount(As: real, d: int): (n: int)
    requires d > 0
    ensures n as real * BarArea(d) >= As
    ensures (n - 1) as real * BarArea(d) < As
    ensures n >= 1 <==> As > 0.0
  {
    CeilOfQuotient(As, BarArea(d));
    CountSign(As, BarArea(d), Ceil(As / BarArea(d)));
    Ceil(As / BarArea(d))
  }

  /** A count n with (n - 1) a < x <= n a, for a positive a, is at least one exactly
      when x is positive. */
  lemma CountSign(x: real, a: real, n: int)
    requires a > 0.0 && n as real * a >= x && (n - 1) as real * a < x
    ensures n >= 1 <==> x > 0.0
  {
    if n >= 1 {
      ScaleMonotone(a, 0.0, (n - 1) as real);
    } else {
      ScaleMonotone(a, n as real, 0.0);
    }
  }

  /** Scaling ceil(x / a) back by a positive a lands in [x, x + a). */
  lemma CeilOfQuotient(x: real, a: real)
    requires a > 0.0
    ensures Ceil(x / a) as real * a >= x && (Ceil(x / a) - 1) as real * a < x
  {
    var q := x / a;
    var k := Ceil(q);
    assert q * a == x;
    ScaleMonotone(a, q, k as real);
    ScaleMonotone(a, (k - 1) as real, q);
    assert (k - 1) as real * a <= x;
    if (k - 1) as real * a == x {
      DivideBack(x, (k - 1) as real, a);
      assert false;
    }
  }

  /** Clear spacing between bars: at least 25 mm and at least one diameter. */
  function Spacing(d: int): (s: int)
    ensures s >= 25 && s >= d
    ensures s == 25 || s == d
  {
    if 25 >= d then 25 else d
  }

  /** Width needed for k bars of diameter d side by side: two edge distances a_s
      plus k - 1 centre-to-centre steps of d + s. For at least one bar of positive
      diameter it is never below the two edge distances, and equals them only for
      a single bar. */
  function RowWidth(k: int, d: int, sec: Section): (w: real)
    ensures k >= 1 && d > 0 ==> w >= 2.0 * sec.cover
    ensures k >= 1 && d > 0 ==> (w == 2.0 * sec.cover <==> k == 1)
  {
    StepsSign(k, d);
    2.0 * sec.cover + (k - 1) as real * (d + Spacing(d)) as real
  }

  /** For k >= 1 and d > 0, k - 1 steps of d + s span no negative width, and a
      positive width unless k = 1. */
  lemma StepsSign(k: int, d: int)
    ensures k >= 1 && d > 0 ==> (k - 1) as real * (d + Spacing(d)) as real >= 0.0
    ensures k > 1 && d > 0 ==> (k - 1) as real * (d + Spacing(d)) as real > 0.0
  {
    if k >= 1 && d > 0 {
      ScaleMonotone((k - 1) as real, 0.0, (d + Spacing(d)) as real);
    }
  }

  /** Bars in the first of two rows: ceil(n / 2). */
  function PerRow(n: int): (p: int)
    ensures 2 * p >= n && 2 * p <= n + 1
  {
    Ceil(n as real / 2.0)
  }

  /** Total area of the bars needed for A_s with diameter d: at least A_s, so the
      coverage test in both width checks always passes, and over-providing by less
      than one bar. */
  function Provided(As: real, d: int): (p: real)
    requires d > 0
    ensures As <= p < As + BarArea(d)
  {
    BarCount(As, d) as real * BarArea(d)
  }

  /** The one-row check of design.py: the bars cover A_s and fit the width. Since
      they always cover A_s, it is the width test alone. */
  predicate SingleRowFits(As: real, d: int, sec: Section): (fits: bool)
    requires d > 0
    ensures fits <==> RowWidth(BarCount(As, d), d, sec) <= sec.width
  {
    Provided(As, d) >= As && RowWidth(BarCount(As, d), d, sec) <= sec.width
  }

  /** The thickest bar, in whole mm, of which two layers and a 10 mm gap fit within
      the effective depth: floor((h0 - 10) / 2). */
  function ThickestDoubleRowBar(sec: Section): (t: int)
    ensures (2 * t + 10) as real <= EffectiveDepth(sec) < (2 * t + 12) as real
  {
    ((EffectiveDepth(sec) - 10.0) / 2.0).Floor
  }

  /** Enough effective depth for two layers with a 10 mm gap: h - a_s >= 2 d + 10.
      The bars allowed two rows are exactly those no thicker than
      ThickestDoubleRowBar, so the gate admits every smaller bar too. */
  predicate DoubleRowAllowed(d: int, sec: Section): (allowed: bool)
    ensures allowed <==> d <= ThickestDoubleRowBar(sec)
  {
    sec.height - sec.cover >= (2 * d + 10) as real
  }

  /** The two-row check of design.py: the bars cover A_s and ceil(n / 2) of them
      fit. It is the width test alone, and it passes whenever one row fits. */
  predicate DoubleRowFits(As: real, d: int, sec: Section): (fits: bool)
    requires d > 0
    ensures fits <==> RowWidth(PerRow(BarCount(As, d)), d, sec) <= sec.width
    ensures As > 0.0 && SingleRowFits(As, d, sec) ==> fits
  {
    DoubleRowNarrower(BarCount(As, d), d, sec);
    Provided(As, d) >= As && RowWidth(PerRow(BarCount(As, d)), d, sec) <= sec.width
  }

  /** The option one diameter contributes, if any. A single row is taken whenever
      it fits; two rows only when one does not and the depth allows it. */
  function ArrangeDiameter(As: real, d: int, sec: Section): (r: Option<Layout>)
    requires d > 0
    ensures r.Some? <==> SingleRowFits(As, d, sec) || (DoubleRowAllowed(d, sec) && DoubleRowFits(As, d, sec))
    ensures r.Some? ==> r.value.diameter == d && r.value.bars == BarCount(As, d)
    ensures r.Some? ==> r.value.provided == r.value.bars as real * BarArea(d) >= As
    ensures r.Some? ==> RowWidth(r.value.perRow, d, sec) <= sec.width
    ensures r.Some? ==> (r.value.rows == 1 <==> SingleRowFits(As, d, sec))
    ensures r.Some? && r.value.rows == 1 ==> r.value.perRow == r.value.bars
    ensures r.Some? && r.value.rows != 1 ==>
              r.value.rows == 2 && DoubleRowAllowed(d, sec) && r.value.perRow == PerRow(r.value.bars)
  {
    var n := BarCount(As, d);
    var provided := n as real * BarArea(d);
    if SingleRowFits(As, d, sec) then
      Some(Layout(d, n, provided, 1, n))
    else if DoubleRowAllowed(d, sec) then
      if DoubleRowFits(As, d, sec) then
        Some(Layout(d, n, provided, 2, PerRow(n)))
      else
        None
    else
      None
  }

  /** A depth that allows two rows of some bar allows two rows of every smaller bar. */
  lemma DoubleRowAllowedForSmallerBars(d1: int, d2: int, sec: Section)
    requires d1 <= d2 && DoubleRowAllowed(d2, sec)
    ensures DoubleRowAllowed(d1, sec)
  {
  }

  /** The bar count is the least count that covers A_s. */
  lemma BarCountLeast(As: real, d: int, m: int)
    requires d > 0 && m as real * BarArea(d) >= As
    ensures m >= BarCount(As, d)
  {
  }

  /** A two-row layout splits its bars into a first row of ceil(n / 2) and a second
      row of the rest: the first row holds at least as many bars as the second,
      at most one more, and the second row is not empty unless n = 1. */
  lemma DoubleRowSplit(As: real, d: int, sec: Section)
    requires d > 0 && As > 0.0
    requires ArrangeDiameter(As, d, sec).Some? && ArrangeDiameter(As, d, sec).value.rows == 2
    ensures var l := ArrangeDiameter(As, d, sec).value;
            l.bars >= 1 && l.perRow >= l.bars - l.perRow >= 0 && l.perRow - (l.bars - l.perRow) <= 1
  {
  }

  /** For at least one bar, splitting into two rows never needs more width than one
      row: ceil(n / 2) bars take no more room than n. */
  lemma DoubleRowNarrower(n: int, d: int, sec: Section)
    requires d > 0
    ensures n >= 1 ==> RowWidth(PerRow(n), d, sec) <= RowWidth(n, d, sec)
  {
    if n >= 1 {
      var step := (d + Spacing(d)) as real;
      ScaleMonotone(step, (PerRow(n) - 1) as real, (n - 1) as real);
    }
  }

  /** The options yielded by trying the diameters of ds in order: what the search
      loop has appended once it has gone through ds. At most one per diameter. */
  function Options(As: real, ds: seq<int>, sec: Section): (opts: seq<Layout>)
    requires AllPositive(ds)
    ensures |opts| <= |ds|
  {
    if ds == [] then []
    else
      var front := Options(As, ds[..|ds| - 1], sec);
      match ArrangeDiameter(As, ds[|ds| - 1], sec)
      case Some(l) => front + [l]
      case None => front
  }

  /** Every option is the layout ArrangeDiameter gives for one of the diameters tried;
      so it covers A_s and fits the section width. */
  lemma {:induction false} OptionsSound(As: real, ds: seq<int>, sec: Section)
    requires AllPositive(ds)
    ensures forall k :: 0 <= k < |Options(As, ds, sec)| ==>
              var l := Options(As, ds, sec)[k];
              l.diameter in ds && ArrangeDiameter(As, l.diameter, sec) == Some(l)
              && l.provided >= As && RowWidth(l.perRow, l.diameter, sec) <= sec.width
  {
    if ds != [] {
      var init := ds[..|ds| - 1];
      OptionsSound(As, init, sec);
      forall k | 0 <= k < |Options(As, init, sec)|
        ensures Options(As, init, sec)[k].diameter in ds
      {
        assert Options(As, init, sec)[k].diameter in init;
      }
    }
  }

  /** Every diameter of ds that has a layout contributes that layout. */
  lemma {:induction false} OptionsComplete(As: real, ds: seq<int>, sec: Section)
    requires AllPositive(ds)
    ensures forall i :: 0 <= i < |ds| && ArrangeDiameter(As, ds[i], sec).Some? ==>
              ArrangeDiameter(As, ds[i], sec).value in Options(As, ds, sec)
  {
    if ds != [] {
      var init := ds[..|ds| - 1];
      OptionsComplete(As, init, sec);
      forall i | 0 <= i < |ds| && ArrangeDiameter(As, ds[i], sec).Some?
        ensures ArrangeDiameter(As, ds[i], sec).value in Options(As, ds, sec)
      {
        if i < |init| {
          assert ds[i] == init[i];
        }
      }
    }
  }

  /** Diameters tried in ascending order give options in ascending diameter order,
      so no diameter appears twice. */
  lemma {:induction false} OptionsOrdered(As: real, ds: seq<int>, sec: Section)
    requires AllPositive(ds) && StrictlyIncreasing(ds)
    ensures forall k, l :: 0 <= k < l < |Options(As, ds, sec)| ==>
              Options(As, ds, sec)[k].diameter < Options(As, ds, sec)[l].diameter
  {
    if ds != [] {
      var init := ds[..|ds| - 1];
      OptionsOrdered(As, init, sec);
      OptionsSound(As, init, sec);
      forall k | 0 <= k < |Options(As, init, sec)|
        ensures Options(As, init, sec)[k].diameter < ds[|ds| - 1]
      {
        var d := Options(As, init, sec)[k].diameter;
        var j :| 0 <= j < |init| && init[j] == d;
        assert ds[j] == d;
      }
    }
  }

  /** Trying one more diameter appends its layout, if it has one. */
  lemma OptionsStep(As: real, ds: seq<int>, i: nat, sec: Section)
    requires AllPositive(ds) && i < |ds|
    ensures AllPositive(ds[..i]) && AllPositive(ds[..i + 1])
    ensures Options(As, ds[..i + 1], sec) ==
              match ArrangeDiameter(As, ds[i], sec)
              case Some(l) => Options(As, ds[..i], sec) + [l]
              case None => Options(As, ds[..i], sec)
  {
    assert ds[..i + 1][..i] == ds[..i];
  }

  /** The search loop of design.py over the catalog, appending at most one layout
      per diameter. The options it returns are those of Options over the whole
      catalog: each covers A_s and fits the width, they come in ascending diameter
      order, and every catalog diameter with a layout is represented. */
  method SearchArrangements(As: real, sec: Section) returns (options: seq<Layout>)
    ensures options == Options(As, Catalog, sec)
    ensures |options| <= |Catalog|
    ensures forall k :: 0 <= k < |options| ==>
              options[k].diameter in Catalog && options[k].provided >= As
              && RowWidth(options[k].perRow, options[k].diameter, sec) <= sec.width
    ensures forall k, l :: 0 <= k < l < |options| ==> options[k].diameter < options[l].diameter
    ensures forall i :: 0 <= i < |Catalog| && ArrangeDiameter(As, Catalog[i], sec).Some? ==>
              ArrangeDiameter(As, Catalog[i], sec).value in options
  {
    CatalogWellFormed();
    options := [];
    for i := 0 to |Catalog|
      invariant options == Options(As, Catalog[..i], sec)
    {
      OptionsStep(As, Catalog, i, sec);
      var found := ArrangeDiameter(As, Catalog[i], sec);
      if found.Some? {
        options := options + [found.value];
      }
    }
    assert Catalog[..|Catalog|] == Catalog;
    OptionsSound(As, Catalog, sec);
    OptionsComplete(As, Catalog, sec);
    OptionsOrdered(As, Catalog, sec);
  }

  lemma DivideBack(a: real, x: real, d: real)
    requires d > 0.0 && x * d == a
    ensures x == a / d
  {
  }
}
