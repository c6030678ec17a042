/** The economic choice among the feasible layouts (the min over valid_rebars in
    design.py): the layout with the least over-provision A_p - A_s, the earliest
    one when several tie, as Python's min keeps the first minimum it meets. */
module EconomicSelection {
  import opened Materials
  import opened Arrangement

  /** Over-provision A_p - A_s of a layout, the key the options are ranked by:
      for a fixed A_s it orders layouts exactly as their provided areas do. */
  function Excess(l: Layout, As: real): (e: real)
    ensures e >= 0.0 <==> l.provided >= As
    ensures forall l2: Layout :: e <= l2.provided - As <==> l.provided <= l2.provided
  {
    l.provided - As
  }

  /** Position of the economic option, found by a left-to-right scan in which a
      later option replaces the current best only when strictly smaller. It is a
      minimum of the excess, and every earlier option is strictly worse. */
  function EconomicIndex(options: seq<Layout>, As: real): (k: nat)
    requires |options| > 0
    ensures k < |options|
    ensures forall j :: 0 <= j < |options| ==> Excess(options[k], As) <= Excess(options[j], As)
    ensures forall j :: 0 <= j < k ==> Excess(options[j], As) > Excess(options[k], As)
  {
    if |options| == 1 then 0
    else
      var last := |options| - 1;
      var k := EconomicIndex(options[..last], As);
      assert forall j :: 0 <= j < last ==> options[..last][j] == options[j];
      if Excess(options[last], As) < Excess(options[k], As) then last else k
  }

  /** The economic option: one of the options, with the least excess and hence the
      least provided area of them all. */
  function Economic(options: seq<Layout>, As: real): (e: Layout)
    requires |options| > 0
    ensures e in options
    ensures forall j :: 0 <= j < |options| ==> Excess(e, As) <= Excess(options[j], As)
    ensures forall j :: 0 <= j < |options| ==> e.provided <= options[j].provided
  {
    options[EconomicIndex(options, As)]
  }

  /** The two properties of EconomicIndex single it out: the economic option is
      exactly the first option of least excess. */
  lemma EconomicIndexUnique(options: seq<Layout>, As: real, k: nat)
    requires k < |options|
    requires forall j :: 0 <= j < |options| ==> Excess(options[k], As) <= Excess(options[j], As)
    requires forall j :: 0 <= j < k ==> Excess(options[j], As) > Excess(options[k], As)
    ensures EconomicIndex(options, As) == k
  {
  }

  /** Every option of a search over positive diameters over-provides by at least
      nothing and by less than one of its own bars. */
  lemma OptionExcessBelowOneBar(As: real, ds: seq<int>, sec: Section, k: nat)
    requires AllPositive(ds) && k < |Options(As, ds, sec)|
    ensures var l := Options(As, ds, sec)[k];
            l.diameter > 0 && 0.0 <= Excess(l, As) < BarArea(l.diameter)
  {
    OptionsSound(As, ds, sec);
    var l := Options(As, ds, sec)[k];
    var i :| 0 <= i < |ds| && ds[i] == l.diameter;
    assert Provided(As, l.diameter) == l.provided;
  }

  /** With options in ascending diameter order, as the search returns them, a tie
      on excess goes to the smallest diameter. */
  lemma EconomicSmallestDiameterOnTie(options: seq<Layout>, As: real, j: nat)
    requires j < |options|
    requires forall k, l :: 0 <= k < l < |options| ==> options[k].diameter < options[l].diameter
    requires Excess(options[j], As) == Excess(Economic(options, As), As)
    ensures Economic(options, As).diameter <= options[j].diameter
  {
  }
}
