/** One design request, as the top level of design.py runs it: the required area,
    then (only when there is one) the arrangement search, then the economic choice. */
module Design {
  import opened Materials
  import opened SteelArea
  import opened Arrangement
  import opened EconomicSelection

  /** A design: the required area, every feasible layout, and the economic one. */
  datatype Outcome = Designed(area: real, options: seq<Layout>, economic: Layout) | Refused(reason: Failure)

  /** The design request. It is refused for invalid geometry and for an
      overstressed section exactly as RequiredArea is, and for want of a layout
      exactly when the search finds none; otherwise the economic layout is one of
      the options, covers the required area, which is at least A_smin, fits the
      width, and no option provides less steel. */
  method DesignSection(m: real, c: Concrete, r: Rebar, sec: Section, sqrt: real -> real)
    returns (out: Outcome)
    requires ValidConcrete(c) && ValidRebar(r) && IsSquareRoot(sqrt)
    ensures out == Refused(InvalidGeometry) <==> !ValidGeometry(sec)
    ensures out == Refused(SectionOverstressed) <==> RequiredArea(m, c, r, sec, sqrt) == Failed(SectionOverstressed)
    ensures out == Refused(NoArrangementFits) <==>
              RequiredArea(m, c, r, sec, sqrt).Required?
              && Options(RequiredArea(m, c, r, sec, sqrt).area, Catalog, sec) == []
    ensures out.Designed? ==>
              RequiredArea(m, c, r, sec, sqrt) == Required(out.area)
              && out.options == Options(out.area, Catalog, sec) != []
              && out.economic == Economic(out.options, out.area)
    ensures out.Designed? ==>
              out.area >= AsMin(c, r, sec) && out.economic in out.options
              && out.economic.provided >= out.area
              && RowWidth(out.economic.perRow, out.economic.diameter, sec) <= sec.width
              && forall j :: 0 <= j < |out.options| ==> out.economic.provided <= out.options[j].provided
  {
    var req := RequiredArea(m, c, r, sec, sqrt);
    if req.Failed? {
      return Refused(req.reason);
    }
    var options := SearchArrangements(req.area, sec);
    if options == [] {
      return Refused(NoArrangementFits);
    }
    out := Designed(req.area, options, Economic(options, req.area));
  }
}
