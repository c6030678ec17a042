/** The required tension steel area of a singly reinforced rectangular section
    (get_As in design.py): the moment coefficient alpha_s, the relative
    compression depth xi, the over-reinforcement check against xi_b and the
    clamp to the minimum area. */
module SteelArea {
  import opened Materials

  /** Why a design request is refused. */
  datatype Failure = InvalidGeometry | SectionOverstressed | NoArrangementFits

  /** The required area A_s in mm^2, or the reason there is none. */
  datatype AreaResult = Required(area: real) | Failed(reason: Failure)

  /** The square root the computation relies on, supplied by the caller. */
  ghost predicate IsSquareRoot(sqrt: real -> real)
  {
    forall x: real :: x >= 0.0 ==> sqrt(x) >= 0.0 && sqrt(x) * sqrt(x) == x
  }

  /** Section stiffness alpha_1 f_c b h0^2 in the denominator of alpha_s. */
  function FlexuralCapacityFactor(c: Concrete, sec: Section): (k: real)
    requires ValidConcrete(c) && ValidGeometry(sec)
    ensures k > 0.0
  {
    var h0 := EffectiveDepth(sec);
    ProductPositive(c.alpha1, c.fc);
    ProductPositive(c.alpha1 * c.fc, sec.width);
    ProductPositive(c.alpha1 * c.fc * sec.width, h0);
    ProductPositive(c.alpha1 * c.fc * sec.width * h0, h0);
    c.alpha1 * c.fc * sec.width * h0 * h0
  }

  /** Moment coefficient alpha_s = M * 10^6 / (alpha_1 f_c b h0^2), M in kN m:
      of the same sign as the moment. */
  function AlphaS(m: real, c: Concrete, sec: Section): (a: real)
    requires ValidConcrete(c) && ValidGeometry(sec)
    ensures a >= 0.0 <==> m >= 0.0
  {
    QuotientSign(m * 1000000.0, FlexuralCapacityFactor(c, sec));
    m * 1000000.0 / FlexuralCapacityFactor(c, sec)
  }

  /** The radicand 1 - 2 alpha_s under the square root of xi: at most 1 exactly for
      a non-negative moment, and below 1 exactly for a positive one. */
  function Radicand(m: real, c: Concrete, sec: Section): (rad: real)
    requires ValidConcrete(c) && ValidGeometry(sec)
    ensures rad <= 1.0 <==> m >= 0.0
    ensures rad < 1.0 <==> m > 0.0
  {
    QuotientSign(m * 1000000.0, FlexuralCapacityFactor(c, sec));
    QuotientSign(-m * 1000000.0, FlexuralCapacityFactor(c, sec));
    1.0 - 2.0 * AlphaS(m, c, sec)
  }

  /** Relative compression depth xi = 1 - sqrt(1 - 2 alpha_s): never above 1,
      and not negative for a non-negative moment. */
  function Xi(m: real, c: Concrete, sec: Section, sqrt: real -> real): (xi: real)
    requires ValidConcrete(c) && ValidGeometry(sec) && IsSquareRoot(sqrt)
    requires Radicand(m, c, sec) >= 0.0
    ensures xi <= 1.0
    ensures m >= 0.0 ==> xi >= 0.0
  {
    var rad := Radicand(m, c, sec);
    var root := sqrt(rad);
    SquareRootBelowOne(rad, root);
    1.0 - root
  }

  /** A non-negative root of a radicand at most 1 is at most 1. */
  lemma SquareRootBelowOne(rad: real, root: real)
    requires root >= 0.0 && root * root == rad
    ensures rad <= 1.0 ==> root <= 1.0
  {
  }

  /** The unclamped area alpha_1 f_c b xi h0 / f_y: not negative for a non-negative
      moment. */
  function RawArea(m: real, c: Concrete, r: Rebar, sec: Section, sqrt: real -> real): (a: real)
    requires ValidConcrete(c) && ValidRebar(r) && ValidGeometry(sec) && IsSquareRoot(sqrt)
    requires Radicand(m, c, sec) >= 0.0
    ensures m >= 0.0 ==> a >= 0.0
  {
    ProductPositive(c.alpha1, c.fc);
    ProductPositive(c.alpha1 * c.fc, sec.width);
    AreaBounds(c.alpha1 * c.fc * sec.width, Xi(m, c, sec, sqrt), EffectiveDepth(sec), r.fy);
    c.alpha1 * c.fc * sec.width * Xi(m, c, sec, sqrt) * EffectiveDepth(sec) / r.fy
  }

  /** k xi h0 / f_y with positive k, h0 and f_y is at most its value at xi = 1 when
      xi <= 1, and not negative when xi is not. */
  lemma AreaBounds(k: real, xi: real, h0: real, fy: real)
    requires k > 0.0 && h0 > 0.0 && fy > 0.0
    ensures xi <= 1.0 ==> k * xi * h0 / fy <= k * h0 / fy
    ensures xi >= 0.0 ==> k * xi * h0 / fy >= 0.0
  {
    if xi <= 1.0 {
      AreaMonotone(k, xi, 1.0, h0, fy);
      assert k * 1.0 == k;
    }
    if xi >= 0.0 {
      AreaMonotone(k, 0.0, xi, h0, fy);
      assert k * 0.0 * h0 == 0.0;
    }
  }

  /** The steel area of get_As, with the over-reinforcement check made against the
      given limit on xi. It fails exactly for a section with non-positive
      dimensions or effective depth, and for an over-reinforced one (a negative
      radicand or xi above the limit); otherwise it is the raw area raised to A_smin. */
  function AreaAgainstLimit(m: real, c: Concrete, r: Rebar, sec: Section, sqrt: real -> real, xiLimit: real)
    : (res: AreaResult)
    requires ValidConcrete(c) && ValidRebar(r) && IsSquareRoot(sqrt)
    ensures res.Failed? ==> res.reason != NoArrangementFits
    ensures res == Failed(InvalidGeometry) <==> !ValidGeometry(sec)
    ensures ValidGeometry(sec) ==>
              (res == Failed(SectionOverstressed) <==>
                 Radicand(m, c, sec) < 0.0 || Xi(m, c, sec, sqrt) > xiLimit)
    ensures res.Required? ==> ValidGeometry(sec) && Radicand(m, c, sec) >= 0.0
    ensures res.Required? ==> res.area >= AsMin(c, r, sec) > 0.0
    ensures res.Required? ==> res.area >= RawArea(m, c, r, sec, sqrt)
    ensures res.Required? ==> (res.area == AsMin(c, r, sec) || res.area == RawArea(m, c, r, sec, sqrt))
  {
    if !ValidGeometry(sec) then
      Failed(InvalidGeometry)
    else if Radicand(m, c, sec) < 0.0 then
      Failed(SectionOverstressed)
    else if Xi(m, c, sec, sqrt) > xiLimit then
      Failed(SectionOverstressed)
    else
      var a := RawArea(m, c, r, sec, sqrt);
      var amin := AsMin(c, r, sec);
      if a < amin then Required(amin) else Required(a)
  }

  /** The required tension steel area of get_As, checked against the xi_b of the
      capped strain. It fails exactly for a section with non-positive dimensions or
      effective depth, and for an over-reinforced one (a negative radicand or
      xi > xi_b); otherwise it is the raw area raised to A_smin, so at least A_smin
      and positive (never the source's -1 sentinel), equal to the raw area when
      that already reaches A_smin. */
  function RequiredArea(m: real, c: Concrete, r: Rebar, sec: Section, sqrt: real -> real): (res: AreaResult)
    requires ValidConcrete(c) && ValidRebar(r) && IsSquareRoot(sqrt)
    ensures res.Failed? ==> res.reason != NoArrangementFits
    ensures res == Failed(InvalidGeometry) <==> !ValidGeometry(sec)
    ensures ValidGeometry(sec) ==>
              (res == Failed(SectionOverstressed) <==>
                 Radicand(m, c, sec) < 0.0 || Xi(m, c, sec, sqrt) > XiBalanced(c, r))
    ensures res.Required? ==> ValidGeometry(sec) && Radicand(m, c, sec) >= 0.0
    ensures res.Required? ==> res.area >= AsMin(c, r, sec) > 0.0
    ensures res.Required? ==> res.area >= RawArea(m, c, r, sec, sqrt)
    ensures res.Required? ==> (res.area == AsMin(c, r, sec) || res.area == RawArea(m, c, r, sec, sqrt))
  {
    AreaAgainstLimit(m, c, r, sec, sqrt, XiBalanced(c, r))
  }

  /** get_As with the xi_b design.py computes, from the uncapped strain. It shares
      the other departures of AreaAgainstLimit from design.py (a refusal instead of
      a domain error or a division by zero, and valid materials required):
      overstressed exactly when the radicand is negative or xi exceeds that larger
      limit, and otherwise at least A_smin. */
  function RequiredAreaAsWritten(m: real, c: Concrete, r: Rebar, sec: Section, sqrt: real -> real): (res: AreaResult)
    requires ValidConcrete(c) && ValidRebar(r) && IsSquareRoot(sqrt)
    ensures res == Failed(InvalidGeometry) <==> !ValidGeometry(sec)
    ensures ValidGeometry(sec) ==>
              (res == Failed(SectionOverstressed) <==>
                 Radicand(m, c, sec) < 0.0 || Xi(m, c, sec, sqrt) > XiBalancedAsWritten(c, r))
    ensures res.Required? ==> res.area >= AsMin(c, r, sec) > 0.0
  {
    AreaAgainstLimit(m, c, r, sec, sqrt, XiBalancedAsWritten(c, r))
  }

  /** The capped and the uncapped check disagree exactly on the sections whose xi
      lies above the capped xi_b and within the uncapped one; there the model
      refuses as overstressed what design.py designs, and everywhere else the two
      give the same result. */
  lemma CappedStrainRefusesWindow(m: real, c: Concrete, r: Rebar, sec: Section, sqrt: real -> real)
    requires ValidConcrete(c) && ValidRebar(r) && IsSquareRoot(sqrt)
    ensures RequiredArea(m, c, r, sec, sqrt) != RequiredAreaAsWritten(m, c, r, sec, sqrt) <==>
              ValidGeometry(sec) && Radicand(m, c, sec) >= 0.0
              && XiBalanced(c, r) < Xi(m, c, sec, sqrt) <= XiBalancedAsWritten(c, r)
    ensures RequiredArea(m, c, r, sec, sqrt) != RequiredAreaAsWritten(m, c, r, sec, sqrt) ==>
              RequiredArea(m, c, r, sec, sqrt) == Failed(SectionOverstressed)
              && RequiredAreaAsWritten(m, c, r, sec, sqrt).Required?
  {
    assert RequiredArea(m, c, r, sec, sqrt) == AreaAgainstLimit(m, c, r, sec, sqrt, XiBalanced(c, r));
    assert RequiredAreaAsWritten(m, c, r, sec, sqrt) == AreaAgainstLimit(m, c, r, sec, sqrt, XiBalancedAsWritten(c, r));
  }

  /** For C30 concrete with HRB400 bars every section with 44/85 < xi <= 28/53 is
      designed by design.py and refused as overstressed by the model. */
  lemma C30WindowRefused(m: real, c: Concrete, r: Rebar, sec: Section, sqrt: real -> real)
    requires ValidConcrete(c) && ValidRebar(r) && IsSquareRoot(sqrt)
    requires c.fcuk == 30.0 && c.beta1 == 0.8 && r == Rebar(200000.0, 360.0)
    requires ValidGeometry(sec) && Radicand(m, c, sec) >= 0.0
    requires 44.0 / 85.0 < Xi(m, c, sec, sqrt) <= 28.0 / 53.0
    ensures RequiredArea(m, c, r, sec, sqrt) == Failed(SectionOverstressed)
    ensures RequiredAreaAsWritten(m, c, r, sec, sqrt).Required?
  {
    UncappedStrainForC30();
    assert XiBalanced(c, r) == 44.0 / 85.0;
    assert XiBalancedAsWritten(c, r) == 28.0 / 53.0;
    CappedStrainRefusesWindow(m, c, r, sec, sqrt);
  }

  /** When xi stays within xi_b and the raw area already reaches A_smin, the clamp
      leaves the raw area unchanged. */
  lemma RawAreaKeptAboveMinimum(m: real, c: Concrete, r: Rebar, sec: Section, sqrt: real -> real)
    requires ValidConcrete(c) && ValidRebar(r) && ValidGeometry(sec) && IsSquareRoot(sqrt)
    requires Radicand(m, c, sec) >= 0.0 && Xi(m, c, sec, sqrt) <= XiBalanced(c, r)
    requires RawArea(m, c, r, sec, sqrt) >= AsMin(c, r, sec)
    ensures RequiredArea(m, c, r, sec, sqrt) == Required(RawArea(m, c, r, sec, sqrt))
  {
  }

  /** A moment whose coefficient alpha_s is exactly 0.5 gives xi = 1, which always
      exceeds xi_b: the section is reported overstressed, without any fault. */
  lemma HalfAlphaIsOverstressed(m: real, c: Concrete, r: Rebar, sec: Section, sqrt: real -> real)
    requires ValidConcrete(c) && ValidRebar(r) && ValidGeometry(sec) && IsSquareRoot(sqrt)
    requires AlphaS(m, c, sec) == 0.5
    ensures Xi(m, c, sec, sqrt) == 1.0
    ensures RequiredArea(m, c, r, sec, sqrt) == Failed(SectionOverstressed)
  {
    var root := sqrt(Radicand(m, c, sec));
    assert Radicand(m, c, sec) == 0.0;
    if root != 0.0 {
      SquareStrict(root, 0.0);
    }
    assert root == 0.0;
    assert Xi(m, c, sec, sqrt) == 1.0 - root;
  }

  /** The non-negative square root is monotone: a smaller radicand has a root no larger. */
  lemma SquareRootMonotone(x: real, y: real, sx: real, sy: real)
    requires 0.0 <= x <= y
    requires sx >= 0.0 && sx * sx == x && sy >= 0.0 && sy * sy == y
    ensures sx <= sy
  {
    if sx > sy {
      SquareStrict(sx, sy);
    }
  }

  /** alpha_s grows with the moment. */
  lemma AlphaSMonotone(m1: real, m2: real, c: Concrete, sec: Section)
    requires ValidConcrete(c) && ValidGeometry(sec) && m1 <= m2
    ensures AlphaS(m1, c, sec) <= AlphaS(m2, c, sec)
  {
  }

  /** xi grows with the moment, since the square root is monotone. */
  lemma XiMonotone(m1: real, m2: real, c: Concrete, sec: Section, sqrt: real -> real)
    requires ValidConcrete(c) && ValidGeometry(sec) && IsSquareRoot(sqrt) && m1 <= m2
    requires Radicand(m2, c, sec) >= 0.0
    ensures Radicand(m1, c, sec) >= Radicand(m2, c, sec)
    ensures Xi(m1, c, sec, sqrt) <= Xi(m2, c, sec, sqrt)
  {
    AlphaSMonotone(m1, m2, c, sec);
    var rad1, rad2 := Radicand(m1, c, sec), Radicand(m2, c, sec);
    SquareRootMonotone(rad2, rad1, sqrt(rad2), sqrt(rad1));
  }

  /** The unclamped area grows with the moment. */
  lemma RawAreaMonotone(m1: real, m2: real, c: Concrete, r: Rebar, sec: Section, sqrt: real -> real)
    requires ValidConcrete(c) && ValidRebar(r) && ValidGeometry(sec) && IsSquareRoot(sqrt) && m1 <= m2
    requires Radicand(m2, c, sec) >= 0.0
    ensures Radicand(m1, c, sec) >= 0.0
    ensures RawArea(m1, c, r, sec, sqrt) <= RawArea(m2, c, r, sec, sqrt)
  {
    XiMonotone(m1, m2, c, sec, sqrt);
    var xi1, xi2 := Xi(m1, c, sec, sqrt), Xi(m2, c, sec, sqrt);
    var k := c.alpha1 * c.fc * sec.width;
    var h0 := EffectiveDepth(sec);
    ProductPositive(c.alpha1, c.fc);
    ProductPositive(c.alpha1 * c.fc, sec.width);
    AreaMonotone(k, xi1, xi2, h0, r.fy);
  }

  /** The raw area never exceeds the steel alpha_1 f_c b h0 / f_y that balances
      compression over the whole effective depth (xi = 1). */
  lemma RawAreaAtMostFullDepth(m: real, c: Concrete, r: Rebar, sec: Section, sqrt: real -> real)
    requires ValidConcrete(c) && ValidRebar(r) && ValidGeometry(sec) && IsSquareRoot(sqrt)
    requires Radicand(m, c, sec) >= 0.0
    ensures RawArea(m, c, r, sec, sqrt) <= c.alpha1 * c.fc * sec.width * EffectiveDepth(sec) / r.fy
  {
    ProductPositive(c.alpha1, c.fc);
    ProductPositive(c.alpha1 * c.fc, sec.width);
    AreaBounds(c.alpha1 * c.fc * sec.width, Xi(m, c, sec, sqrt), EffectiveDepth(sec), r.fy);
  }

  /** k xi h0 / f_y with positive k, h0 and f_y grows with xi. */
  lemma AreaMonotone(k: real, xi1: real, xi2: real, h0: real, fy: real)
    requires k > 0.0 && h0 > 0.0 && fy > 0.0 && xi1 <= xi2
    ensures k * xi1 * h0 / fy <= k * xi2 * h0 / fy
  {
    ScaleMonotone(k, xi1, xi2);
    ScaleMonotone(h0, k * xi1, k * xi2);
    QuotientMonotone(k * xi1 * h0, k * xi2 * h0, fy);
  }

  /** Monotonicity in the moment, whatever the limit on xi: if a larger moment is
      still acceptable, every smaller one is too, and needs no more steel. */
  lemma AreaAgainstLimitMonotone(m1: real, m2: real, c: Concrete, r: Rebar, sec: Section, sqrt: real -> real,
                                 xiLimit: real)
    requires ValidConcrete(c) && ValidRebar(r) && IsSquareRoot(sqrt) && m1 <= m2
    requires AreaAgainstLimit(m2, c, r, sec, sqrt, xiLimit).Required?
    ensures AreaAgainstLimit(m1, c, r, sec, sqrt, xiLimit).Required?
    ensures AreaAgainstLimit(m1, c, r, sec, sqrt, xiLimit).area <= AreaAgainstLimit(m2, c, r, sec, sqrt, xiLimit).area
  {
    XiMonotone(m1, m2, c, sec, sqrt);
    RawAreaMonotone(m1, m2, c, r, sec, sqrt);
  }

  /** Monotonicity in the moment under the capped xi_b. */
  lemma RequiredAreaMonotone(m1: real, m2: real, c: Concrete, r: Rebar, sec: Section, sqrt: real -> real)
    requires ValidConcrete(c) && ValidRebar(r) && IsSquareRoot(sqrt) && m1 <= m2
    requires RequiredArea(m2, c, r, sec, sqrt).Required?
    ensures RequiredArea(m1, c, r, sec, sqrt).Required?
    ensures RequiredArea(m1, c, r, sec, sqrt).area <= RequiredArea(m2, c, r, sec, sqrt).area
  {
    AreaAgainstLimitMonotone(m1, m2, c, r, sec, sqrt, XiBalanced(c, r));
  }

  /** Monotonicity in the moment under the xi_b design.py computes. */
  lemma RequiredAreaAsWrittenMonotone(m1: real, m2: real, c: Concrete, r: Rebar, sec: Section, sqrt: real -> real)
    requires ValidConcrete(c) && ValidRebar(r) && IsSquareRoot(sqrt) && m1 <= m2
    requires RequiredAreaAsWritten(m2, c, r, sec, sqrt).Required?
    ensures RequiredAreaAsWritten(m1, c, r, sec, sqrt).Required?
    ensures RequiredAreaAsWritten(m1, c, r, sec, sqrt).area <= RequiredAreaAsWritten(m2, c, r, sec, sqrt).area
  {
    AreaAgainstLimitMonotone(m1, m2, c, r, sec, sqrt, XiBalancedAsWritten(c, r));
  }

  lemma ProductPositive(a: real, b: real)
    requires a > 0.0 && b > 0.0
    ensures a * b > 0.0
  {
  }

  lemma SquareStrict(a: real, b: real)
    requires a > b >= 0.0
    ensures a * a > b * b
  {
    var ab := a * b;
    assert a * a > ab;
    assert ab >= b * b;
  }

  lemma QuotientSign(x: real, d: real)
    requires d > 0.0
    ensures x / d >= 0.0 <==> x >= 0.0
  {
  }

  lemma QuotientMonotone(x: real, y: real, d: real)
    requires d > 0.0 && x <= y
    ensures x / d <= y / d
  {
  }
}
