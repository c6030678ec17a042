/** Material constants, section geometry and the quantities design.py derives from
    them once per design request: the ultimate concrete strain, the balanced relative
    depth, the minimum reinforcement ratio and area, and the effective depth
    (GB 50010-2010, Code for Design of Concrete Structures: equation 6.2.1-5,
    equation 6.2.7-1 and section 8.5.1). Strengths are in MPa, lengths in mm. */
module Materials {

  /** Constants of one concrete grade: cube strength f_cu,k, design compressive and
      tensile strengths f_c and f_t, stress-block coefficients alpha_1 and beta_1. */
  datatype Concrete = Concrete(fcuk: real, fc: real, ft: real, alpha1: real, beta1: real)

  /** Constants of one rebar grade: elastic modulus E_s and design yield strength f_y. */
  datatype Rebar = Rebar(Es: real, fy: real)

  /** Width b, height h, and distance a_s from the tension face to the steel centroid. */
  datatype Section = Section(width: real, height: real, cover: real)

  /** The ultimate strain exactly as design.py writes it: the linear formula of
      equation 6.2.1-5 without the cap at 0.0033 that the same clause imposes. */
  function EpsilonCuAsWritten(fcuk: real): (e: real)
    ensures fcuk < 50.0 ==> e > 0.0033
    ensures fcuk > 50.0 ==> e < 0.0033
  {
    0.0033 - (fcuk - 50.0) * 0.00001
  }

  /** The ultimate strain of equation 6.2.1-5 with its cap: never above 0.0033. */
  function EpsilonCu(fcuk: real): (e: real)
    ensures e <= 0.0033 && e <= EpsilonCuAsWritten(fcuk)
    ensures fcuk <= 50.0 ==> e == 0.0033
    ensures fcuk >= 50.0 ==> e == EpsilonCuAsWritten(fcuk)
  {
    var e := EpsilonCuAsWritten(fcuk);
    if e > 0.0033 then 0.0033 else e
  }

  /** What the material table guarantees about a concrete grade. */
  predicate ValidConcrete(c: Concrete)
  {
    c.fc > 0.0 && c.ft >= 0.0 && 0.0 < c.alpha1 <= 1.0 && 0.0 < c.beta1 <= 1.0
    && EpsilonCu(c.fcuk) > 0.0
  }

  /** What the material table guarantees about a rebar grade. */
  predicate ValidRebar(r: Rebar)
  {
    r.Es > 0.0 && r.fy > 0.0
  }

  /** A section with positive width, height and effective depth. */
  predicate ValidGeometry(sec: Section)
  {
    sec.width > 0.0 && sec.height > 0.0 && sec.cover < sec.height
  }

  /** Effective depth h0 = h - a_s: the geometry is valid exactly when b, h and h0
      are all positive. */
  function EffectiveDepth(sec: Section): (h0: real)
    ensures ValidGeometry(sec) <==> sec.width > 0.0 && sec.height > 0.0 && h0 > 0.0
  {
    sec.height - sec.cover
  }

  /** Balanced relative depth xi_b of equation 6.2.7-1, computed from a given strain. */
  function BalancedDepth(beta1: real, fy: real, Es: real, eps: real): (xb: real)
    requires 0.0 < beta1 && fy > 0.0 && Es > 0.0 && eps > 0.0
    ensures 0.0 < xb < beta1
  {
    var q := fy / (eps * Es);
    assert q > 0.0;
    beta1 / (1.0 + q)
  }

  /** Balanced relative depth of a concrete/rebar pair: strictly between 0 and beta_1. */
  function XiBalanced(c: Concrete, r: Rebar): (xb: real)
    requires ValidConcrete(c) && ValidRebar(r)
    ensures 0.0 < xb < c.beta1 <= 1.0
  {
    BalancedDepth(c.beta1, r.fy, r.Es, EpsilonCu(c.fcuk))
  }

  /** Balanced relative depth as design.py computes it, from the uncapped strain:
      the same as XiBalanced from C50 on, and never smaller below it. */
  function XiBalancedAsWritten(c: Concrete, r: Rebar): (xb: real)
    requires ValidConcrete(c) && ValidRebar(r)
    ensures 0.0 < xb < c.beta1
    ensures xb >= XiBalanced(c, r)
    ensures c.fcuk >= 50.0 ==> xb == XiBalanced(c, r)
  {
    if c.fcuk < 50.0 then
      BalancedDepthGrowsWithStrain(c.beta1, r.fy, r.Es, EpsilonCu(c.fcuk), EpsilonCuAsWritten(c.fcuk));
      BalancedDepth(c.beta1, r.fy, r.Es, EpsilonCuAsWritten(c.fcuk))
    else
      BalancedDepth(c.beta1, r.fy, r.Es, EpsilonCuAsWritten(c.fcuk))
  }

  /** Minimum reinforcement ratio of section 8.5.1: the larger of 0.2% and 45 f_t/f_y %. */
  function RhoMin(c: Concrete, r: Rebar): (rho: real)
    requires r.fy > 0.0
    ensures rho >= 0.002 && rho >= 0.45 * c.ft / r.fy
    ensures rho == 0.002 || rho == 0.45 * c.ft / r.fy
  {
    var t := 0.45 * c.ft / r.fy;
    if 0.002 >= t then 0.002 else t
  }

  /** Minimum tension steel area rho_min * b * h: never below 0.2% of the gross
      section, and positive for a section with positive width and height. */
  function AsMin(c: Concrete, r: Rebar, sec: Section): (a: real)
    requires r.fy > 0.0
    ensures sec.width > 0.0 && sec.height > 0.0 ==> a >= 0.002 * sec.width * sec.height > 0.0
    ensures sec.width > 0.0 && sec.height > 0.0 ==> a >= 0.45 * c.ft / r.fy * sec.width * sec.height
  {
    var rho := RhoMin(c, r);
    var bh := sec.width * sec.height;
    assert sec.width > 0.0 && sec.height > 0.0 ==> bh > 0.0 && rho * bh >= 0.002 * bh;
    assert sec.width > 0.0 && sec.height > 0.0 ==> rho * bh >= 0.45 * c.ft / r.fy * bh;
    rho * bh
  }

  /** A larger ultimate strain gives a larger balanced depth. */
  lemma BalancedDepthGrowsWithStrain(beta1: real, fy: real, Es: real, e1: real, e2: real)
    requires 0.0 < beta1 && fy > 0.0 && Es > 0.0 && 0.0 < e1 < e2
    ensures BalancedDepth(beta1, fy, Es, e1) < BalancedDepth(beta1, fy, Es, e2)
  {
  }

  /** Below C50 the uncapped strain of design.py overstates the balanced depth, so
      its over-reinforcement check admits sections the standard rejects. */
  lemma UncappedStrainOverstatesBalancedDepth(c: Concrete, r: Rebar)
    requires ValidConcrete(c) && ValidRebar(r) && c.fcuk < 50.0
    ensures XiBalanced(c, r) < XiBalancedAsWritten(c, r)
  {
    BalancedDepthGrowsWithStrain(c.beta1, r.fy, r.Es, EpsilonCu(c.fcuk), EpsilonCuAsWritten(c.fcuk));
  }

  /** C30 concrete (f_cu,k = 30, beta_1 = 0.8) with HRB400 bars (f_y = 360,
      E_s = 2.0e5): the uncapped strain is 0.0035 instead of 0.0033, and xi_b comes
      out as 28/53 (about 0.528) instead of 44/85 (about 0.518). */
  lemma UncappedStrainForC30()
    ensures EpsilonCuAsWritten(30.0) == 0.0035 && EpsilonCu(30.0) == 0.0033
    ensures BalancedDepth(0.8, 360.0, 200000.0, EpsilonCuAsWritten(30.0)) == 28.0 / 53.0
    ensures BalancedDepth(0.8, 360.0, 200000.0, EpsilonCu(30.0)) == 44.0 / 85.0
  {
  }

  lemma ScaleMonotone(k: real, x: real, y: real)
    requires k >= 0.0 && x <= y
    ensures k * x <= k * y && x * k <= y * k
  {
  }
}
