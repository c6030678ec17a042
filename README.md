# Flexural design of a singly reinforced rectangular beam section

A Dafny model of the calculation engine of rc-section-calc (`design.py`). Given a
section (width b, height h, distance a_s from the tension face to the steel
centroid), concrete and rebar constants and a factored moment M, the engine

1. derives the ultimate concrete strain ε_cu, the balanced relative depth ξ_b,
   the minimum reinforcement ratio ρ_min and area A_smin, and the effective
   depth h0 (GB 50010-2010, equation 6.2.1-5, equation 6.2.7-1, section 8.5.1);
2. computes the required tension steel area A_s (`get_As`): the moment
   coefficient α_s, ξ = 1 − √(1 − 2α_s), rejection of over-reinforced sections
   (ξ > ξ_b), and the clamp of A_s up to A_smin;
3. goes through the fixed diameter catalog 6 … 50 mm. For each diameter it works
   out the bar count by ceiling and the clear spacing max(25, d)
   (GB 50010-2010, section 9.2.1). It tries one row, then two rows when the
   depth allows, and keeps at most one layout per diameter;
4. picks the economic layout, the one with the least over-provision A_p − A_s.
   When several tie, the first one wins.

Modules: `Materials` (materials.dfy: data and derived constants), `SteelArea`
(steel_area.dfy: `get_As`), `Arrangement` (arrangement.dfy: the catalog loop),
`EconomicSelection` (economic.dfy: the `min`), `Design` (design.dfy: the
top-level flow of the script). Everything uses Dafny `real`, which is exact.

The caller supplies the square root as a function `sqrt: real -> real`. The
ghost predicate `SteelArea.IsSquareRoot` describes it: for x ≥ 0, sqrt(x) ≥ 0
and sqrt(x)·sqrt(x) = x. π is the decimal constant `3.141592653589793`.
Only the facts `BarArea(d) > 0` and the ceiling relations are used about it.

The source's `-1` sentinel becomes the datatype `AreaResult`, which is either
`Required(area)` or `Failed(reason)`. The reasons are `InvalidGeometry`,
`SectionOverstressed` and `NoArrangementFits`. The module-level globals of the
script become parameters.

The model departs from design.py in three places:

- The radicand 1 − 2α_s can be negative. `design.py:45` then raises a math
  domain error. The model reports `SectionOverstressed` instead: α_s > 0.5 means
  the section cannot carry the moment at all.
- Geometry with b ≤ 0, h ≤ 0 or h0 ≤ 0 is reported as `InvalidGeometry`. The
  script does not check it: it divides by zero when b or h0 is 0, and otherwise
  computes on.
- ε_cu is capped at 0.0033, as equation 6.2.1-5 of GB 50010-2010 requires (see
  Findings). The over-reinforcement check of design.py itself, against the ξ_b
  of the uncapped strain, is kept as `SteelArea.RequiredAreaAsWritten`, and
  `SteelArea.CappedStrainRefusesWindow` states exactly where the two differ.

## Model

| member | source | states |
|---|---|---|
| `Materials.EpsilonCuAsWritten` | design.py:31 | ε_cu as written: above 0.0033 for f_cu,k < 50 and below it for f_cu,k > 50 |
| `Materials.EpsilonCu` | design.py:31 | ε_cu of equation 6.2.1-5 with its cap: never above 0.0033. Equals 0.0033 up to C50 and the linear formula from C50 on |
| `Materials.EffectiveDepth` | design.py:39 | the geometry is valid exactly when b, h and h0 = h − a_s are all positive |
| `Materials.BalancedDepth` | design.py:33 | ξ_b = β₁ / (1 + f_y/(ε_cu E_s)) lies strictly between 0 and β₁ |
| `Materials.XiBalanced` | design.py:33 | ξ_b for a concrete/rebar pair lies strictly between 0 and β₁ ≤ 1 |
| `Materials.XiBalancedAsWritten` | design.py:31-33 | ξ_b from the uncapped strain lies strictly between 0 and β₁, is never below `XiBalanced`, and equals it from C50 on |
| `Materials.RhoMin` | design.py:35 | ρ_min ≥ 0.002 and ρ_min ≥ 0.45 f_t/f_y, and it equals one of the two |
| `Materials.AsMin` | design.py:37 | for b, h > 0, A_smin ≥ 0.002·b·h > 0 and A_smin ≥ 0.45 (f_t/f_y)·b·h |
| `Materials.BalancedDepthGrowsWithStrain` | design.py:31-33 | a larger ε_cu gives a strictly larger ξ_b |
| `Materials.UncappedStrainOverstatesBalancedDepth` | design.py:31-33 | below C50, the ξ_b that design.py computes (`XiBalancedAsWritten`) is strictly larger than the ξ_b of the capped strain |
| `Materials.UncappedStrainForC30` | design.py:31-33 | for C30 with HRB400 the uncapped strain is 0.0035 and ξ_b = 28/53, against 0.0033 and 44/85 with the cap |
| `SteelArea.FlexuralCapacityFactor` | design.py:44 | the denominator α₁ f_c b h0² of α_s is positive for valid materials and geometry |
| `SteelArea.AlphaS` | design.py:44 | α_s has the sign of M |
| `SteelArea.Radicand` | design.py:45 | 1 − 2α_s ≤ 1 exactly when M ≥ 0, and < 1 exactly when M > 0 |
| `SteelArea.Xi` | design.py:45 | ξ ≤ 1, and ξ ≥ 0 when M ≥ 0 |
| `SteelArea.RawArea` | design.py:50 | α₁f_c b ξ h0/f_y is not negative when M ≥ 0 |
| `SteelArea.RawAreaAtMostFullDepth` | design.py:45-50 | the raw area never exceeds α₁f_c b h0/f_y, its value at ξ = 1 |
| `SteelArea.AreaAgainstLimit` | design.py:42-53 | for a given limit on ξ: fails with `InvalidGeometry` exactly when the geometry is invalid, with `SectionOverstressed` exactly when 1 − 2α_s < 0 or ξ exceeds the limit. Otherwise A_s ≥ A_smin > 0, A_s is at least the raw area and equals either it or A_smin |
| `SteelArea.RequiredArea` | design.py:42-53 | fails with `InvalidGeometry` exactly when the geometry is invalid. Fails with `SectionOverstressed` exactly when 1 − 2α_s < 0 or ξ > ξ_b. Otherwise A_s ≥ A_smin > 0, so it can never be the sentinel −1. A_s is at least the raw area α₁f_c b ξ h0/f_y and equals either that or A_smin |
| `SteelArea.RequiredAreaAsWritten` | design.py:31-53 | `get_As` with the ξ_b of the uncapped strain: `InvalidGeometry` exactly for invalid geometry, `SectionOverstressed` exactly when 1 − 2α_s < 0 or ξ exceeds that ξ_b, and otherwise A_s ≥ A_smin > 0 |
| `SteelArea.CappedStrainRefusesWindow` | design.py:31-48 | `RequiredArea` and `RequiredAreaAsWritten` differ exactly when the geometry is valid, 1 − 2α_s ≥ 0 and ξ_b(capped) < ξ ≤ ξ_b(uncapped). There the model reports `SectionOverstressed` while design.py returns an area |
| `SteelArea.C30WindowRefused` | design.py:31-53 | for C30 with HRB400, every section with 44/85 < ξ ≤ 28/53 is refused by the model and designed by design.py |
| `SteelArea.RawAreaKeptAboveMinimum` | design.py:50-53 | when ξ ≤ ξ_b and the raw area is at least A_smin, the result is the raw area unchanged |
| `SteelArea.HalfAlphaIsOverstressed` | design.py:44-48 | α_s = 0.5 gives ξ = 1 exactly, and the section is reported overstressed without a fault |
| `SteelArea.XiMonotone` | design.py:44-45 | a larger moment gives a smaller radicand and a ξ no smaller |
| `SteelArea.RawAreaMonotone` | design.py:50 | the raw area does not decrease as M grows |
| `SteelArea.AreaAgainstLimitMonotone` | design.py:42-53 | for any limit on ξ: if a moment M₂ is accepted, every M₁ ≤ M₂ is accepted too, and needs no more steel |
| `SteelArea.RequiredAreaMonotone` | design.py:42-53 | the same under the capped ξ_b: every M₁ ≤ an accepted M₂ is accepted and needs no more steel |
| `SteelArea.RequiredAreaAsWrittenMonotone` | design.py:31-53 | the same under design.py's own ξ_b: every M₁ ≤ an accepted M₂ is accepted and needs no more steel |
| `Arrangement.CatalogWellFormed` | design.py:61 | the diameter catalog is positive and strictly ascending |
| `Arrangement.Ceil` | design.py:63 | ceil(x) is the integer n with n − 1 < x ≤ n |
| `Arrangement.BarArea` | design.py:62 | the area of one bar is positive |
| `Arrangement.BarCount` | design.py:63 | n·area ≥ A_s and (n − 1)·area < A_s, and n ≥ 1 exactly when A_s > 0 |
| `Arrangement.BarCountLeast` | design.py:63 | every count m with m·area ≥ A_s is at least the bar count |
| `Arrangement.Spacing` | design.py:64 | s ≥ 25 and s ≥ d, and s is one of the two |
| `Arrangement.Provided` | design.py:65 | A_s ≤ A_p < A_s + one bar area, so the coverage test at design.py:69 and 77 always passes |
| `Arrangement.RowWidth` | design.py:68-76 | for k ≥ 1 bars of positive diameter the width is at least the two edge distances 2a_s, and equals them only for k = 1 |
| `Arrangement.SingleRowFits` | design.py:69 | the one-row test holds exactly when the row of n bars fits within b |
| `Arrangement.ThickestDoubleRowBar` | design.py:73 | t = ⌊(h0 − 10)/2⌋ is the integer with 2t + 10 ≤ h0 < 2t + 12 |
| `Arrangement.DoubleRowAllowed` | design.py:73 | the bars allowed two rows are exactly those with d ≤ ⌊(h0 − 10)/2⌋, so every bar thinner than an allowed one is allowed too |
| `Arrangement.DoubleRowAllowedForSmallerBars` | design.py:73 | a depth that allows two rows of a bar allows them for every smaller bar |
| `Arrangement.DoubleRowFits` | design.py:75-77 | the two-row test holds exactly when ceil(n/2) bars fit within b, and it holds whenever A_s > 0 and one row fits |
| `Arrangement.PerRow` | design.py:75 | ceil(n/2) = p with n ≤ 2p ≤ n + 1 |
| `Arrangement.ArrangeDiameter` | design.py:62-78 | a diameter yields a layout exactly when one row fits, or two rows are allowed and fit. A single row is chosen exactly when it fits, with every bar in that row. Two rows need h − a_s ≥ 2d + 10 and put ceil(n/2) bars in the first row. Every layout has bar count n, provided area n·area ≥ A_s, and a row width within b |
| `Arrangement.DoubleRowSplit` | design.py:75-86 | in a two-row layout with A_s > 0: n ≥ 1, and per_row ≥ n − per_row ≥ 0, with the first row at most one bar longer |
| `Arrangement.DoubleRowNarrower` | design.py:68-76 | for n ≥ 1, the row of ceil(n/2) bars is never wider than the row of n bars |
| `Arrangement.Options` | design.py:60-78 | trying the diameters ds gives at most |ds| options |
| `Arrangement.OptionsSound` | design.py:60-78 | every option is the layout of a tried diameter, covers A_s and fits the width |
| `Arrangement.OptionsComplete` | design.py:60-78 | every tried diameter that has a layout contributes it |
| `Arrangement.OptionsOrdered` | design.py:61-78 | ascending diameters give options in strictly ascending diameter order, so no diameter appears twice |
| `Arrangement.SearchArrangements` | design.py:60-78 | the loop's result equals `Options` over the catalog. Each option covers A_s, fits b and comes from the catalog. Options are in ascending diameter order, and every catalog diameter with a layout is present |
| `EconomicSelection.Excess` | design.py:94 | the key A_p − A_s is non-negative exactly when A_p ≥ A_s, and for a fixed A_s orders layouts exactly as their provided areas |
| `EconomicSelection.OptionExcessBelowOneBar` | design.py:63-65 | every option's excess is at least 0 and less than one of its own bars |
| `EconomicSelection.EconomicIndex` | design.py:94 | the chosen position has the least excess A_p − A_s of all options, and every earlier option has strictly more |
| `EconomicSelection.Economic` | design.py:94 | the economic layout is one of the options, with the least excess and so the least provided area |
| `EconomicSelection.EconomicIndexUnique` | design.py:94 | the two properties above determine the position: it is the first option of least excess |
| `EconomicSelection.EconomicSmallestDiameterOnTie` | design.py:94 | when options ascend by diameter, a tie on excess goes to the smallest diameter |
| `Design.DesignSection` | design.py:55-96 | the request is refused for invalid geometry or overstress exactly as `RequiredArea` is. It is refused with `NoArrangementFits` exactly when the search is empty. Otherwise the options are those of the search, and the economic layout is `Economic` of them: one of the options, covering A_s ≥ A_smin, fitting b, with no option providing less |

## Left out

- The graphical front end (main.py) is not part of this model. Its window, canvas
  drawing and event handling are presentation only, and it calls a
  `design.calc_rebar` that design.py does not define.
- Loading materials.json and looking up grade names (design.py:4-5, 18-29) are
  external data, so the constants are parameters. The `UnknownGrade` failure of
  that lookup is therefore not modelled.
- The interactive `input()` prompts (design.py:7-16) and all printing and
  formatting (design.py:56-57, 81-92, 95-96) are console I/O and are left out.
- Floating-point rounding is not modelled. In exact arithmetic the
  `A_s_provided >= A_s` tests always pass (`Provided`). In IEEE
  doubles they can fail by one rounding step.
- The value of π is a fixed decimal, and the square root is a caller-supplied
  function characterised only by `IsSquareRoot`. The actual bits of `math.pi`
  and `math.sqrt` are not modelled.
- SteelArea.RequiredArea: requires the material constants to be physically
  meaningful (`ValidConcrete`, `ValidRebar`): f_c > 0, f_t ≥ 0,
  0 < α₁ ≤ 1, 0 < β₁ ≤ 1, ε_cu > 0, E_s > 0 and f_y > 0. Every concrete and
  rebar grade of GB 50010-2010 meets them. The script divides by f_y, f_c and
  ε_cu·E_s without checking them.
- SteelArea.RequiredArea: the over-reinforcement limit is the ξ_b of the capped
  strain (`Materials.XiBalanced`), not the larger one design.py computes below
  C50. Sections with ξ_b(capped) < ξ ≤ ξ_b(uncapped) are refused here and
  designed by the script (`CappedStrainRefusesWindow`); `RequiredAreaAsWritten`
  keeps the script's limit.
- Materials.XiBalanced: uses the strain capped at 0.0033. The value of
  design.py:33 is `XiBalancedAsWritten`.
- Design.DesignSection: takes its area from `RequiredArea`, so it inherits the
  capped limit; below C50 it refuses the sections of the window above that the
  script goes on to arrange.
- Arrangement.SearchArrangements: the loop body evaluates one diameter through
  the function `ArrangeDiameter`, which holds the per-diameter statements of
  design.py:62-78. It does not spell them out as separate statements.
- Idempotence (identical inputs give identical results) holds by construction,
  because every member is a function of its arguments. It is not stated as a
  separate lemma.
- There is no tie between one-row and two-row layouts of the same diameter,
  because a diameter contributes at most one layout. Ties across diameters are
  broken by catalog order (`EconomicSmallestDiameterOnTie`).

## Findings

| source | as written | input that shows it | evidently intended | confidence | as-written member | corrected member |
|---|---|---|---|---|---|---|
| design.py:31 | ε_cu = 0.0033 − (f_cu,k − 50)·10⁻⁵ with no upper cap, so it exceeds 0.0033 below C50 | C30 (f_cu,k = 30, β₁ = 0.8) with HRB400 (f_y = 360, E_s = 2.0e5): ε_cu = 0.0035 and ξ_b = 28/53 ≈ 0.528 | equation 6.2.1-5 of GB 50010-2010 caps ε_cu at 0.0033, which gives ξ_b = 44/85 ≈ 0.518. The uncapped value admits sections with 0.518 < ξ ≤ 0.528 that the standard rejects | medium (not executed; from the standard's text) | `Materials.UncappedStrainForC30` | `Materials.EpsilonCu` |
