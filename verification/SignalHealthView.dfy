/** Threshold bands of the dashboard's power range and the classifier beside them
    (app/signal_health_view.py). Percentages are exact thousandths. */
module SignalHealthView {
  import opened Orders
  import opened Rounding

  datatype Kind = Crit | Warn | Tolerated | Good

  /** `left` and `width` in thousandths of a percent. */
  datatype Band = Band(kind: Kind, left: int, width: int)

  datatype Range = Range(low: real, high: real)

  /** A threshold profile's power entry; each list may be missing (or empty). */
  datatype Threshold = Threshold(good: Option<Range>, warning: Option<Range>, critical: Option<Range>) {
    function GoodRange(): Range { if good.Some? then good.value else Range(-4.0, 13.0) }

    function WarningRange(): Range { if warning.Some? then warning.value else GoodRange() }

    function CriticalRange(): Range {
      if critical.Some? then critical.value else Range(WarningRange().low - 2.0, WarningRange().high + 2.0)
    }

    ghost predicate Ordered() {
      CriticalRange().low <= WarningRange().low <= GoodRange().low <= GoodRange().high
      <= WarningRange().high <= CriticalRange().high
    }

    function Padding(): real {
      var p := (CriticalRange().high - CriticalRange().low) * 0.06;
      if p < 0.5 then 0.5 else p
    }
  }

  /** `round(x, 3)` in thousandths. */
  function RoundThousandths(x: real): int { RoundHalfEven(x * 1000.0) }

  function Clamp(x: real): real { if x < 0.0 then 0.0 else if x > 100.0 then 100.0 else x }

  function RangePct(value: Option<real>, minimum: real, maximum: real): int {
    if value.None? || maximum <= minimum then 0
    else RoundThousandths(Clamp((value.value - minimum) / (maximum - minimum) * 100.0))
  }

  /** `_range_band` of a piece whose ends have been converted to percentages. */
  function RangeBand(kind: Kind, left: int, right: int): Option<Band> {
    if right <= left then None else Some(Band(kind, left, right - left))
  }

  function PowerMetricHealth(value: Option<real>, t: Threshold): Kind {
    if value.None? then Good
    else
      var v, crit, warn, good := value.value, t.CriticalRange(), t.WarningRange(), t.GoodRange();
      if v < crit.low || v > crit.high then Crit
      else if v < warn.low || v > warn.high then Warn
      else if v < good.low || v > good.high then Tolerated
      else Good
  }

  /** The cut points of the scale, padded on both sides, and the kind of each piece. */
  function Edges(t: Threshold): (es: seq<real>)
    ensures |es| == 8
  {
    var crit, warn, good := t.CriticalRange(), t.WarningRange(), t.GoodRange();
    [crit.low - t.Padding(), crit.low, warn.low, good.low, good.high, warn.high, crit.high, crit.high + t.Padding()]
  }

  function Kinds(): (ks: seq<Kind>)
    ensures |ks| == 7
  {
    [Crit, Warn, Tolerated, Good, Tolerated, Warn, Crit]
  }

  /** Where the edges lie on the scale between the first and the last of them. */
  function Cuts(edges: seq<real>): (cs: seq<int>)
    requires edges != []
    ensures |cs| == |edges|
  {
    seq(|edges|, i requires 0 <= i < |edges| => RangePct(Some(edges[i]), edges[0], edges[|edges| - 1]))
  }

  /** The bands that survive: pieces whose rounded width is positive. */
  function Bands(kinds: seq<Kind>, cuts: seq<int>): seq<Band>
    requires |cuts| == |kinds| + 1
  {
    if kinds == [] then []
    else
      var n := |kinds| - 1;
      var band := RangeBand(kinds[n], cuts[n], cuts[n + 1]);
      Bands(kinds[..n], cuts[..n + 1]) + if band.Some? then [band.value] else []
  }

  function PowerBands(t: Threshold): seq<Band> { Bands(Kinds(), Cuts(Edges(t))) }

  function Marker(value: Option<real>, t: Threshold): int { RangePct(value, Edges(t)[0], Edges(t)[7]) }

  /** A missing list takes the next inner range, the critical one widened by 2 dB; good is -4 to 13. */
  lemma RangesByDefault(t: Threshold, r: Range)
    ensures t.good == Some(r) ==> t.GoodRange() == r
    ensures t.good.None? ==> t.GoodRange() == Range(-4.0, 13.0)
    ensures t.warning == Some(r) ==> t.WarningRange() == r
    ensures t.warning.None? ==> t.WarningRange() == t.GoodRange()
    ensures t.critical == Some(r) ==> t.CriticalRange() == r
    ensures t.critical.None? && t.WarningRange() == r ==> t.CriticalRange() == Range(r.low - 2.0, r.high + 2.0)
  {
  }

  /** The scale reaches beyond the critical range by 6 % of it on either side, and by 0.5 at least. */
  lemma ScaleReaches(t: Threshold, low: real, high: real)
    requires t.CriticalRange() == Range(low, high)
    ensures var over := Edges(t)[7] - high;
            && Edges(t)[0] == low - over && Edges(t)[1] == low && Edges(t)[6] == high
            && 100.0 * over >= 6.0 * (high - low) && over >= 0.5
            && (over > 0.5 ==> 100.0 * over == 6.0 * (high - low))
  {
  }

  // ----- Laws of the scale -----

  lemma DivideMonotone(a: real, b: real, d: real)
    requires a <= b && d > 0.0
    ensures a / d <= b / d
  {
    var x, y := a / d, b / d;
    assert x * d == a && y * d == b;
  }

  lemma SelfQuotient(d: real)
    requires d > 0.0
    ensures 0.0 / d == 0.0 && d / d == 1.0
  {
    var q := d / d;
    assert q * d == d;
    assert (q - 1.0) * d == q * d - d;
  }

  /** A hundredth of the scale is at least one percent of it. */
  lemma ShareOfScale(p: real, d: real)
    requires d > 0.0 && d <= 100.0 * p
    ensures p / d * 100.0 >= 1.0
  {
    var q := p / d;
    assert q * d == p;
    assert (100.0 * q - 1.0) * d == 100.0 * (q * d) - d;
  }

  lemma ScaledError(e: real, bound: real, d: real)
    requires -bound <= e <= bound && d > 0.0
    ensures -(bound * d) <= e * d <= bound * d
  {
  }

  lemma ErrorOfShare(n: real, q: real, d: real, k: real)
    ensures (n - q * k) * d == n * d - k * (q * d)
  {
  }

  /** `n` is the share of `x` in `d`, in thousandths of a percent and to the nearest. */
  ghost predicate IsShare(n: int, x: real, d: real) { -0.5 * d <= n as real * d - 100_000.0 * x <= 0.5 * d }

  lemma NearestIsShare(n: int, q: real, x: real, d: real, k: real)
    requires d > 0.0 && q * d == x && k == 100_000.0 && -0.5 <= n as real - q * k <= 0.5
    ensures IsShare(n, x, d)
  {
    ErrorOfShare(n as real, q, d, k);
    ScaledError(n as real - q * k, 0.5, d);
  }

  lemma QuotientLaws(x: real, d: real)
    requires 0.0 <= x <= d && d > 0.0
    ensures x / d * d == x && 0.0 <= x / d * 100.0 <= 100.0
  {
    SelfQuotient(d);
    DivideMonotone(0.0, x, d);
    DivideMonotone(x, d, d);
  }

  lemma PctIsNearest(v: real, minimum: real, maximum: real, q: real)
    requires minimum < maximum && q == (v - minimum) / (maximum - minimum) && 0.0 <= q * 100.0 <= 100.0
    ensures -0.5 <= RangePct(Some(v), minimum, maximum) as real - q * 100_000.0 <= 0.5
  {
    RoundingIsNearest(q * 100.0 * 1000.0);
  }

  /** Within the scale the percentage is the share of the way. */
  lemma PctIsShare(v: real, minimum: real, maximum: real)
    requires minimum <= v <= maximum && minimum < maximum
    ensures IsShare(RangePct(Some(v), minimum, maximum), v - minimum, maximum - minimum)
  {
    var q := (v - minimum) / (maximum - minimum);
    QuotientLaws(v - minimum, maximum - minimum);
    PctIsNearest(v, minimum, maximum, q);
    NearestIsShare(RangePct(Some(v), minimum, maximum), q, v - minimum, maximum - minimum, 100_000.0);
  }

  lemma PctIsMonotone(v: real, w: real, minimum: real, maximum: real)
    requires v <= w && minimum < maximum
    ensures RangePct(Some(v), minimum, maximum) <= RangePct(Some(w), minimum, maximum)
  {
    var d := maximum - minimum;
    DivideMonotone(v - minimum, w - minimum, d);
    RoundingIsMonotone(Clamp((v - minimum) / d * 100.0) * 1000.0, Clamp((w - minimum) / d * 100.0) * 1000.0);
  }

  lemma PctOfEnds(v: real, minimum: real, maximum: real)
    requires minimum < maximum
    ensures v <= minimum ==> RangePct(Some(v), minimum, maximum) == 0
    ensures v >= maximum ==> RangePct(Some(v), minimum, maximum) == 100_000
    ensures 0 <= RangePct(Some(v), minimum, maximum) <= 100_000
  {
    var d := maximum - minimum;
    var x := (v - minimum) / d;
    SelfQuotient(d);
    if v <= minimum {
      DivideMonotone(v - minimum, 0.0, d);
    } else if v >= maximum {
      DivideMonotone(d, v - minimum, d);
    }
    RoundingIsMonotone(0.0, Clamp(x * 100.0) * 1000.0);
    RoundingIsMonotone(Clamp(x * 100.0) * 1000.0, 100_000.0);
  }

  ghost predicate Ascending(cuts: seq<int>) {
    forall i, j | 0 <= i < j < |cuts| :: cuts[i] <= cuts[j]
  }

  /** Contiguous bands of positive width from `from` to `to`. */
  ghost predicate Tile(bands: seq<Band>, from: int, to: int) {
    && (forall i | 0 <= i < |bands| :: bands[i].width > 0)
    && (forall i | 0 < i < |bands| :: bands[i].left == bands[i - 1].left + bands[i - 1].width)
    && (if bands == [] then from == to
        else bands[0].left == from && bands[|bands| - 1].left + bands[|bands| - 1].width == to)
  }

  function Widths(bands: seq<Band>): int {
    if bands == [] then 0 else Widths(bands[..|bands| - 1]) + bands[|bands| - 1].width
  }

  lemma {:induction false} BandsTile(kinds: seq<Kind>, cuts: seq<int>)
    requires |cuts| == |kinds| + 1 && Ascending(cuts)
    ensures Tile(Bands(kinds, cuts), cuts[0], cuts[|kinds|])
  {
    if kinds != [] {
      var n := |kinds| - 1;
      BandsTile(kinds[..n], cuts[..n + 1]);
    }
  }

  lemma {:induction false} TileWidths(bands: seq<Band>, from: int, to: int)
    requires Tile(bands, from, to)
    ensures Widths(bands) == to - from
  {
    if bands != [] {
      var n := |bands| - 1;
      TileWidths(bands[..n], from, bands[n].left);
    }
  }

  /** The `i`-th piece has its band, unless its rounded width is zero. */
  ghost predicate Shown(kinds: seq<Kind>, cuts: seq<int>, i: nat)
    requires |cuts| == |kinds| + 1 && i < |kinds|
  {
    cuts[i] < cuts[i + 1] ==> Band(kinds[i], cuts[i], cuts[i + 1] - cuts[i]) in Bands(kinds, cuts)
  }

  lemma {:induction false} BandSurvives(kinds: seq<Kind>, cuts: seq<int>, i: nat)
    requires |cuts| == |kinds| + 1 && i < |kinds|
    ensures Shown(kinds, cuts, i)
  {
    var n := |kinds| - 1;
    if i < n {
      BandSurvives(kinds[..n], cuts[..n + 1], i);
    }
  }

  lemma CutsAscend(t: Threshold)
    requires t.Ordered()
    ensures Edges(t)[0] < Edges(t)[7]
    ensures Ascending(Cuts(Edges(t))) && Cuts(Edges(t))[0] == 0 && Cuts(Edges(t))[7] == 100_000
  {
    var e := Edges(t);
    forall i, j | 0 <= i < j < 8 ensures Cuts(e)[i] <= Cuts(e)[j] {
      PctIsMonotone(e[i], e[j], e[0], e[7]);
    }
    PctOfEnds(e[0], e[0], e[7]);
    PctOfEnds(e[7], e[0], e[7]);
  }

  // ----- What the view promises -----

  /** For ordered thresholds the bands are contiguous, start at 0, end at 100 and fill the scale. */
  lemma PowerBandsTileScale(t: Threshold)
    requires t.Ordered()
    ensures Tile(PowerBands(t), 0, 100_000) && Widths(PowerBands(t)) == 100_000
  {
    CutsAscend(t);
    BandsTile(Kinds(), Cuts(Edges(t)));
    TileWidths(PowerBands(t), 0, 100_000);
  }

  /** The piece of the scale a value falls in has the classifier's kind, the marker lies in its
      closed extent, and its band is shown unless its rounded width is zero. */
  lemma MarkerLiesInItsBand(v: real, t: Threshold) returns (i: nat)
    requires t.Ordered()
    ensures i < 7 && Kinds()[i] == PowerMetricHealth(Some(v), t)
    ensures Cuts(Edges(t))[i] <= Marker(Some(v), t) <= Cuts(Edges(t))[i + 1]
    ensures Shown(Kinds(), Cuts(Edges(t)), i)
  {
    i := ZoneOf(v, t);
    MarkerInZone(v, t, i);
    BandSurvives(Kinds(), Cuts(Edges(t)), i);
  }

  lemma MarkerInZone(v: real, t: Threshold, i: nat)
    requires t.Ordered() && i < 7
    requires i > 0 ==> Edges(t)[i] <= v
    requires i < 6 ==> v <= Edges(t)[i + 1]
    ensures Cuts(Edges(t))[i] <= Marker(Some(v), t) <= Cuts(Edges(t))[i + 1]
  {
    CutsAscend(t);
    MarkerBetweenCuts(v, Edges(t), i);
  }

  lemma MarkerBetweenCuts(v: real, e: seq<real>, i: nat)
    requires |e| == 8 && e[0] < e[7] && i < 7
    requires i > 0 ==> e[i] <= v
    requires i < 6 ==> v <= e[i + 1]
    ensures Cuts(e)[i] <= RangePct(Some(v), e[0], e[7]) <= Cuts(e)[i + 1]
  {
    PctOfEnds(v, e[0], e[7]);
    PctOfEnds(e[0], e[0], e[7]);
    PctOfEnds(e[7], e[0], e[7]);
    if i > 0 {
      PctIsMonotone(e[i], v, e[0], e[7]);
    }
    if i < 6 {
      PctIsMonotone(v, e[i + 1], e[0], e[7]);
    }
  }

  lemma ZoneOf(v: real, t: Threshold) returns (i: nat)
    requires t.Ordered()
    ensures i < 7 && Kinds()[i] == PowerMetricHealth(Some(v), t)
    ensures i > 0 ==> Edges(t)[i] <= v
    ensures i < 6 ==> v <= Edges(t)[i + 1]
  {
    var crit, warn, good := t.CriticalRange(), t.WarningRange(), t.GoodRange();
    i := if v < crit.low then 0 else if v > crit.high then 6
         else if v < warn.low then 1 else if v > warn.high then 5
         else if v < good.low then 2 else if v > good.high then 4
         else 3;
  }

  /** A missing value is the exception: it is classified as good, but its marker sits at 0,
      where only a critical band lies. */
  lemma MissingValueIsMarkedCritical(t: Threshold)
    requires t.Ordered()
    ensures PowerMetricHealth(None, t) == Good && Marker(None, t) == 0
    ensures forall b | b in PowerBands(t) && b.left <= 0 :: b.kind == Crit
  {
    CutsAscend(t);
    OuterBandIsWide(t);
    OnlyFirstAtZero(Kinds(), Cuts(Edges(t)));
  }

  /** The padding alone is more than one percent of the scale. */
  lemma OuterBandIsWide(t: Threshold)
    requires t.Ordered()
    ensures Cuts(Edges(t))[1] >= 1_000
  {
    var e, p := Edges(t), t.Padding();
    var d := e[7] - e[0];
    ShareOfScale(p, d);
    RoundingIsMonotone(1000.0, Clamp(p / d * 100.0) * 1000.0);
  }

  lemma {:induction false} OnlyFirstAtZero(kinds: seq<Kind>, cuts: seq<int>)
    requires |cuts| == |kinds| + 1 && |kinds| >= 1 && Ascending(cuts) && cuts[1] > 0
    ensures forall b | b in Bands(kinds, cuts) && b.left <= 0 :: b.kind == kinds[0]
  {
    var n := |kinds| - 1;
    if n > 0 {
      OnlyFirstAtZero(kinds[..n], cuts[..n + 1]);
      assert cuts[1] <= cuts[n];
    } else {
      assert Bands(kinds[..0], cuts[..1]) == [];
    }
  }

  /** `_range_span`: the observed stretch, widened to at least 1.6 % where there is room. */
  function RangeSpan(observedMin: Option<real>, observedMax: Option<real>, minimum: real, maximum: real): (int, int) {
    var start, end := RangePct(observedMin, minimum, maximum), RangePct(observedMax, minimum, maximum);
    (start, Min(100_000 - start, Max(1_600, end - start)))
  }

  /** The span starts at the observed minimum, stays on the scale, covers the observed maximum and
      ends there if that is 1.6 % away; it is that wide unless pressed against the right end. */
  lemma SpanStaysOnScale(observedMin: Option<real>, observedMax: Option<real>, minimum: real, maximum: real)
    requires minimum < maximum
    ensures var (start, width) := RangeSpan(observedMin, observedMax, minimum, maximum);
            var end := RangePct(observedMax, minimum, maximum);
            && start == RangePct(observedMin, minimum, maximum)
            && 0 <= start && 0 <= width && start + width <= 100_000
            && end <= start + width
            && (if start + 1_600 <= end then start + width == end else width == 1_600 || start + width == 100_000)
            && (width < 1_600 ==> start + width == 100_000)
  {
    if observedMin.Some? {
      PctOfEnds(observedMin.value, minimum, maximum);
    }
    if observedMax.Some? {
      PctOfEnds(observedMax.value, minimum, maximum);
    }
  }
}
