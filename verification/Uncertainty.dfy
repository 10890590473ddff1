/** calc_uncertainty: slope to elevation uncertainty, through a table of one value per slope band. */
module Uncertainty {
  import opened Numbers

  /** The table with its last value repeated: one value per band edge. */
  function Edge(table: seq<real>, i: nat): real
    requires |table| > 0 && i <= |table|
  {
    if i < |table| then table[i] else table[|table| - 1]
  }

  /** The band a position falls in, edges counted from 0; an edge belongs to the band below it. */
  function Band(p: real, n: nat): (k: nat)
    requires n > 0 && 0.0 <= p <= n as real
    ensures k < n && k as real <= p <= (k + 1) as real
  {
    var f := p.Floor;
    if f > 0 && f as real == p then f - 1 else f
  }

  /** Straight line between the two edges of a band. */
  function Between(a: real, b: real, t: real): real {
    a + Times(b - a, t)
  }

  /** interp1d at a position measured in bands from min_slope. */
  function Interp(table: seq<real>, p: real): real
    requires |table| > 0 && 0.0 <= p <= |table| as real
  {
    var k := Band(p, |table|);
    Between(Edge(table, k), Edge(table, k + 1), p - k as real)
  }

  /** Slope in units of bands above min_slope. */
  function Position(lo: real, hi: real, n: nat, slope: real): real
    requires n > 0 && lo < hi
  {
    (slope - lo) * n as real / (hi - lo)
  }

  lemma PositionOrder(lo: real, hi: real, n: nat, s: real, t: real)
    requires n > 0 && lo < hi && s <= t
    ensures Position(lo, hi, n, s) <= Position(lo, hi, n, t)
    ensures Position(lo, hi, n, lo) == 0.0 && Position(lo, hi, n, hi) == n as real
  {
    var w := hi - lo;
    Scale(s - lo, t - lo, n as real);
    DivideBoth((s - lo) * n as real, (t - lo) * n as real, w);
    assert w * n as real / w == n as real;
  }

  lemma Scale(a: real, b: real, m: real)
    requires a <= b && m >= 0.0
    ensures a * m <= b * m
  {}

  lemma DivideBoth(a: real, b: real, w: real)
    requires a <= b && w > 0.0
    ensures a / w <= b / w
  {}

  /** The uncertainty of one slope. */
  function UncertaintyAt(table: seq<real>, lo: real, hi: real, slope: Num): Num
    requires |table| > 0 && lo < hi
  {
    if slope.NaN? then NaN
    else if slope.value <= lo then Val(table[0])
    else if slope.value >= hi then Val(table[|table| - 1])
    else
      PositionOrder(lo, hi, |table|, lo, slope.value);
      PositionOrder(lo, hi, |table|, slope.value, hi);
      Val(Interp(table, Position(lo, hi, |table|, slope.value)))
  }

  /** Interpolating at either end of the range gives the table's first and last value. */
  lemma EndsAgree(table: seq<real>)
    requires |table| > 0
    ensures Interp(table, 0.0) == table[0] && Interp(table, |table| as real) == table[|table| - 1]
  {
    var n := |table|;
    TimesFacts(0.0, 0.0, Edge(table, 1) - Edge(table, 0));
    TimesFacts(0.0, 0.0, Edge(table, n) - Edge(table, n - 1));
    assert Band(0.0, n) == 0 && Band(n as real, n) == n - 1;
    assert n as real - (n - 1) as real == 1.0;
  }

  /** calc_uncertainty: three overlapping masked writes, which agree wherever they overlap. */
  method CalcUncertainty(slopes: seq<Num>, table: seq<real>, lo: real, hi: real) returns (u: array<Num>)
    requires |table| > 0 && lo < hi
    ensures fresh(u) && u.Length == |slopes|
    ensures forall i :: 0 <= i < |slopes| ==> u[i] == UncertaintyAt(table, lo, hi, slopes[i])
    ensures forall i :: 0 <= i < |slopes| && slopes[i].Val? ==>
      && (slopes[i].value <= lo ==> u[i] == Val(table[0]))
      && (slopes[i].value >= hi ==> u[i] == Val(table[|table| - 1]))
  {
    u := new Num[|slopes|](_ => NaN);
    EndsAgree(table);
    PositionOrder(lo, hi, |table|, lo, hi);
    for i := 0 to |slopes|
      invariant forall k :: 0 <= k < i ==> u[k] == if slopes[k].Val? && lo <= slopes[k].value <= hi
                                                   then UncertaintyAt(table, lo, hi, slopes[k]) else NaN
      invariant forall k :: i <= k < |slopes| ==> u[k] == NaN
    {
      if slopes[i].Val? && lo <= slopes[i].value <= hi {
        PositionOrder(lo, hi, |table|, lo, slopes[i].value);
        PositionOrder(lo, hi, |table|, slopes[i].value, hi);
        u[i] := Val(Interp(table, Position(lo, hi, |table|, slopes[i].value)));
      }
    }
    for i := 0 to |slopes|
      invariant forall k :: 0 <= k < |slopes| ==>
        u[k] == if slopes[k].Val? && (lo <= slopes[k].value <= hi || (k < i && slopes[k].value >= hi))
                then UncertaintyAt(table, lo, hi, slopes[k]) else NaN
    {
      if slopes[i].Val? && slopes[i].value >= hi { u[i] := Val(table[|table| - 1]); }
    }
    for i := 0 to |slopes|
      invariant forall k :: 0 <= k < |slopes| ==>
        u[k] == if slopes[k].Val? && (lo <= slopes[k].value || k < i)
                then UncertaintyAt(table, lo, hi, slopes[k]) else NaN
    {
      if slopes[i].Val? && slopes[i].value <= lo { u[i] := Val(table[0]); }
    }
  }

  // ---- Straight lines between the table's values ----

  /** At fraction t of band k, whatever band an edge is counted to. */
  lemma InterpIsLinear(table: seq<real>, k: nat, t: real)
    requires |table| > 0 && k < |table| && 0.0 <= t <= 1.0
    ensures 0.0 <= k as real + t <= |table| as real
    ensures Interp(table, k as real + t) == Between(Edge(table, k), Edge(table, k + 1), t)
  {
    var n, p := |table|, k as real + t;
    var b := Band(p, n);
    TimesFacts(0.0, 0.0, Edge(table, k + 1) - Edge(table, k));
    if b < k {
      assert b == k - 1 && t == 0.0;
      TimesFacts(0.0, 0.0, Edge(table, k) - Edge(table, k - 1));
    }
  }

  lemma PositionOf(lo: real, hi: real, n: nat, x: real, slope: real)
    requires n > 0 && lo < hi && slope == lo + x * ((hi - lo) / n as real)
    ensures Position(lo, hi, n, slope) == x
  {
    var w, m := hi - lo, n as real;
    var band := w / m;
    assert band * m == w;
    assert (slope - lo) * m == (x * band) * m == x * (band * m) == x * w;
    assert x * w / w == x;
  }

  /**
   In each band of width (hi - lo) / n the uncertainty runs in a straight line from the band's value to
   the next one's; in the last band, which has no next one, it stays.
   */
  lemma UncertaintyIsLinear(table: seq<real>, lo: real, hi: real, k: nat, t: real, slope: real)
    requires |table| > 0 && lo < hi && k < |table| && 0.0 <= t <= 1.0
    requires slope == lo + (k as real + t) * ((hi - lo) / |table| as real)
    ensures var next := if k + 1 < |table| then table[k + 1] else table[k];
            UncertaintyAt(table, lo, hi, Val(slope)) == Val(table[k] + Times(next - table[k], t))
  {
    var n, p := |table|, k as real + t;
    PositionOf(lo, hi, n, p, slope);
    InterpIsLinear(table, k, t);
    EndsAgree(table);
    if slope <= lo {
      PositionOrder(lo, hi, n, slope, lo);
    } else if slope >= hi {
      PositionOrder(lo, hi, n, hi, slope);
    }
  }

  // ---- Bounds and order ----

  /** A point of a line between two values stays between them. */
  lemma BetweenBounds(a: real, b: real, t: real, lo: real, hi: real)
    requires lo <= a <= hi && lo <= b <= hi && 0.0 <= t <= 1.0
    ensures lo <= Between(a, b, t) <= hi
  {
    if a <= b { BetweenOrder(a, b, t, t); } else { BetweenFalls(a, b, t); }
  }

  lemma BetweenFalls(a: real, b: real, t: real)
    requires b <= a && 0.0 <= t <= 1.0
    ensures b <= Between(a, b, t) <= a
  {
    TimesOrder(a - b, 0.0, t);
    TimesOrder(a - b, t, 1.0);
    TimesFacts(t, 0.0, a - b);
    assert b - a == -(a - b);
  }

  lemma BetweenOrder(a: real, b: real, t: real, u: real)
    requires a <= b && 0.0 <= t <= u <= 1.0
    ensures a <= Between(a, b, t) <= Between(a, b, u) <= b
  {
    TimesOrder(b - a, 0.0, t);
    TimesOrder(b - a, t, u);
    TimesOrder(b - a, u, 1.0);
    TimesFacts(t, 0.0, b - a);
  }

  /** Only a NaN slope gives NaN, and every other result lies within the table's range. */
  lemma ResultInTableRange(table: seq<real>, lo: real, hi: real, slope: Num, least: real, most: real)
    requires |table| > 0 && lo < hi
    requires forall i :: 0 <= i < |table| ==> least <= table[i] <= most
    ensures UncertaintyAt(table, lo, hi, slope).NaN? <==> slope.NaN?
    ensures slope.Val? ==> least <= UncertaintyAt(table, lo, hi, slope).value <= most
  {
    if slope.Val? && lo < slope.value < hi {
      PositionOrder(lo, hi, |table|, lo, slope.value);
      PositionOrder(lo, hi, |table|, slope.value, hi);
      var p := Position(lo, hi, |table|, slope.value);
      var k := Band(p, |table|);
      BetweenBounds(Edge(table, k), Edge(table, k + 1), p - k as real, least, most);
    }
  }

  predicate NonDecreasing(table: seq<real>) {
    forall i, j :: 0 <= i <= j < |table| ==> table[i] <= table[j]
  }

  lemma EdgeOrder(table: seq<real>, i: nat, j: nat)
    requires |table| > 0 && NonDecreasing(table) && i <= j <= |table|
    ensures Edge(table, i) <= Edge(table, j)
  {}

  lemma InterpOrder(table: seq<real>, p: real, q: real)
    requires |table| > 0 && NonDecreasing(table) && 0.0 <= p <= q <= |table| as real
    ensures Interp(table, p) <= Interp(table, q)
  {
    var n := |table|;
    var k, m := Band(p, n), Band(q, n);
    EdgeOrder(table, k, k + 1);
    EdgeOrder(table, m, m + 1);
    if k == m {
      BetweenOrder(Edge(table, k), Edge(table, k + 1), p - k as real, q - k as real);
    } else {
      EdgeOrder(table, k + 1, m);
      BetweenOrder(Edge(table, k), Edge(table, k + 1), p - k as real, 1.0);
      BetweenOrder(Edge(table, m), Edge(table, m + 1), 0.0, q - m as real);
    }
  }

  /** A non-decreasing table gives an uncertainty that never falls as the slope grows. */
  lemma UncertaintyMonotone(table: seq<real>, lo: real, hi: real, s: real, t: real)
    requires |table| > 0 && lo < hi && NonDecreasing(table) && s <= t
    ensures UncertaintyAt(table, lo, hi, Val(s)).value <= UncertaintyAt(table, lo, hi, Val(t)).value
  {
    var n := |table|;
    PositionOrder(lo, hi, n, lo, Clamp(s, lo, hi));
    PositionOrder(lo, hi, n, Clamp(s, lo, hi), Clamp(t, lo, hi));
    PositionOrder(lo, hi, n, Clamp(t, lo, hi), hi);
    EndsAgree(table);
    InterpOrder(table, Position(lo, hi, n, Clamp(s, lo, hi)), Position(lo, hi, n, Clamp(t, lo, hi)));
  }

  function Clamp(v: real, lo: real, hi: real): (c: real)
    requires lo < hi
    ensures lo <= c <= hi
  {
    if v < lo then lo else if v > hi then hi else v
  }
}
