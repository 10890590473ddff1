/**
 The two forms of Dem.interp_dem: interpolation over the whole flipped grid, and interpolation
 over the sub-grid that bounds the query points. The interpolation kernel is an arbitrary
 function of the chosen cell (its corner values and corner coordinates) and of the query, so
 both the "linear" and the "nearest" method are instances.
 */
module GridLookup {
  import opened Numbers

  type Grid = seq<seq<Num>>

  /** Corner values (lower/upper row, left/right column) and the coordinates of the four sides. */
  datatype Cell = Cell(ll: Num, lr: Num, ul: Num, ur: Num, y0: real, y1: real, x0: real, x1: real)

  /** The value at (y, x) inside a cell. */
  type Kernel = (Cell, real, real) -> Num

  /** Which cell a query lying exactly on an interior node belongs to. */
  datatype NodeRule = NodeStartsCell | NodeEndsCell

  predicate Rectangular(z: Grid, rows: nat, cols: nat) {
    |z| == rows && forall r :: 0 <= r < rows ==> |z[r]| == cols
  }

  /** numpy's searchsorted: the insertion point of x, before (strict) or after equal nodes. */
  function SearchSorted(g: seq<real>, x: real, afterEqual: bool): (k: nat)
    requires Ascending(g)
    ensures k <= |g|
    ensures forall i :: 0 <= i < k ==> g[i] < x || (afterEqual && g[i] == x)
    ensures forall i :: k <= i < |g| ==> x < g[i] || (!afterEqual && g[i] == x)
  {
    if |g| == 0 then 0
    else if g[|g| - 1] < x || (afterEqual && g[|g| - 1] == x) then |g|
    else SearchSorted(g[..|g| - 1], x, afterEqual)
  }

  predicate InBounds(g: seq<real>, x: real) {
    |g| > 0 && g[0] <= x <= g[|g| - 1]
  }

  /** The cell of one axis that a query falls in, by its two nodes. */
  datatype Slot = Slot(lower: nat, upper: nat) {
    function Shift(n: nat): Slot {
      Slot(lower + n, upper + n)
    }
  }

  function Clip(i: int, lo: int, hi: int): int {
    if i < lo then lo else if i > hi then hi else i
  }

  /** Node that opens the chosen cell. */
  function LowerNode(rule: NodeRule, g: seq<real>, x: real): (i: nat)
    requires Ascending(g) && InBounds(g, x) && |g| > 1
    ensures i + 1 < |g| && g[i] <= x <= g[i + 1]
  {
    Clip(SearchSorted(g, x, rule.NodeStartsCell?) - 1, 0, |g| - 2)
  }

  function FindSlot(rule: NodeRule, g: seq<real>, x: real): (s: Slot)
    requires Ascending(g) && InBounds(g, x)
    ensures s.lower <= s.upper < |g|
    ensures g[s.lower] <= x <= g[s.upper]
    ensures |g| > 1 ==> s.upper == s.lower + 1
  {
    if |g| == 1 then Slot(0, 0) else Slot(LowerNode(rule, g, x), LowerNode(rule, g, x) + 1)
  }

  /** The cell of a grid spanned by one slot of each axis. */
  function CellAt(ys: seq<real>, xs: seq<real>, z: Grid, sy: Slot, sx: Slot): Cell
    requires Rectangular(z, |ys|, |xs|)
    requires sy.lower < |ys| && sy.upper < |ys| && sx.lower < |xs| && sx.upper < |xs|
  {
    Cell(z[sy.lower][sx.lower], z[sy.lower][sx.upper], z[sy.upper][sx.lower], z[sy.upper][sx.upper],
         ys[sy.lower], ys[sy.upper], xs[sx.lower], xs[sx.upper])
  }

  /** One query against a grid whose rows follow ys and whose columns follow xs. */
  function Interpolate(rule: NodeRule, kernel: Kernel, ys: seq<real>, xs: seq<real>, z: Grid,
                       y: Num, x: Num): Num
    requires Ascending(ys) && Ascending(xs) && Rectangular(z, |ys|, |xs|)
  {
    if y.NaN? || x.NaN? then NaN
    else if !InBounds(ys, y.value) || !InBounds(xs, x.value) then NaN
    else
      kernel(CellAt(ys, xs, z, FindSlot(rule, ys, y.value), FindSlot(rule, xs, x.value)), y.value, x.value)
  }

  /** The in-memory branch: flip the grid the right way up, then interpolate every query. */
  function InterpWhole(rule: NodeRule, kernel: Kernel, ydem: seq<real>, xdem: seq<real>, zdem: Grid,
                       y: seq<Num>, x: seq<Num>): (r: seq<Num>)
    requires Ascending(Flip(ydem)) && Ascending(xdem) && Rectangular(zdem, |ydem|, |xdem|)
    requires |y| == |x|
  {
    seq(|x|, i requires 0 <= i < |x| =>
      Interpolate(rule, kernel, Flip(ydem), xdem, Flip(zdem), y[i], x[i]))
  }

  // ---- The window around the queries ----

  /** First and last node of the sub-grid: searchsorted on the extremes, widened by one node. */
  function WindowStart(g: seq<real>, low: real): (lo: nat)
    requires Ascending(g) && |g| > 0
    ensures lo < |g|
  {
    Clip(SearchSorted(g, low, false) - 1, 0, |g| - 1)
  }

  function WindowEnd(g: seq<real>, high: real): (hi: nat)
    requires Ascending(g) && |g| > 0
    ensures hi < |g|
  {
    Clip(SearchSorted(g, high, false) + 1, 0, |g| - 1)
  }

  lemma WindowNotEmpty(g: seq<real>, low: real, high: real)
    requires Ascending(g) && |g| > 0 && low <= high
    ensures WindowStart(g, low) <= WindowEnd(g, high)
  {
    var a, b := SearchSorted(g, low, false), SearchSorted(g, high, false);
    assert a == 0 || g[a - 1] < high;
  }

  /** The window neither loses nor gains an in-range query. */
  lemma WindowKeepsBounds(g: seq<real>, low: real, high: real, x: real)
    requires Ascending(g) && |g| > 0 && low <= x <= high
    ensures WindowStart(g, low) <= WindowEnd(g, high)
    ensures InBounds(g[WindowStart(g, low)..WindowEnd(g, high) + 1], x) <==> InBounds(g, x)
  {
    WindowNotEmpty(g, low, high);
    var lo, hi := WindowStart(g, low), WindowEnd(g, high);
    var sub := g[lo..hi + 1];
    assert sub[0] == g[lo] && sub[|sub| - 1] == g[hi];
    assert lo > 0 ==> g[0] < g[lo];
    assert hi < |g| - 1 ==> g[hi] < g[|g| - 1];
  }

  /** Insertion points inside a window are the whole axis's, shifted by the window start. */
  lemma SearchInWindow(g: seq<real>, lo: nat, hi: nat, x: real, afterEqual: bool)
    requires Ascending(g) && lo <= hi < |g|
    requires Ascending(g[lo..hi + 1])
    ensures SearchSorted(g[lo..hi + 1], x, afterEqual)
         == Clip(SearchSorted(g, x, afterEqual) - lo, 0, hi + 1 - lo)
  {
    var sub := g[lo..hi + 1];
    var k, m := SearchSorted(g, x, afterEqual), SearchSorted(sub, x, afterEqual);
    assert forall i :: 0 <= i < |sub| ==> sub[i] == g[lo + i];
    if m < |sub| { assert sub[m] == g[lo + m]; }
    if m > 0 { assert sub[m - 1] == g[lo + m - 1]; }
    if lo < k <= hi { assert sub[k - lo] == g[k]; }
    if lo < k <= hi + 1 { assert sub[k - 1 - lo] == g[k - 1]; }
  }

  /** A window on an axis, given by its first and last node, that bounds the query x. */
  predicate IsWindow(g: seq<real>, low: real, high: real, x: real, lo: nat, hi: nat) {
    && Ascending(g) && |g| > 0 && low <= x <= high
    && lo == WindowStart(g, low) && hi == WindowEnd(g, high) && lo <= hi
    && Ascending(g[lo..hi + 1])
  }

  /** The window's outer nodes are strictly outside the queries, except at the ends of the axis. */
  lemma OuterNodes(g: seq<real>, low: real, high: real, x: real, lo: nat, hi: nat, afterEqual: bool)
    requires IsWindow(g, low, high, x, lo, hi) && InBounds(g, x) && |g| > 1
    ensures lo < hi
    ensures var k := SearchSorted(g, x, afterEqual); (lo > 0 ==> k > lo) && (hi < |g| - 1 ==> k <= hi)
  {
    assert lo > 0 ==> g[lo] < low;
    assert hi < |g| - 1 ==> high <= g[hi - 1] < g[hi];
  }

  /** Clipping an insertion point to the window and then to its cells is clipping it to the axis's cells. */
  lemma ClipInWindow(k: nat, lo: nat, hi: nat, n: nat)
    requires lo < hi < n && (lo > 0 ==> k > lo) && (hi < n - 1 ==> k <= hi) && k <= n
    ensures Clip(k - 1, 0, n - 2) == Clip(Clip(k - lo, 0, hi + 1 - lo) - 1, 0, hi - lo - 1) + lo
  {}

  lemma LowerNodeShifts(rule: NodeRule, g: seq<real>, sub: seq<real>, x: real, k: nat, lo: nat, hi: nat)
    requires Ascending(g) && Ascending(sub) && InBounds(g, x) && InBounds(sub, x) && |sub| == hi + 1 - lo
    requires k == SearchSorted(g, x, rule.NodeStartsCell?)
    requires SearchSorted(sub, x, rule.NodeStartsCell?) == Clip(k - lo, 0, hi + 1 - lo)
    requires lo < hi < |g| && (lo > 0 ==> k > lo) && (hi < |g| - 1 ==> k <= hi) && k <= |g|
    ensures LowerNode(rule, g, x) == LowerNode(rule, sub, x) + lo
  {
    ClipInWindow(k, lo, hi, |g|);
  }

  lemma WindowKeepsLowerNode(rule: NodeRule, g: seq<real>, low: real, high: real, x: real, lo: nat, hi: nat,
                             sub: seq<real>)
    requires IsWindow(g, low, high, x, lo, hi) && InBounds(g, x) && |g| > 1 && sub == g[lo..hi + 1]
    ensures |sub| > 1 && InBounds(sub, x)
    ensures LowerNode(rule, g, x) == LowerNode(rule, sub, x) + lo
  {
    var afterEqual := rule.NodeStartsCell?;
    WindowKeepsBounds(g, low, high, x);
    SearchInWindow(g, lo, hi, x, afterEqual);
    OuterNodes(g, low, high, x, lo, hi, afterEqual);
    LowerNodeShifts(rule, g, sub, x, SearchSorted(g, x, afterEqual), lo, hi);
  }

  /** The key step: the cell chosen inside the window is the cell chosen on the whole axis. */
  lemma WindowKeepsSlot(rule: NodeRule, g: seq<real>, low: real, high: real, x: real, lo: nat, hi: nat,
                        sub: seq<real>)
    requires IsWindow(g, low, high, x, lo, hi) && InBounds(g, x) && sub == g[lo..hi + 1]
    ensures InBounds(sub, x)
    ensures FindSlot(rule, g, x) == FindSlot(rule, sub, x).Shift(lo)
  {
    WindowKeepsBounds(g, low, high, x);
    if |g| > 1 {
      WindowKeepsLowerNode(rule, g, low, high, x, lo, hi, sub);
    }
  }

  /** Sub-grid of z: rows r0..r1 and columns c0..c1, both ends included. */
  function SubGrid(z: Grid, r0: nat, r1: nat, c0: nat, c1: nat): (sub: Grid)
    requires r0 <= r1 < |z|
    requires forall r :: r0 <= r <= r1 ==> c1 < |z[r]|
    requires c0 <= c1
    ensures Rectangular(sub, r1 + 1 - r0, c1 + 1 - c0)
    ensures forall r, c :: 0 <= r < |sub| && 0 <= c < |sub[r]| ==> sub[r][c] == z[r0 + r][c0 + c]
  {
    seq(r1 + 1 - r0, r requires 0 <= r < r1 + 1 - r0 => z[r0 + r][c0..c1 + 1])
  }

  lemma SubGridCell(ys: seq<real>, xs: seq<real>, z: Grid, r0: nat, r1: nat, c0: nat, c1: nat,
                    ys': seq<real>, xs': seq<real>, sy: Slot, sx: Slot)
    requires Rectangular(z, |ys|, |xs|) && r0 <= r1 < |ys| && c0 <= c1 < |xs|
    requires ys' == ys[r0..r1 + 1] && xs' == xs[c0..c1 + 1]
    requires sy.lower < |ys'| && sy.upper < |ys'| && sx.lower < |xs'| && sx.upper < |xs'|
    ensures CellAt(ys', xs', SubGrid(z, r0, r1, c0, c1), sy, sx)
         == CellAt(ys, xs, z, sy.Shift(r0), sx.Shift(c0))
  {}

  lemma SameCellSameValue(rule: NodeRule, kernel: Kernel, ys: seq<real>, xs: seq<real>, z: Grid,
                          ys': seq<real>, xs': seq<real>, z': Grid, y: real, x: real)
    requires Ascending(ys) && Ascending(xs) && Rectangular(z, |ys|, |xs|)
    requires Ascending(ys') && Ascending(xs') && Rectangular(z', |ys'|, |xs'|)
    requires InBounds(ys, y) <==> InBounds(ys', y)
    requires InBounds(xs, x) <==> InBounds(xs', x)
    requires InBounds(ys, y) && InBounds(xs, x) ==>
      CellAt(ys, xs, z, FindSlot(rule, ys, y), FindSlot(rule, xs, x))
      == CellAt(ys', xs', z', FindSlot(rule, ys', y), FindSlot(rule, xs', x))
    ensures Interpolate(rule, kernel, ys, xs, z, Val(y), Val(x))
         == Interpolate(rule, kernel, ys', xs', z', Val(y), Val(x))
  {}

  lemma WindowCell(rule: NodeRule, ys: seq<real>, xs: seq<real>, z: Grid,
                   yLow: real, yHigh: real, xLow: real, xHigh: real, y: real, x: real,
                   r0: nat, r1: nat, c0: nat, c1: nat, ys': seq<real>, xs': seq<real>)
    requires IsWindow(ys, yLow, yHigh, y, r0, r1) && IsWindow(xs, xLow, xHigh, x, c0, c1)
    requires ys' == ys[r0..r1 + 1] && xs' == xs[c0..c1 + 1]
    requires Rectangular(z, |ys|, |xs|) && InBounds(ys, y) && InBounds(xs, x)
    ensures InBounds(ys', y) && InBounds(xs', x)
    ensures CellAt(ys, xs, z, FindSlot(rule, ys, y), FindSlot(rule, xs, x))
         == CellAt(ys', xs', SubGrid(z, r0, r1, c0, c1), FindSlot(rule, ys', y), FindSlot(rule, xs', x))
  {
    WindowKeepsSlot(rule, ys, yLow, yHigh, y, r0, r1, ys');
    WindowKeepsSlot(rule, xs, xLow, xHigh, x, c0, c1, xs');
    SubGridCell(ys, xs, z, r0, r1, c0, c1, ys', xs', FindSlot(rule, ys', y), FindSlot(rule, xs', x));
  }

  /** One query, looked up in the window that bounds all queries, gives the whole-grid answer. */
  lemma WindowLookupAgrees(rule: NodeRule, kernel: Kernel, ys: seq<real>, xs: seq<real>, z: Grid,
                           yLow: real, yHigh: real, xLow: real, xHigh: real, y: real, x: real,
                           r0: nat, r1: nat, c0: nat, c1: nat, ys': seq<real>, xs': seq<real>)
    requires IsWindow(ys, yLow, yHigh, y, r0, r1) && IsWindow(xs, xLow, xHigh, x, c0, c1)
    requires ys' == ys[r0..r1 + 1] && xs' == xs[c0..c1 + 1]
    requires Rectangular(z, |ys|, |xs|)
    ensures Interpolate(rule, kernel, ys', xs', SubGrid(z, r0, r1, c0, c1), Val(y), Val(x))
         == Interpolate(rule, kernel, ys, xs, z, Val(y), Val(x))
  {
    WindowKeepsBounds(ys, yLow, yHigh, y);
    WindowKeepsBounds(xs, xLow, xHigh, x);
    if InBounds(ys, y) && InBounds(xs, x) {
      WindowCell(rule, ys, xs, z, yLow, yHigh, xLow, xHigh, y, x, r0, r1, c0, c1, ys', xs');
    }
    SameCellSameValue(rule, kernel, ys, xs, z, ys', xs', SubGrid(z, r0, r1, c0, c1), y, x);
  }

  // ---- The zarr branch ----

  predicate Valid(y: seq<Num>, x: seq<Num>, i: int)
    requires 0 <= i < |x| == |y|
  {
    x[i].Val? && y[i].Val?
  }

  /** Smallest and largest coordinate of the valid queries. */
  method Extremes(v: seq<Num>, valid: seq<bool>) returns (low: real, high: real)
    requires |v| == |valid| && (exists i :: 0 <= i < |v| && valid[i])
    requires forall i :: 0 <= i < |v| && valid[i] ==> v[i].Val?
    ensures forall i :: 0 <= i < |v| && valid[i] ==> low <= v[i].value <= high
    ensures exists i :: 0 <= i < |v| && valid[i] && v[i].value == low
    ensures exists i :: 0 <= i < |v| && valid[i] && v[i].value == high
  {
    var first := 0;
    while !valid[first]
      invariant 0 <= first < |v|
      decreases |v| - first
      invariant forall i :: 0 <= i < first ==> !valid[i]
    {
      first := first + 1;
    }
    low, high := v[first].value, v[first].value;
    for k := 0 to |v|
      invariant forall i :: 0 <= i < k && valid[i] ==> low <= v[i].value <= high
      invariant exists i :: 0 <= i < |v| && valid[i] && v[i].value == low
      invariant exists i :: 0 <= i < |v| && valid[i] && v[i].value == high
    {
      if valid[k] {
        if v[k].value < low { low := v[k].value; }
        if v[k].value > high { high := v[k].value; }
      }
    }
  }

  /** results[valid_mask] = interpolated_values, by index. */
  method MaskedFill(results: array<Num>, valid: seq<bool>, values: seq<Num>)
    requires |valid| == |values| == results.Length
    modifies results
    ensures forall i :: 0 <= i < |valid| ==> results[i] == if valid[i] then values[i] else old(results[i])
  {
    for k := 0 to |valid|
      invariant forall i :: 0 <= i < |valid| ==> results[i] == if i < k && valid[i] then values[i] else old(results[i])
    {
      if valid[k] {
        results[k] := values[k];
      }
    }
  }

  lemma AllLookupsAgree(rule: NodeRule, kernel: Kernel, ys: seq<real>, xs: seq<real>, z: Grid,
                        yLow: real, yHigh: real, xLow: real, xHigh: real, y: seq<Num>, x: seq<Num>,
                        r0: nat, r1: nat, c0: nat, c1: nat, ys': seq<real>, xs': seq<real>)
    requires |y| == |x| && yLow <= yHigh && xLow <= xHigh
    requires IsWindow(ys, yLow, yHigh, yLow, r0, r1) && IsWindow(xs, xLow, xHigh, xLow, c0, c1)
    requires ys' == ys[r0..r1 + 1] && xs' == xs[c0..c1 + 1]
    requires Rectangular(z, |ys|, |xs|)
    requires forall i :: 0 <= i < |x| && Valid(y, x, i) ==> yLow <= y[i].value <= yHigh && xLow <= x[i].value <= xHigh
    ensures forall i :: 0 <= i < |x| ==>
      Interpolate(rule, kernel, ys', xs', SubGrid(z, r0, r1, c0, c1), y[i], x[i])
      == Interpolate(rule, kernel, ys, xs, z, y[i], x[i])
  {
    forall i | 0 <= i < |x|
      ensures Interpolate(rule, kernel, ys', xs', SubGrid(z, r0, r1, c0, c1), y[i], x[i])
           == Interpolate(rule, kernel, ys, xs, z, y[i], x[i])
    {
      if Valid(y, x, i) {
        WindowLookupAgrees(rule, kernel, ys, xs, z, yLow, yHigh, xLow, xHigh,
          y[i].value, x[i].value, r0, r1, c0, c1, ys', xs');
      }
    }
  }

  lemma BoundingWindow(g: seq<real>, low: real, high: real)
    requires Ascending(g) && |g| > 0 && low <= high
    ensures IsWindow(g, low, high, low, WindowStart(g, low), WindowEnd(g, high))
  {
    WindowNotEmpty(g, low, high);
  }

  /** Interpolate on the sub-grid and fill in the valid entries. */
  method FillFromWindow(rule: NodeRule, kernel: Kernel, y: seq<Num>, x: seq<Num>, valid: seq<bool>,
                        ys: seq<real>, xs: seq<real>, z: Grid, r0: nat, r1: nat, c0: nat, c1: nat, results: array<Num>,
                        ghost yLow: real, ghost yHigh: real, ghost xLow: real, ghost xHigh: real)
    requires |y| == |x| == |valid| == results.Length && Rectangular(z, |ys|, |xs|)
    requires forall i :: 0 <= i < |x| ==> results[i] == NaN && (valid[i] <==> Valid(y, x, i))
    requires yLow <= yHigh && xLow <= xHigh
    requires IsWindow(ys, yLow, yHigh, yLow, r0, r1) && IsWindow(xs, xLow, xHigh, xLow, c0, c1)
    requires forall i :: 0 <= i < |x| && Valid(y, x, i) ==> yLow <= y[i].value <= yHigh && xLow <= x[i].value <= xHigh
    modifies results
    ensures forall i :: 0 <= i < |x| ==> results[i] == Interpolate(rule, kernel, ys, xs, z, y[i], x[i])
  {
    var subY, subX := ys[r0..r1 + 1], xs[c0..c1 + 1];
    AllLookupsAgree(rule, kernel, ys, xs, z, yLow, yHigh, xLow, xHigh, y, x, r0, r1, c0, c1, subY, subX);
    var sub := SubGrid(z, r0, r1, c0, c1);
    var values := seq(|x|, i requires 0 <= i < |x| => Interpolate(rule, kernel, subY, subX, sub, y[i], x[i]));
    MaskedFill(results, valid, values);
  }

  /** The valid points' bounding box, and the fill from its sub-grid. */
  method InterpolateInWindow(rule: NodeRule, kernel: Kernel, y: seq<Num>, x: seq<Num>, valid: seq<bool>,
                             ys: seq<real>, xs: seq<real>, z: Grid, results: array<Num>)
    requires |y| == |x| == |valid| == results.Length && true in valid
    requires Ascending(ys) && Ascending(xs) && |ys| > 0 && |xs| > 0 && Rectangular(z, |ys|, |xs|)
    requires forall i :: 0 <= i < |x| ==> results[i] == NaN && (valid[i] <==> Valid(y, x, i))
    modifies results
    ensures forall i :: 0 <= i < |x| ==> results[i] == Interpolate(rule, kernel, ys, xs, z, y[i], x[i])
  {
    var xLow, xHigh := Extremes(x, valid);
    var yLow, yHigh := Extremes(y, valid);
    BoundingWindow(ys, yLow, yHigh);
    BoundingWindow(xs, xLow, xHigh);
    FillFromWindow(rule, kernel, y, x, valid, ys, xs, z, WindowStart(ys, yLow), WindowEnd(ys, yHigh),
      WindowStart(xs, xLow), WindowEnd(xs, xHigh), results, yLow, yHigh, xLow, xHigh);
  }

  /**
   Dem.chunked_interpolation. The result array starts as NaN and is filled, in place, from the
   sub-grid interpolator; whatever the queries, it ends equal to interpolating on the whole grid.
   */
  method ChunkedInterpolation(rule: NodeRule, kernel: Kernel, y: seq<Num>, x: seq<Num>,
                              myydem: seq<real>, xdem: seq<real>, zdemFlip: Grid)
    returns (results: array<Num>)
    requires |y| == |x|
    requires Ascending(myydem) && Ascending(xdem) && |myydem| > 0 && |xdem| > 0
    requires Rectangular(zdemFlip, |myydem|, |xdem|)
    ensures fresh(results) && results.Length == |x|
    ensures forall i :: 0 <= i < |x| ==>
      results[i] == Interpolate(rule, kernel, myydem, xdem, zdemFlip, y[i], x[i])
  {
    results := new Num[|x|](_ => NaN);
    var valid := seq(|x|, i requires 0 <= i < |x| => Valid(y, x, i));
    if true in valid {
      InterpolateInWindow(rule, kernel, y, x, valid, myydem, xdem, zdemFlip, results);
    } else {
      forall i | 0 <= i < |x|
        ensures results[i] == Interpolate(rule, kernel, myydem, xdem, zdemFlip, y[i], x[i])
      {
        assert !valid[i];
      }
    }
  }

  // ---- The answer on the raster as it is stored ----

  /** A value of a falling or rising axis: between its first and last node, in either order. */
  predicate Spans(first: real, v: Num, last: real) {
    v.Val? && first <= v.value <= last
  }

  /**
   Rows a (upper) and a' (lower) and columns b and b' of the raster, next to each other unless the
   raster has only one, enclose the query, and the value is the kernel's on their four cells.
   */
  ghost predicate FromCell(kernel: Kernel, ydem: seq<real>, xdem: seq<real>, zdem: Grid, y: real, x: real, v: Num,
                           a: nat, a': nat, b: nat, b': nat)
    requires Rectangular(zdem, |ydem|, |xdem|)
  {
    && a < |ydem| && a' < |ydem| && b < |xdem| && b' < |xdem|
    && a' == (if |ydem| > 1 then a + 1 else a) && b' == (if |xdem| > 1 then b + 1 else b)
    && ydem[a'] <= y <= ydem[a] && xdem[b] <= x <= xdem[b']
    && v == kernel(Cell(zdem[a'][b], zdem[a'][b'], zdem[a][b], zdem[a][b'], ydem[a'], ydem[a], xdem[b], xdem[b']), y, x)
  }

  /** What interp_dem promises for one query (y, x) of a raster whose rows run from the top down. */
  ghost predicate Answers(kernel: Kernel, ydem: seq<real>, xdem: seq<real>, zdem: Grid, y: Num, x: Num, v: Num)
    requires |ydem| > 0 && |xdem| > 0 && Rectangular(zdem, |ydem|, |xdem|)
  {
    if Spans(ydem[|ydem| - 1], y, ydem[0]) && Spans(xdem[0], x, xdem[|xdem| - 1])
    then exists a, a', b, b' :: FromCell(kernel, ydem, xdem, zdem, y.value, x.value, v, a, a', b, b')
    else v == NaN
  }

  /** The whole-grid answer on the flipped raster is an answer on the raster itself. */
  lemma FlippedAnswers(rule: NodeRule, kernel: Kernel, ydem: seq<real>, xdem: seq<real>, zdem: Grid, y: Num, x: Num)
    requires Ascending(Flip(ydem)) && Ascending(xdem) && |ydem| > 0 && |xdem| > 0
    requires Rectangular(zdem, |ydem|, |xdem|)
    ensures Answers(kernel, ydem, xdem, zdem, y, x, Interpolate(rule, kernel, Flip(ydem), xdem, Flip(zdem), y, x))
  {
    var ys, n := Flip(ydem), |ydem|;
    assert ys[0] == ydem[n - 1] && ys[n - 1] == ydem[0];
    if y.Val? && x.Val? && InBounds(ys, y.value) && InBounds(xdem, x.value) {
      var sy, sx := FindSlot(rule, ys, y.value), FindSlot(rule, xdem, x.value);
      var v := Interpolate(rule, kernel, ys, xdem, Flip(zdem), y, x);
      var a, a' := n - 1 - sy.upper, n - 1 - sy.lower;
      assert ys[sy.upper] == ydem[a] && ys[sy.lower] == ydem[a'];
      assert FromCell(kernel, ydem, xdem, zdem, y.value, x.value, v, a, a', sx.lower, sx.upper);
    }
  }

  /** With the nearest kernel, a query on node (a, b) of the raster is answered by the cell stored there. */
  lemma NearestOnRaster(kernel: Kernel, ydem: seq<real>, xdem: seq<real>, zdem: Grid, a: nat, b: nat, v: Num)
    requires Ascending(Flip(ydem)) && Ascending(xdem) && Rectangular(zdem, |ydem|, |xdem|)
    requires a < |ydem| && b < |xdem| && forall cell, y, x :: kernel(cell, y, x) == Nearest(cell, y, x)
    requires Answers(kernel, ydem, xdem, zdem, Val(ydem[a]), Val(xdem[b]), v)
    ensures v == zdem[a][b]
  {
    FallingNodes(ydem);
    assert a > 0 ==> ydem[a] < ydem[0];
    assert b > 0 ==> xdem[0] < xdem[b];
    var a0, a1, b0, b1 :| FromCell(kernel, ydem, xdem, zdem, ydem[a], xdem[b], v, a0, a1, b0, b1);
    assert a == a0 || a == a1;
    assert b == b0 || b == b1;
  }

  /** Rows run from the top down. */
  lemma FallingNodes(ydem: seq<real>)
    requires Ascending(Flip(ydem))
    ensures forall i, j :: 0 <= i < j < |ydem| ==> ydem[j] < ydem[i]
  {
    var ys, n := Flip(ydem), |ydem|;
    forall i, j | 0 <= i < j < n
      ensures ydem[j] < ydem[i]
    {
      assert ys[n - 1 - j] == ydem[j] && ys[n - 1 - i] == ydem[i];
    }
  }

  /**
   Dem.interp_dem on projected coordinates: the zarr branch reads the pre-flipped store through the
   window, the other branch flips the array in memory. Either way a query that is NaN or off the grid
   gives NaN, and any other the kernel's value on the cells of the raster around it.
   */
  method InterpDem(zarrType: bool, rule: NodeRule, kernel: Kernel, ydem: seq<real>, xdem: seq<real>,
                   zdem: Grid, zdemFlip: Grid, y: seq<Num>, x: seq<Num>)
    returns (r: seq<Num>)
    requires Ascending(Flip(ydem)) && Ascending(xdem) && |ydem| > 0 && |xdem| > 0
    requires Rectangular(zdem, |ydem|, |xdem|) && |y| == |x|
    requires zarrType ==> zdemFlip == Flip(zdem)
    ensures r == InterpWhole(rule, kernel, ydem, xdem, zdem, y, x)
    ensures |r| == |x| && forall i :: 0 <= i < |x| ==> Answers(kernel, ydem, xdem, zdem, y[i], x[i], r[i])
    ensures (forall cell, v, u :: kernel(cell, v, u) == Nearest(cell, v, u)) ==>
      forall i, a, b ::
        0 <= i < |x| && 0 <= a < |ydem| && 0 <= b < |xdem| && y[i] == Val(ydem[a]) && x[i] == Val(xdem[b]) ==>
          r[i] == zdem[a][b]
  {
    if zarrType {
      var results := ChunkedInterpolation(rule, kernel, y, x, Flip(ydem), xdem, zdemFlip);
      r := results[..];
    } else {
      r := seq(|x|, i requires 0 <= i < |x| =>
        Interpolate(rule, kernel, Flip(ydem), xdem, Flip(zdem), y[i], x[i]));
    }
    InterpAnswers(rule, kernel, ydem, xdem, zdem, y, x, r);
  }

  lemma InterpAnswers(rule: NodeRule, kernel: Kernel, ydem: seq<real>, xdem: seq<real>, zdem: Grid,
                      y: seq<Num>, x: seq<Num>, r: seq<Num>)
    requires Ascending(Flip(ydem)) && Ascending(xdem) && |ydem| > 0 && |xdem| > 0
    requires Rectangular(zdem, |ydem|, |xdem|) && |y| == |x| && r == InterpWhole(rule, kernel, ydem, xdem, zdem, y, x)
    ensures |r| == |x| && forall i :: 0 <= i < |x| ==> Answers(kernel, ydem, xdem, zdem, y[i], x[i], r[i])
    ensures (forall cell, v, u :: kernel(cell, v, u) == Nearest(cell, v, u)) ==>
      forall i, a, b ::
        0 <= i < |x| && 0 <= a < |ydem| && 0 <= b < |xdem| && y[i] == Val(ydem[a]) && x[i] == Val(xdem[b]) ==>
          r[i] == zdem[a][b]
  {
    forall i | 0 <= i < |x|
      ensures Answers(kernel, ydem, xdem, zdem, y[i], x[i], r[i])
    {
      FlippedAnswers(rule, kernel, ydem, xdem, zdem, y[i], x[i]);
    }
    if forall cell, v, u :: kernel(cell, v, u) == Nearest(cell, v, u) {
      forall i, a, b |
        0 <= i < |x| && 0 <= a < |ydem| && 0 <= b < |xdem| && y[i] == Val(ydem[a]) && x[i] == Val(xdem[b])
        ensures r[i] == zdem[a][b]
      {
        NearestOnRaster(kernel, ydem, xdem, zdem, a, b, r[i]);
      }
    }
  }

  // ---- What the interpolation model means on nodes ----

  /** The kernel of method="nearest": the nearer side of the cell, the lower one on a tie. */
  function Nearest(cell: Cell, y: real, x: real): Num {
    var left := x - cell.x0 <= cell.x1 - x;
    if y - cell.y0 <= cell.y1 - y then (if left then cell.ll else cell.lr)
    else (if left then cell.ul else cell.ur)
  }

  /** It is the value of a corner that no other corner is nearer than, along either axis. */
  lemma NearestIsNearest(cell: Cell, y: real, x: real) returns (up: bool, right: bool)
    requires cell.y0 <= y <= cell.y1 && cell.x0 <= x <= cell.x1
    ensures up && right ==> Nearest(cell, y, x) == cell.ur
    ensures up && !right ==> Nearest(cell, y, x) == cell.ul
    ensures !up && right ==> Nearest(cell, y, x) == cell.lr
    ensures !up && !right ==> Nearest(cell, y, x) == cell.ll
    ensures if up then Abs(y - cell.y1) < Abs(y - cell.y0) else Abs(y - cell.y0) <= Abs(y - cell.y1)
    ensures if right then Abs(x - cell.x1) < Abs(x - cell.x0) else Abs(x - cell.x0) <= Abs(x - cell.x1)
  {
    up, right := y - cell.y0 > cell.y1 - y, x - cell.x0 > cell.x1 - x;
  }

  lemma SlotOnNode(rule: NodeRule, g: seq<real>, k: nat)
    requires Ascending(g) && k < |g|
    ensures InBounds(g, g[k])
    ensures var s := FindSlot(rule, g, g[k]); s.lower == k || s.upper == k
  {
    assert k > 0 ==> g[0] < g[k];
    assert k < |g| - 1 ==> g[k] < g[|g| - 1];
  }

  /** Looking up a node with the nearest method returns the cell stored at that node. */
  lemma NearestReturnsNode(rule: NodeRule, ys: seq<real>, xs: seq<real>, z: Grid, r: nat, c: nat)
    requires Ascending(ys) && Ascending(xs) && Rectangular(z, |ys|, |xs|)
    requires r < |ys| && c < |xs|
    ensures Interpolate(rule, Nearest, ys, xs, z, Val(ys[r]), Val(xs[c])) == z[r][c]
  {
    SlotOnNode(rule, ys, r);
    SlotOnNode(rule, xs, c);
  }
}
