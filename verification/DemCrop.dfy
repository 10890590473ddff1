/**
 Dem.get_segment: the rectangle of DEM postings cut out around a point by nearest-index search, and
 which postings under a beam that cut keeps.
 */
module DemCrop {
  import opened Numbers
  import opened Axes

  /** A loaded DEM: column axis rising by sx, row axis falling by sy from the top edge, elevations. */
  datatype Dem = Dem(xdem: seq<real>, ydem: seq<real>, binsize: real, sx: real, sy: real, z: seq<seq<Num>>) {
    ghost predicate Valid() {
      && |xdem| >= 2 && |ydem| >= 2
      && 0.0 < sx <= 2.0 * binsize && Stepped(xdem, sx)
      && 0.0 < sy <= 2.0 * binsize && Stepped(ydem, -sy)
      && |z| == |ydem| && forall r :: 0 <= r < |z| ==> |z[r]| == |xdem|
    }
  }

  /** What the loaders build from a raster of square pixels meets Valid. */
  lemma LoadedDemIsValid(left: real, bottom: real, binsize: real, cols: nat, rows: nat, z: seq<seq<Num>>)
    requires binsize > 0.0 && cols >= 2 && rows >= 2
    requires |z| == rows && forall r :: 0 <= r < rows ==> |z[r]| == cols
    ensures Dem(Linspace(left, left + cols as real * binsize, cols),
                Flip(Linspace(bottom, bottom + rows as real * binsize, rows)),
                binsize, (cols as real * binsize) / (cols - 1) as real,
                (rows as real * binsize) / (rows - 1) as real, z).Valid()
  {
    LinspaceSteps(left, binsize, cols);
    LinspaceSteps(bottom, binsize, rows);
    FlippedSteps(Linspace(bottom, bottom + rows as real * binsize, rows),
                 (rows as real * binsize) / (rows - 1) as real);
  }

  /** numpy's argmin: the first index of the smallest element. */
  function ArgMin(s: seq<real>): (k: nat)
    requires |s| > 0
    ensures k < |s|
    ensures forall i :: 0 <= i < |s| ==> s[k] <= s[i]
    ensures forall i :: 0 <= i < k ==> s[k] < s[i]
  {
    if |s| == 1 then 0
    else
      var k := ArgMin(s[..|s| - 1]);
      if s[|s| - 1] < s[k] then |s| - 1 else k
  }

  /** Index of the axis value nearest to a coordinate. */
  function NearestIndex(axis: seq<real>, v: real): (k: nat)
    requires |axis| > 0
    ensures k < |axis|
    ensures forall i :: 0 <= i < |axis| ==> Abs(v - axis[k]) <= Abs(v - axis[i])
  {
    var d := seq(|axis|, i requires 0 <= i < |axis| => Abs(v - axis[i]));
    assert forall i :: 0 <= i < |axis| ==> d[i] == Abs(v - axis[i]);
    ArgMin(d)
  }

  /** get_segment's crop: first and last column and row, last excluded. */
  datatype Crop = Crop(c0: nat, c1: nat, r0: nat, r1: nat)

  /** The crop within reach of (x, y): half the beam width plus one bin. */
  function CropFor(d: Dem, x: real, y: real, reach: real): (k: Crop)
    requires |d.xdem| > 0 && |d.ydem| > 0
    ensures k.c0 < |d.xdem| && k.c1 < |d.xdem| && k.r0 < |d.ydem| && k.r1 < |d.ydem|
  {
    Crop(NearestIndex(d.xdem, x - reach), NearestIndex(d.xdem, x + reach),
         NearestIndex(d.ydem, y + reach), NearestIndex(d.ydem, y - reach))
  }

  predicate InCrop(k: Crop, r: int, c: int) {
    k.r0 <= r < k.r1 && k.c0 <= c < k.c1
  }

  /** No value beyond xk is as near as xk to a bound that lies before xk. */
  lemma NearerBelow(bound: real, xk: real, other: real)
    requires bound < xk < other
    ensures Abs(bound - xk) < Abs(bound - other)
  {}

  /** Half a step is at most a bin, so the value one step past xk is nearer to a bound over a bin away. */
  lemma NearerAbove(bound: real, xk: real, other: real, step: real, bin: real)
    requires 0.0 < step <= 2.0 * bin && other <= xk && xk + bin < bound
    ensures Abs(bound - (xk + step)) < Abs(bound - other)
  {}

  /**
   On a rising axis, an index under the beam is kept by the nearest-index crop exactly when it is not
   the last one: the bounds are one bin wider than the beam.
   */
  lemma IndexKeptIff(axis: seq<real>, step: real, bin: real, at: real, reach: real, k: nat, k0: nat, k1: nat)
    requires 0.0 < step <= 2.0 * bin && Stepped(axis, step) && k < |axis| && Abs(axis[k] - at) < reach - bin
    requires k0 == NearestIndex(axis, at - reach) && k1 == NearestIndex(axis, at + reach)
    ensures k0 <= k < k1 <==> k < |axis| - 1
  {
    var low, high := at - reach, at + reach;
    forall i | k < i < |axis|
      ensures Abs(low - axis[k]) < Abs(low - axis[i])
    {
      SteppedOrder(axis, step, k, i);
      NearerBelow(low, axis[k], axis[i]);
    }
    if k < |axis| - 1 {
      assert axis[k + 1] == axis[k] + step;
      forall i | 0 <= i <= k
        ensures Abs(high - axis[k + 1]) < Abs(high - axis[i])
      {
        SteppedOrder(axis, step, i, k);
        NearerAbove(high, axis[k], axis[i], step, bin);
      }
    }
  }

  /** The same on a falling axis, where the index dropped is the lowest coordinate. */
  lemma FallingIndexKeptIff(axis: seq<real>, step: real, bin: real, at: real, reach: real, k: nat, k0: nat, k1: nat)
    requires 0.0 < step <= 2.0 * bin && Stepped(axis, -step) && k < |axis| && Abs(axis[k] - at) < reach - bin
    requires k0 == NearestIndex(axis, at + reach) && k1 == NearestIndex(axis, at - reach)
    ensures k0 <= k < k1 <==> k < |axis| - 1
  {
    var low, high := at - reach, at + reach;
    forall i | k < i < |axis|
      ensures Abs(high - axis[k]) < Abs(high - axis[i])
    {
      FallingOrder(axis, step, k, i);
      NearerBelow(-high, -axis[k], -axis[i]);
    }
    if k < |axis| - 1 {
      assert axis[k + 1] == axis[k] - step;
      forall i | 0 <= i <= k
        ensures Abs(low - axis[k + 1]) < Abs(low - axis[i])
      {
        FallingOrder(axis, step, i, k);
        NearerAbove(-low, -axis[k], -axis[i], step, bin);
      }
    }
  }

  lemma {:induction false} FallingOrder(axis: seq<real>, step: real, i: nat, j: nat)
    requires Stepped(axis, -step) && step > 0.0 && i <= j < |axis|
    ensures axis[i] >= axis[j] && (i < j ==> axis[i] > axis[j])
    decreases j
  {
    if i < j { FallingOrder(axis, step, i, j - 1); }
  }

  function Sq(a: real): real {
    Times(a, a)
  }

  lemma SqNotNegative(a: real)
    ensures Sq(a) >= 0.0
  {}

  lemma SqMonotone(a: real, b: real)
    requires 0.0 <= a <= b
    ensures Sq(a) <= Sq(b)
  {
    TimesOrder(a, a, b);
    TimesOrder(b, a, b);
    TimesFacts(a, 0.0, b);
  }

  lemma SqOrder(a: real, b: real)
    requires b >= 0.0 && Sq(a) < Sq(b)
    ensures Abs(a) < b
  {
    if b <= Abs(a) { SqMonotone(b, Abs(a)); }
  }

  /** Horizontally nearer to nadir than half the beam width. */
  predicate UnderBeam(d: Dem, x: real, y: real, half: real, r: nat, c: nat)
    requires r < |d.ydem| && c < |d.xdem|
  {
    Sq(d.xdem[c] - x) + Sq(d.ydem[r] - y) < Sq(half)
  }

  lemma BoxKeptIff(d: Dem, x: real, y: real, half: real, reach: real, r: nat, c: nat)
    requires d.Valid() && r < |d.ydem| && c < |d.xdem| && reach == half + d.binsize
    requires Abs(d.xdem[c] - x) < half && Abs(d.ydem[r] - y) < half
    ensures InCrop(CropFor(d, x, y, reach), r, c) <==> r < |d.ydem| - 1 && c < |d.xdem| - 1
  {
    var k := CropFor(d, x, y, reach);
    IndexKeptIff(d.xdem, d.sx, d.binsize, x, reach, c, k.c0, k.c1);
    FallingIndexKeptIff(d.ydem, d.sy, d.binsize, y, reach, r, k.r0, k.r1);
  }

  lemma BeamFitsBox(d: Dem, x: real, y: real, half: real, r: nat, c: nat)
    requires half >= 0.0 && r < |d.ydem| && c < |d.xdem| && UnderBeam(d, x, y, half, r, c)
    ensures Abs(d.xdem[c] - x) < half && Abs(d.ydem[r] - y) < half
  {
    SqNotNegative(d.xdem[c] - x);
    SqNotNegative(d.ydem[r] - y);
    SqOrder(d.xdem[c] - x, half);
    SqOrder(d.ydem[r] - y, half);
  }

  /**
   Crop soundness: a posting under the beam is lost exactly when it lies in the DEM's last column
   or last row.
   */
  lemma PostingKeptIff(d: Dem, x: real, y: real, half: real, reach: real, r: nat, c: nat)
    requires d.Valid() && half >= 0.0 && reach == half + d.binsize
    requires r < |d.ydem| && c < |d.xdem| && UnderBeam(d, x, y, half, r, c)
    ensures InCrop(CropFor(d, x, y, reach), r, c) <==> r < |d.ydem| - 1 && c < |d.xdem| - 1
  {
    BeamFitsBox(d, x, y, half, r, c);
    BoxKeptIff(d, x, y, half, reach, r, c);
  }

  /** A posting right under the satellite, lost because it is in the last of two columns. */
  lemma LastColumnIsLost(z: seq<seq<Num>>)
    requires |z| == 2 && |z[0]| == |z[1]| == 2
    ensures var d := Dem([0.0, 2.0], [2.0, 0.0], 1.0, 2.0, 2.0, z);
            && d.Valid() && UnderBeam(d, 2.0, 2.0, 1.0, 0, 1)
            && !InCrop(CropFor(d, 2.0, 2.0, 2.0), 0, 1)
  {
    var d := Dem([0.0, 2.0], [2.0, 0.0], 1.0, 2.0, 2.0, z);
    assert d.xdem[1] == d.xdem[0] + d.sx && d.ydem[1] == d.ydem[0] - d.sy;
    assert Sq(0.0) == 0.0 && Sq(1.0) == 1.0;
    PostingKeptIff(d, 2.0, 2.0, 1.0, 2.0, 0, 1);
  }

  /** In particular nothing is lost when the crop bounds lie inside the DEM. */
  lemma NothingLostInside(d: Dem, x: real, y: real, half: real, reach: real, r: nat, c: nat)
    requires d.Valid() && half >= 0.0 && reach == half + d.binsize
    requires r < |d.ydem| && c < |d.xdem| && UnderBeam(d, x, y, half, r, c)
    requires x + reach <= d.xdem[|d.xdem| - 1] && d.ydem[|d.ydem| - 1] <= y - reach
    ensures InCrop(CropFor(d, x, y, reach), r, c)
  {
    BeamFitsBox(d, x, y, half, r, c);
    NotLast(d, x, y, half, reach, r, c);
    PostingKeptIff(d, x, y, half, reach, r, c);
  }

  lemma NotLast(d: Dem, x: real, y: real, half: real, reach: real, r: nat, c: nat)
    requires r < |d.ydem| && c < |d.xdem| && d.binsize > 0.0 && reach == half + d.binsize
    requires Abs(d.xdem[c] - x) < half && Abs(d.ydem[r] - y) < half
    requires x + reach <= d.xdem[|d.xdem| - 1] && d.ydem[|d.ydem| - 1] <= y - reach
    ensures r < |d.ydem| - 1 && c < |d.xdem| - 1
  {}
}
