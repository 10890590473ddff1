/** Lookup of points in a gridded mask: Mask.points_inside and Mask.grid_mask_values. */
module MaskGrid {
  import opened Numbers

  /** A grid mask: cell (jj, ii) is centred at (minx + ii * binsize, miny + jj * binsize). */
  datatype Mask = Mask(minx: real, miny: real, binsize: real, numX: nat, numY: nat, grid: seq<seq<nat>>) {
    predicate Valid() {
      binsize > 0.0 && |grid| == numY && forall j :: 0 <= j < numY ==> |grid[j]| == numX
    }
  }

  /** int(np.around((v - min) / binsize)) */
  function CellIndex(min: real, binsize: real, v: real): int
    requires binsize > 0.0
  {
    RoundHalfEven((v - min) / binsize)
  }

  predicate InGrid(m: Mask, x: real, y: real)
    requires m.Valid()
  {
    0 <= CellIndex(m.minx, m.binsize, x) < m.numX && 0 <= CellIndex(m.miny, m.binsize, y) < m.numY
  }

  function CellValue(m: Mask, x: real, y: real): nat
    requires m.Valid() && InGrid(m, x, y)
  {
    m.grid[CellIndex(m.miny, m.binsize, y)][CellIndex(m.minx, m.binsize, x)]
  }

  /** The chosen cell's centre is within half a bin of the point, on either axis. */
  lemma CellIsNearest(min: real, binsize: real, v: real)
    requires binsize > 0.0
    ensures Abs(v - (min + Times(binsize, CellIndex(min, binsize, v) as real))) <= Times(binsize, 0.5)
  {
    var q := (v - min) / binsize;
    var n := CellIndex(min, binsize, v) as real;
    assert Times(binsize, q) == v - min;
    TimesOrder(binsize, q, n + 0.5);
    TimesOrder(binsize, n - 0.5, q);
    TimesFacts(n, 0.5, binsize);
    TimesFacts(n - 0.5, 0.5, binsize);
  }

  /** The point is strictly within half a bin of the centre of cell c. */
  predicate Near(v: real, min: real, binsize: real, c: int) {
    Abs(v - (min + Times(binsize, c as real))) < binsize / 2.0
  }

  /** The point is more than half a bin outside the outer cell centres of an axis of n cells. */
  predicate Beyond(v: real, min: real, binsize: real, n: nat) {
    v < min - binsize / 2.0 || v > min + Times(binsize, n as real - 1.0) + binsize / 2.0
  }

  lemma NearIsIndex(v: real, min: real, binsize: real, c: int)
    requires binsize > 0.0 && Near(v, min, binsize, c)
    ensures CellIndex(min, binsize, v) == c
  {
    var q := (v - min) / binsize;
    assert Times(binsize, q) == v - min;
    Scaled(q, c as real + 0.5, binsize);
    Scaled(c as real - 0.5, q, binsize);
    TimesFacts(c as real, 0.5, binsize);
    TimesFacts(c as real - 0.5, 0.5, binsize);
  }

  lemma BeyondIsOff(v: real, min: real, binsize: real, n: nat)
    requires binsize > 0.0 && Beyond(v, min, binsize, n)
    ensures CellIndex(min, binsize, v) < 0 || CellIndex(min, binsize, v) >= n
  {
    var q := (v - min) / binsize;
    assert Times(binsize, q) == v - min;
    TimesFacts(-0.5, 0.5, binsize);
    TimesFacts(n as real - 1.0, 0.5, binsize);
    if v < min - binsize / 2.0 { Scaled(q, -0.5, binsize); } else { Scaled(n as real - 0.5, q, binsize); }
  }

  /** Products compare as their factors do. */
  lemma Scaled(a: real, b: real, m: real)
    requires m > 0.0 && Times(m, a) < Times(m, b)
    ensures a < b
  {
    if b <= a { TimesOrder(m, b, a); }
  }

  /** A point halfway between two centres goes to the even cell. */
  lemma TieGoesToEven(v: real, min: real, binsize: real, c: int)
    requires binsize > 0.0 && v == min + Times(binsize, c as real + 0.5)
    ensures CellIndex(min, binsize, v) == if c % 2 == 0 then c else c + 1
  {
    var x := c as real + 0.5;
    assert (v - min) / binsize == x by { assert Times(binsize, x) / binsize == x; }
  }

  /** Point (x, y) belongs to row j and column c of the mask, or lies off it. */
  predicate InCell(m: Mask, x: real, y: real, j: int, c: int) {
    0 <= j < m.numY && 0 <= c < m.numX && Near(x, m.minx, m.binsize, c) && Near(y, m.miny, m.binsize, j)
  }

  predicate OffMask(m: Mask, x: real, y: real) {
    Beyond(x, m.minx, m.binsize, m.numX) || Beyond(y, m.miny, m.binsize, m.numY)
  }

  /** A point's value is the one in the row and column it belongs to. */
  lemma CellOfPoint(m: Mask, x: real, y: real)
    requires m.Valid()
    ensures forall j, c :: InCell(m, x, y, j, c) ==> InGrid(m, x, y) && CellValue(m, x, y) == m.grid[j][c]
    ensures OffMask(m, x, y) ==> !InGrid(m, x, y)
  {
    forall j, c | InCell(m, x, y, j, c)
      ensures InGrid(m, x, y) && CellValue(m, x, y) == m.grid[j][c]
    {
      NearIsIndex(x, m.minx, m.binsize, c);
      NearIsIndex(y, m.miny, m.binsize, j);
    }
    if Beyond(x, m.minx, m.binsize, m.numX) { BeyondIsOff(x, m.minx, m.binsize, m.numX); }
    if Beyond(y, m.miny, m.binsize, m.numY) { BeyondIsOff(y, m.miny, m.binsize, m.numY); }
  }

  // ---- Counting ----

  function Occurrences(v: nat, basins: seq<nat>): nat {
    if |basins| == 0 then 0
    else Occurrences(v, basins[..|basins| - 1]) + if basins[|basins| - 1] == v then 1 else 0
  }

  lemma {:induction false} OccursIff(v: nat, basins: seq<nat>)
    ensures Occurrences(v, basins) > 0 <==> v in basins
  {
    if |basins| > 0 {
      OccursIff(v, basins[..|basins| - 1]);
      assert basins == basins[..|basins| - 1] + [basins[|basins| - 1]];
    }
  }

  lemma {:induction false} OccurrencesAre(v: nat, basins: seq<nat>)
    ensures Occurrences(v, basins) == multiset(basins)[v]
  {
    if |basins| > 0 {
      var front, last := basins[..|basins| - 1], basins[|basins| - 1];
      OccurrencesAre(v, front);
      assert basins == front + [last];
    }
  }

  /** How often the loop for one point increments n_inside. */
  function Hits(m: Mask, x: real, y: real, basins: seq<nat>): nat
    requires m.Valid()
  {
    if !InGrid(m, x, y) then 0
    else if |basins| > 0 then Occurrences(CellValue(m, x, y), basins)
    else if CellValue(m, x, y) > 0 then 1 else 0
  }

  /** The same for a point that may have a NaN coordinate, on which points_inside raises instead. */
  function HitsAt(m: Mask, x: Num, y: Num, basins: seq<nat>): nat
    requires m.Valid()
  {
    if x.NaN? || y.NaN? then 0 else Hits(m, x.value, y.value, basins)
  }

  function TotalHits(m: Mask, xs: seq<Num>, ys: seq<Num>, basins: seq<nat>, k: nat): nat
    requires m.Valid() && k <= |xs| == |ys|
  {
    if k == 0 then 0 else TotalHits(m, xs, ys, basins, k - 1) + HitsAt(m, xs[k - 1], ys[k - 1], basins)
  }

  /** Number of true entries. */
  function Trues(s: seq<bool>): nat {
    if |s| == 0 then 0 else Trues(s[..|s| - 1]) + if s[|s| - 1] then 1 else 0
  }

  /** Which points have at least one hit. */
  function HitMask(m: Mask, xs: seq<Num>, ys: seq<Num>, basins: seq<nat>): (s: seq<bool>)
    requires m.Valid() && |xs| == |ys|
    ensures |s| == |xs| && forall i :: 0 <= i < |s| ==> (s[i] <==> HitsAt(m, xs[i], ys[i], basins) > 0)
  {
    seq(|xs|, i requires 0 <= i < |xs| => HitsAt(m, xs[i], ys[i], basins) > 0)
  }

  predicate AllFinite(v: seq<Num>) {
    forall i :: 0 <= i < |v| ==> v[i].Val?
  }

  lemma HitsOfPoint(m: Mask, x: real, y: real, basins: seq<nat>)
    requires m.Valid()
    ensures forall j, c :: InCell(m, x, y, j, c) ==>
      (Hits(m, x, y, basins) > 0 <==> if |basins| > 0 then m.grid[j][c] in basins else m.grid[j][c] > 0)
    ensures OffMask(m, x, y) ==> Hits(m, x, y, basins) == 0
  {
    CellOfPoint(m, x, y);
    if InGrid(m, x, y) { OccursIff(CellValue(m, x, y), basins); }
  }

  /** The inner loop over the listed basins, for one point's cell value. */
  method MatchBasins(v: nat, basins: seq<nat>) returns (inside: bool, n: nat)
    ensures n == Occurrences(v, basins) && (inside <==> n > 0)
  {
    inside, n := false, 0;
    for b := 0 to |basins|
      invariant n == Occurrences(v, basins[..b]) && (inside <==> n > 0)
    {
      assert basins[..b + 1][..b] == basins[..b];
      if v == basins[b] {
        inside, n := true, n + 1;
      }
    }
    assert basins[..|basins|] == basins;
  }

  method MatchPoint(m: Mask, x: real, y: real, basins: seq<nat>) returns (inside: bool, n: nat)
    requires m.Valid()
    ensures n == Hits(m, x, y, basins) && (inside <==> n > 0)
  {
    inside, n := false, 0;
    var ii, jj := CellIndex(m.minx, m.binsize, x), CellIndex(m.miny, m.binsize, y);
    if ii < 0 || ii >= m.numX { return; }
    if jj < 0 || jj >= m.numY { return; }
    if |basins| > 0 {
      inside, n := MatchBasins(m.grid[jj][ii], basins);
    } else if m.grid[jj][ii] > 0 {
      inside, n := true, 1;
    }
  }

  /** The loop over the points. */
  method MatchPoints(m: Mask, xs: seq<Num>, ys: seq<Num>, basins: seq<nat>)
    returns (ok: bool, inmask: array<bool>, nInside: nat)
    requires m.Valid() && |xs| == |ys|
    ensures fresh(inmask) && inmask.Length == |xs|
    ensures ok <==> AllFinite(xs) && AllFinite(ys)
    ensures ok ==> forall i :: 0 <= i < |xs| ==> (inmask[i] <==> HitsAt(m, xs[i], ys[i], basins) > 0)
    ensures ok ==> nInside == TotalHits(m, xs, ys, basins, |xs|)
  {
    inmask := new bool[|xs|](_ => false);
    nInside := 0;
    for i := 0 to |xs|
      invariant forall k :: 0 <= k < i ==> xs[k].Val? && ys[k].Val?
      invariant forall k :: 0 <= k < i ==> (inmask[k] <==> HitsAt(m, xs[k], ys[k], basins) > 0)
      invariant nInside == TotalHits(m, xs, ys, basins, i)
    {
      if xs[i].NaN? || ys[i].NaN? { return false, inmask, nInside; }
      var inside, n := MatchPoint(m, xs[i].value, ys[i].value, basins);
      inmask[i] := inside;
      nInside := nInside + n;
    }
    ok := true;
  }

  /**
   points_inside for a grid mask, on points already in the mask's projection; a NaN point raises.
   n_inside is the number of points inside exactly when no point's value is listed twice, and so
   for distinct basins, or none.
   */
  method PointsInside(m: Mask, xs: seq<Num>, ys: seq<Num>, basins: seq<nat>)
    returns (ok: bool, inmask: array<bool>, nInside: nat)
    requires m.Valid() && |xs| == |ys|
    ensures fresh(inmask) && inmask.Length == |xs|
    ensures ok <==> AllFinite(xs) && AllFinite(ys)
    ensures ok ==> inmask[..] == HitMask(m, xs, ys, basins)
    ensures ok ==> nInside == TotalHits(m, xs, ys, basins, |xs|)
    ensures ok ==> (nInside == Trues(inmask[..]) <==> NoDoubleHit(m, xs, ys, basins, |xs|))
    ensures ok && Distinct(basins) ==> nInside == Trues(inmask[..])
    ensures ok ==> forall i, j, c :: 0 <= i < |xs| && InCell(m, xs[i].value, ys[i].value, j, c) ==>
      (inmask[i] <==> if |basins| > 0 then m.grid[j][c] in basins else m.grid[j][c] > 0)
    ensures ok ==> forall i :: 0 <= i < |xs| && OffMask(m, xs[i].value, ys[i].value) ==> !inmask[i]
  {
    ok, inmask, nInside := MatchPoints(m, xs, ys, basins);
    if !ok { return; }
    forall i | 0 <= i < |xs|
      ensures forall j, c :: InCell(m, xs[i].value, ys[i].value, j, c) ==>
        (inmask[i] <==> if |basins| > 0 then m.grid[j][c] in basins else m.grid[j][c] > 0)
      ensures OffMask(m, xs[i].value, ys[i].value) ==> !inmask[i]
    {
      HitsOfPoint(m, xs[i].value, ys[i].value, basins);
    }
    assert inmask[..] == HitMask(m, xs, ys, basins);
    CountIsRightIff(m, xs, ys, basins);
    if Distinct(basins) { DistinctBasinsCountRight(m, xs, ys, basins); }
  }

  /** The loop of grid_mask_values over the points. */
  method LookUpAll(m: Mask, xs: seq<Num>, ys: seq<Num>, unknownValue: nat) returns (r: Result<seq<nat>>)
    requires m.Valid() && |xs| == |ys|
    ensures r.Err? <==> exists i :: 0 <= i < |xs| && xs[i].Val? && ys[i].NaN?
    ensures r.Ok? ==> |r.value| == |xs| && forall i :: 0 <= i < |xs| ==>
      r.value[i] == if xs[i].Val? && InGrid(m, xs[i].value, ys[i].value) then CellValue(m, xs[i].value, ys[i].value)
                    else unknownValue
  {
    var values := new nat[|xs|](_ => unknownValue);
    for i := 0 to |xs|
      invariant forall k :: 0 <= k < i ==> xs[k].NaN? || ys[k].Val?
      invariant forall k :: 0 <= k < i ==>
        values[k] == if xs[k].Val? && InGrid(m, xs[k].value, ys[k].value) then CellValue(m, xs[k].value, ys[k].value)
                     else unknownValue
      invariant forall k :: i <= k < |xs| ==> values[k] == unknownValue
    {
      if xs[i].Val? {
        if ys[i].NaN? { return Err("ValueError: cannot convert float NaN to integer"); }
        var ii, jj := CellIndex(m.minx, m.binsize, xs[i].value), CellIndex(m.miny, m.binsize, ys[i].value);
        if 0 <= ii < m.numX && 0 <= jj < m.numY {
          values[i] := m.grid[jj][ii];
        }
      }
    }
    r := Ok(values[..]);
  }

  /**
   grid_mask_values: a point gets the value of the row and column it belongs to, and unknownValue off
   the grid or for a NaN x; a NaN y with a finite x raises.
   */
  method GridMaskValues(m: Mask, xs: seq<Num>, ys: seq<Num>, unknownValue: nat) returns (r: Result<seq<nat>>)
    requires m.Valid() && |xs| == |ys|
    ensures r.Err? <==> exists i :: 0 <= i < |xs| && xs[i].Val? && ys[i].NaN?
    ensures r.Ok? ==> |r.value| == |xs| && forall i :: 0 <= i < |xs| ==>
      if xs[i].NaN? then r.value[i] == unknownValue
      else
        && (OffMask(m, xs[i].value, ys[i].value) ==> r.value[i] == unknownValue)
        && (forall j, c :: InCell(m, xs[i].value, ys[i].value, j, c) ==> r.value[i] == m.grid[j][c])
        && r.value[i] == LookedUp(m, xs[i].value, ys[i].value, unknownValue)
  {
    r := LookUpAll(m, xs, ys, unknownValue);
    if r.Ok? {
      forall i | 0 <= i < |xs| && xs[i].Val?
        ensures OffMask(m, xs[i].value, ys[i].value) ==> r.value[i] == unknownValue
        ensures forall j, c :: InCell(m, xs[i].value, ys[i].value, j, c) ==> r.value[i] == m.grid[j][c]
      {
        CellOfPoint(m, xs[i].value, ys[i].value);
      }
    }
  }

  // ---- The two lookups against each other ----

  /** grid_mask_values at one finite point. */
  function LookedUp(m: Mask, x: real, y: real, unknownValue: nat): nat
    requires m.Valid()
  {
    if InGrid(m, x, y) then CellValue(m, x, y) else unknownValue
  }

  /**
   For a non-empty list of basins, points_inside is true exactly where grid_mask_values is one of
   them, unless the unknown value is itself listed and some point lies off the grid.
   */
  lemma LookupsAgreeIff(m: Mask, xs: seq<real>, ys: seq<real>, basins: seq<nat>, unknownValue: nat)
    requires m.Valid() && |xs| == |ys| && |basins| > 0
    ensures (forall i :: 0 <= i < |xs| ==>
               (Hits(m, xs[i], ys[i], basins) > 0 <==> LookedUp(m, xs[i], ys[i], unknownValue) in basins))
      <==> unknownValue !in basins || forall i :: 0 <= i < |xs| ==> InGrid(m, xs[i], ys[i])
  {
    forall i | 0 <= i < |xs|
      ensures (Hits(m, xs[i], ys[i], basins) > 0 <==> LookedUp(m, xs[i], ys[i], unknownValue) in basins)
        <==> unknownValue !in basins || InGrid(m, xs[i], ys[i])
    {
      if InGrid(m, xs[i], ys[i]) { OccursIff(CellValue(m, xs[i], ys[i]), basins); }
    }
  }

  /** No point's cell value is listed more than once: in particular, the basins are distinct. */
  predicate NoDoubleHit(m: Mask, xs: seq<Num>, ys: seq<Num>, basins: seq<nat>, k: nat)
    requires m.Valid() && k <= |xs| == |ys|
  {
    forall i :: 0 <= i < k ==> HitsAt(m, xs[i], ys[i], basins) <= 1
  }

  lemma {:induction false} CountUpTo(m: Mask, xs: seq<Num>, ys: seq<Num>, basins: seq<nat>, k: nat)
    requires m.Valid() && k <= |xs| == |ys|
    ensures var trues := Trues(HitMask(m, xs, ys, basins)[..k]);
            && TotalHits(m, xs, ys, basins, k) >= trues
            && (TotalHits(m, xs, ys, basins, k) == trues <==> NoDoubleHit(m, xs, ys, basins, k))
  {
    if k > 0 {
      var s := HitMask(m, xs, ys, basins);
      assert s[..k][..k - 1] == s[..k - 1];
      CountUpTo(m, xs, ys, basins, k - 1);
    }
  }

  /** n_inside is the number of points inside exactly when no point's value is listed twice. */
  lemma CountIsRightIff(m: Mask, xs: seq<Num>, ys: seq<Num>, basins: seq<nat>)
    requires m.Valid() && |xs| == |ys|
    ensures TotalHits(m, xs, ys, basins, |xs|) == Trues(HitMask(m, xs, ys, basins))
      <==> NoDoubleHit(m, xs, ys, basins, |xs|)
  {
    CountUpTo(m, xs, ys, basins, |xs|);
    assert HitMask(m, xs, ys, basins)[..|xs|] == HitMask(m, xs, ys, basins);
  }

  lemma {:induction false} DistinctBasinsHitOnce(v: nat, basins: seq<nat>)
    requires Distinct(basins)
    ensures Occurrences(v, basins) <= 1
  {
    if |basins| > 0 {
      var front := basins[..|basins| - 1];
      DistinctBasinsHitOnce(v, front);
      OccursIff(v, front);
    }
  }

  /** Distinct basins, or the empty list that asks for any positive cell, count every point inside once. */
  lemma DistinctBasinsCountRight(m: Mask, xs: seq<Num>, ys: seq<Num>, basins: seq<nat>)
    requires m.Valid() && |xs| == |ys| && Distinct(basins)
    ensures TotalHits(m, xs, ys, basins, |xs|) == Trues(HitMask(m, xs, ys, basins))
  {
    forall i | 0 <= i < |xs|
      ensures HitsAt(m, xs[i], ys[i], basins) <= 1
    {
      if xs[i].Val? && ys[i].Val? && InGrid(m, xs[i].value, ys[i].value) {
        DistinctBasinsHitOnce(CellValue(m, xs[i].value, ys[i].value), basins);
      }
    }
    CountIsRightIff(m, xs, ys, basins);
  }

  /** A basin listed twice counts its point twice. */
  lemma ListedTwiceCountsTwice()
    ensures var m := Mask(0.0, 0.0, 1.0, 1, 1, [[7]]);
            && TotalHits(m, [Val(0.0)], [Val(0.0)], [7, 7], 1) == 2
            && Trues(HitMask(m, [Val(0.0)], [Val(0.0)], [7, 7])) == 1
  {
    var m := Mask(0.0, 0.0, 1.0, 1, 1, [[7]]);
    assert CellIndex(0.0, 1.0, 0.0) == 0;
    assert InGrid(m, 0.0, 0.0) && CellValue(m, 0.0, 0.0) == 7;
    assert [7, 7][..1] == [7] && [7][..0] == [];
    assert Occurrences(7, [7]) == 1 && Occurrences(7, [7, 7]) == 2;
    assert Hits(m, 0.0, 0.0, [7, 7]) == 2;
    assert TotalHits(m, [Val(0.0)], [Val(0.0)], [7, 7], 0) == 0;
    var s := HitMask(m, [Val(0.0)], [Val(0.0)], [7, 7]);
    assert s[0] && s[..0] == [];
  }
}
